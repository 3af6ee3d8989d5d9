/** Coding with a table of its own for every kind of decision, as the encoder has them, gives the same bytes as coding
    with the one array that the decoder keeps. */
module LzmaTables {
  import opened Arith
  import opened Bytes
  import opened RangeCoder
  import opened LzmaModel
  import opened LzmaTokens
  import opened LzmaStream
  import opened LzmaLayout

  /** A bit, and the decision whose probability it is coded under. */
  datatype Choice = Under(c: Cell, bit: bool) | Even(bit: bool)

  // ---------- The decisions of a token ----------

  function TreeChoices(f: nat -> Cell, m: nat, n: nat, symbol: nat): seq<Choice>
    decreases n, symbol
  {
    if n == 0 then []
    else
      var bit := BitOf(symbol, n - 1);
      [Under(f(m), bit)] + TreeChoices(f, Child(m, bit), n - 1, symbol)
  }

  function ReverseChoices(f: nat -> Cell, m: nat, n: nat, symbol: nat): seq<Choice>
    decreases n, symbol
  {
    if n == 0 then []
    else
      var bit := symbol % 2 == 1;
      [Under(f(m), bit)] + ReverseChoices(f, Child(m, bit), n - 1, symbol / 2)
  }

  function EvenChoices(value: nat, n: nat): seq<Choice>
    decreases n, value
  {
    if n == 0 then [] else [Even(BitOf(value, n - 1))] + EvenChoices(value, n - 1)
  }

  /** As long as the bits agree with those of the match byte, each has a decision of its own beside that bit. */
  function BesideChoices(place: nat, prev: nat, m: nat, n: nat, b: nat, matchByte: nat, same: bool): seq<Choice>
    decreases n, b
  {
    if n == 0 then []
    else
      var bit, matchBit := BitOf(b, n - 1), BitOf(matchByte, n - 1);
      [Under(if same then Beside(place, prev, matchBit, m) else Plain(place, prev, m), bit)] +
      BesideChoices(place, prev, Child(m, bit), n - 1, b, matchByte, same && bit == matchBit)
  }

  function LenChoices(repeated: bool, posState: nat, len: nat): seq<Choice>
    requires len >= MATCH_MIN_LEN
  {
    if len < 10 then [Under(Longer(repeated), false)] + TreeChoices((k: nat) => ShortLen(repeated, posState, k), 1, 3, len - 2)
    else [Under(Longer(repeated), true)] + LongLenChoices(repeated, posState, len)
  }

  function LongLenChoices(repeated: bool, posState: nat, len: nat): seq<Choice>
    requires len >= 10
  {
    if len < 18 then [Under(Longest(repeated), false)] + TreeChoices((k: nat) => MidLen(repeated, posState, k), 1, 3, len - 10)
    else [Under(Longest(repeated), true)] + TreeChoices((k: nat) => LongLen(repeated, k), 1, 8, len - 18)
  }

  function FooterChoices(d: nat): seq<Choice> {
    var slot := PosSlot(d);
    if slot < START_POS_MODEL then []
    else
      PosSlotBrackets(d);
      var low := d - SlotBase(slot);
      if slot < END_POS_MODEL then ReverseChoices((k: nat) => Footer(slot, k), 1, FooterBits(slot), low)
      else EvenChoices(low / 16, FooterBits(slot) - 4) + ReverseChoices((k: nat) => Aligned(k), 1, 4, low % 16)
  }

  function DistanceChoices(len: nat, d: nat): seq<Choice>
    requires len >= MATCH_MIN_LEN
  {
    TreeChoices((k: nat) => Slot(Min(len - 2, 3), k), 1, 6, PosSlot(d)) + FooterChoices(d)
  }

  function OlderChoices(state: nat, index: nat): seq<Choice> {
    if index == 0 then [Under(WhetherOlder(state), false)]
    else if index == 1 then [Under(WhetherOlder(state), true), Under(WhetherOlder1(state), false)]
    else [Under(WhetherOlder(state), true), Under(WhetherOlder1(state), true), Under(WhetherOlder2(state), index != 2)]
  }

  /** What a literal coder is chosen by: the lowest lp bits of the position, and the highest lc bits of the byte before. */
  function Place(p: Props, text: seq<byte>): nat {
    |text| % Pow2(p.lp)
  }

  function Prev(p: Props, text: seq<byte>): nat
    requires p.lc <= 8
  {
    if text == [] then 0 else HighPart(text[|text| - 1], Pow2(8 - p.lc))
  }

  function HighPart(x: nat, unit: nat): nat
    requires unit > 0
  {
    x / unit
  }

  /** The byte that a copy at the latest distance would bring. */
  function Expected(lz: Lz): byte {
    if lz.reps.r0 < |lz.text| then lz.text[|lz.text| - 1 - lz.reps.r0] else 0
  }

  /** Coded beside it, a literal is set against what a short repeat would have brought in its place. */
  lemma ExpectedIsCopied(p: Props, lz: Lz)
    requires Applicable(p, lz, ShortRep)
    ensures Next(p, lz, ShortRep).text == lz.text + [Expected(lz)]
  {
    assert CopyMatch(lz.text, lz.reps.r0, 1) == CopyMatch(lz.text + [Expected(lz)], lz.reps.r0, 0);
  }

  function LiteralChoices(p: Props, lz: Lz, b: byte): seq<Choice>
    requires p.lc <= 8
  {
    var place, prev := Place(p, lz.text), Prev(p, lz.text);
    if lz.state < NUM_LIT_STATES then TreeChoices((k: nat) => Plain(place, prev, k), 1, 8, b)
    else BesideChoices(place, prev, 1, 8, b, Expected(lz), true)
  }

  function TokenChoices(p: Props, lz: Lz, t: Token): seq<Choice>
    requires p.lc <= 8 && ValidToken(t)
  {
    var posState := |lz.text| % Pow2(p.pb);
    [Under(WhetherMatch(lz.state, posState), !t.Literal?)] +
    match t
    case Literal(b) => LiteralChoices(p, lz, b)
    case Match(d, len) => [Under(WhetherRep(lz.state), false)] + (LenChoices(false, posState, len) + DistanceChoices(len, d))
    case ShortRep => [Under(WhetherRep(lz.state), true)] + (OlderChoices(lz.state, 0) + [Under(WhetherLong(lz.state, posState), false)])
    case Rep(index, len) =>
      [Under(WhetherRep(lz.state), true)] +
      (OlderChoices(lz.state, index) + (if index == 0 then [Under(WhetherLong(lz.state, posState), true)] else []) + LenChoices(true, posState, len))
  }

  function ChoicesOf(p: Props, lz: Lz, ts: seq<Token>): seq<Choice>
    requires p.lc <= 8 && Parses(p, lz, ts)
    decreases |ts|
  {
    if ts == [] then [] else TokenChoices(p, lz, ts[0]) + ChoicesOf(p, Next(p, lz, ts[0]), ts[1..])
  }

  // ---------- In the array ----------

  ghost predicate Valid(p: Props, e: Choice) {
    e.Under? ==> ValidCell(p, e.c)
  }

  ghost predicate AllValid(p: Props, es: seq<Choice>) {
    forall i | 0 <= i < |es| :: Valid(p, es[i])
  }

  function Placed(p: Props, e: Choice): Event
    requires e.Under? ==> Address(p, e.c) >= 0
  {
    match e
    case Under(c, bit) => Modelled(Address(p, c), bit)
    case Even(bit) => Direct(bit)
  }

  /** es are the decisions, fs the steps in the array. */
  ghost predicate Matches(p: Props, es: seq<Choice>, fs: seq<Event>) {
    |es| == |fs| && AllValid(p, es) && forall i | 0 <= i < |es| :: IsPlaced(p, es[i], fs[i])
  }

  ghost predicate IsPlaced(p: Props, e: Choice, f: Event) {
    match e
    case Under(c, bit) => f == if Address(p, c) >= 0 then Modelled(Address(p, c), bit) else Direct(bit)
    case Even(bit) => f == Direct(bit)
  }

  lemma MatchesMore(p: Props, e: Choice, f: Event, es: seq<Choice>, fs: seq<Event>)
    requires Valid(p, e) && IsPlaced(p, e, f) && Matches(p, es, fs)
    ensures Matches(p, [e] + es, [f] + fs)
  {
  }

  lemma MatchesJoin(p: Props, es: seq<Choice>, fs: seq<Event>, es': seq<Choice>, fs': seq<Event>)
    requires Matches(p, es, fs) && Matches(p, es', fs')
    ensures Matches(p, es + es', fs + fs')
  {
  }

  /** The nodes 1 to size - 1 of a tree of decisions stand in a row. */
  ghost predicate InRow(p: Props, f: nat -> Cell, base: nat, size: nat) {
    forall k: nat | 1 <= k < size :: ValidCell(p, f(k)) && Address(p, f(k)) == base + k
  }

  /** A node at height n is one of the first size. */
  lemma NodeInRow(m: nat, n: nat, size: nat, bit: bool)
    requires n > 0 && (m + 1) * Pow2(n) <= 2 * size
    ensures m < size && (Child(m, bit) + 1) * Pow2(n - 1) <= 2 * size
  {
    hide Child;
    PowNext(n - 1);
    MulStep(1, Pow2(n - 1), m + 1);
    ChildScaled(m, bit, Pow2(n - 1));
    assert (m + 1) * (2 * Pow2(n - 1)) == 2 * ((m + 1) * Pow2(n - 1));
    assert (Child(m, bit) + 1) * Pow2(n - 1) == Child(m, bit) * Pow2(n - 1) + Pow2(n - 1);
    assert (m + 1) * (2 * Pow2(n - 1)) == m * (2 * Pow2(n - 1)) + 2 * Pow2(n - 1);
  }

  lemma {:induction false} TreePlaced(p: Props, f: nat -> Cell, base: nat, m: nat, n: nat, symbol: nat, size: nat)
    requires InRow(p, f, base, size) && m >= 1 && (n > 0 ==> (m + 1) * Pow2(n) <= 2 * size)
    ensures Matches(p, TreeChoices(f, m, n, symbol), TreeEvents(base, m, n, symbol))
    decreases n
  {
    hide Pow2, BitOf, Matches, ValidCell, Address;
    if n > 0 {
      var bit := BitOf(symbol, n - 1);
      NodeInRow(m, n, size, bit);
      TreePlaced(p, f, base, Child(m, bit), n - 1, symbol, size);
      MatchesMore(p, Under(f(m), bit), Modelled(base + m, bit), TreeChoices(f, Child(m, bit), n - 1, symbol), TreeEvents(base, Child(m, bit), n - 1, symbol));
    } else {
      MatchesNone(p);
    }
  }

  lemma MatchesNone(p: Props)
    ensures Matches(p, [], [])
  {
  }

  lemma {:induction false} ReversePlaced(p: Props, f: nat -> Cell, base: nat, m: nat, n: nat, symbol: nat, size: nat)
    requires InRow(p, f, base, size) && m >= 1 && (n > 0 ==> (m + 1) * Pow2(n) <= 2 * size)
    ensures Matches(p, ReverseChoices(f, m, n, symbol), ReverseEvents(base, m, n, symbol))
    decreases n
  {
    hide Pow2, BitOf, Matches, ValidCell, Address;
    if n > 0 {
      var bit := symbol % 2 == 1;
      NodeInRow(m, n, size, bit);
      ReversePlaced(p, f, base, Child(m, bit), n - 1, symbol / 2, size);
      MatchesMore(p, Under(f(m), bit), Modelled(base + m, bit), ReverseChoices(f, Child(m, bit), n - 1, symbol / 2), ReverseEvents(base, Child(m, bit), n - 1, symbol / 2));
    } else {
      MatchesNone(p);
    }
  }

  lemma {:induction false} EvenPlaced(p: Props, value: nat, n: nat)
    ensures Matches(p, EvenChoices(value, n), DirectEvents(value, n))
    decreases n
  {
    hide BitOf, Matches;
    if n > 0 {
      EvenPlaced(p, value, n - 1);
      MatchesMore(p, Even(BitOf(value, n - 1)), Direct(BitOf(value, n - 1)), EvenChoices(value, n - 1), DirectEvents(value, n - 1));
    } else {
      MatchesNone(p);
    }
  }

  lemma {:induction false} BesidePlaced(p: Props, place: nat, prev: nat, m: nat, n: nat, b: nat, matchByte: nat, same: bool)
    requires place < Pow2(p.lp) && prev < Pow2(p.lc) && m >= 1 && (n > 0 ==> (m + 1) * Pow2(n) <= 512)
    ensures Matches(p, BesideChoices(place, prev, m, n, b, matchByte, same), MatchedEvents(CoderBase(p, place, prev), m, n, b, matchByte, same))
    decreases n
  {
    hide Pow2, BitOf, Matches, CoderBase;
    if n > 0 {
      var bit, matchBit := BitOf(b, n - 1), BitOf(matchByte, n - 1);
      NodeInRow(m, n, 256, bit);
      var base, next := CoderBase(p, place, prev), same && bit == matchBit;
      BesidePlaced(p, place, prev, Child(m, bit), n - 1, b, matchByte, next);
      MatchesMore(p, Under(if same then Beside(place, prev, matchBit, m) else Plain(place, prev, m), bit), Modelled(MatchedAddress(base, m, matchBit, same), bit),
                  BesideChoices(place, prev, Child(m, bit), n - 1, b, matchByte, next), MatchedEvents(base, Child(m, bit), n - 1, b, matchByte, next));
    } else {
      MatchesNone(p);
    }
  }

  lemma LenPlaced(p: Props, repeated: bool, posState: nat, len: nat)
    requires MATCH_MIN_LEN <= len <= MATCH_MAX_LEN && posState < 16
    ensures Matches(p, LenChoices(repeated, posState, len), LenEvents(LenBase(repeated), posState, len - 2))
  {
    hide TreeChoices, TreeEvents, Matches, Pow2;
    Powers();
    var base := LenBase(repeated);
    if len < 10 {
      var f := (k: nat) => ShortLen(repeated, posState, k);
      TreePlaced(p, f, base + LEN_LOW + posState * 8, 1, 3, len - 2, 8);
      MatchesMore(p, Under(Longer(repeated), false), Modelled(base + LEN_CHOICE, false),
                  TreeChoices(f, 1, 3, len - 2), TreeEvents(base + LEN_LOW + posState * 8, 1, 3, len - 2));
    } else {
      LongLenPlaced(p, repeated, posState, len);
    }
  }

  lemma LongLenPlaced(p: Props, repeated: bool, posState: nat, len: nat)
    requires 10 <= len <= MATCH_MAX_LEN && posState < 16
    ensures Matches(p, LenChoices(repeated, posState, len), LenEvents(LenBase(repeated), posState, len - 2))
  {
    hide TreeChoices, TreeEvents, Matches, Pow2;
    Powers();
    var base := LenBase(repeated);
    if len < 18 {
      var f := (k: nat) => MidLen(repeated, posState, k);
      var es, fs := TreeChoices(f, 1, 3, len - 10), TreeEvents(base + LEN_MID + posState * 8, 1, 3, len - 10);
      TreePlaced(p, f, base + LEN_MID + posState * 8, 1, 3, len - 10, 8);
      MatchesMore(p, Under(Longest(repeated), false), Modelled(base + LEN_CHOICE2, false), es, fs);
      MatchesMore(p, Under(Longer(repeated), true), Modelled(base + LEN_CHOICE, true),
                  [Under(Longest(repeated), false)] + es, [Modelled(base + LEN_CHOICE2, false)] + fs);
    } else {
      var f := (k: nat) => LongLen(repeated, k);
      var es, fs := TreeChoices(f, 1, 8, len - 18), TreeEvents(base + LEN_HIGH, 1, 8, len - 18);
      TreePlaced(p, f, base + LEN_HIGH, 1, 8, len - 18, 256);
      MatchesMore(p, Under(Longest(repeated), true), Modelled(base + LEN_CHOICE2, true), es, fs);
      MatchesMore(p, Under(Longer(repeated), true), Modelled(base + LEN_CHOICE, true),
                  [Under(Longest(repeated), true)] + es, [Modelled(base + LEN_CHOICE2, true)] + fs);
    }
  }

  lemma FooterInRow(p: Props, slot: nat, low: nat)
    requires START_POS_MODEL <= slot < END_POS_MODEL
    ensures SPEC_POS + SlotBase(slot) - slot - 1 >= 0
    ensures Matches(p, ReverseChoices((k: nat) => Footer(slot, k), 1, FooterBits(slot), low),
                       ReverseEvents(SPEC_POS + SlotBase(slot) - slot - 1, 1, FooterBits(slot), low))
  {
    hide ReverseChoices, ReverseEvents, Matches, Pow2, SlotBase;
    SpecBase(slot);
    var size := Pow2(FooterBits(slot));
    assert (1 + 1) * size == 2 * size;
    ReversePlaced(p, (k: nat) => Footer(slot, k), SPEC_POS + SlotBase(slot) - slot - 1, 1, FooterBits(slot), low, size);
  }

  lemma AlignedInRow(p: Props, n: nat, low: nat)
    ensures Matches(p, EvenChoices(low / 16, n) + ReverseChoices((k: nat) => Aligned(k), 1, 4, low % 16),
                       DirectEvents(low / 16, n) + ReverseEvents(ALIGN, 1, 4, low % 16))
  {
    hide ReverseChoices, ReverseEvents, EvenChoices, DirectEvents, Matches, Pow2;
    Powers();
    EvenPlaced(p, low / 16, n);
    ReversePlaced(p, (k: nat) => Aligned(k), ALIGN, 1, 4, low % 16, 16);
    MatchesJoin(p, EvenChoices(low / 16, n), DirectEvents(low / 16, n),
                ReverseChoices((k: nat) => Aligned(k), 1, 4, low % 16), ReverseEvents(ALIGN, 1, 4, low % 16));
  }

  lemma LargeSlot(d: nat)
    requires PosSlot(d) >= START_POS_MODEL
    ensures d >= 4
  {
  }

  lemma FooterPlaced(p: Props, d: nat)
    ensures Matches(p, FooterChoices(d), FooterEvents(PosSlot(d), d))
  {
    hide ReverseChoices, ReverseEvents, EvenChoices, DirectEvents, Matches, Pow2, SlotBase, PosSlot;
    var slot := PosSlot(d);
    if slot < START_POS_MODEL {
      MatchesNone(p);
    } else {
      LargeSlot(d);
      PosSlotBrackets(d);
      if slot < END_POS_MODEL {
        FooterInRow(p, slot, d - SlotBase(slot));
      } else {
        AlignedInRow(p, FooterBits(slot) - 4, d - SlotBase(slot));
      }
    }
  }

  lemma DistancePlaced(p: Props, len: nat, d: nat)
    requires len >= MATCH_MIN_LEN
    ensures Matches(p, DistanceChoices(len, d), DistanceEvents(len - 2, d))
  {
    hide TreeChoices, TreeEvents, FooterChoices, FooterEvents, Matches, Pow2, PosSlot;
    Powers();
    var f := (k: nat) => Slot(Min(len - 2, 3), k);
    TreePlaced(p, f, SlotTree(len - 2), 1, 6, PosSlot(d), 64);
    FooterPlaced(p, d);
    MatchesJoin(p, TreeChoices(f, 1, 6, PosSlot(d)), TreeEvents(SlotTree(len - 2), 1, 6, PosSlot(d)), FooterChoices(d), FooterEvents(PosSlot(d), d));
  }

  lemma LiteralPlaced(p: Props, lz: Lz, b: byte)
    requires ValidProps(p)
    ensures Matches(p, LiteralChoices(p, lz, b), LiteralEvents(ContextOf(p, lz), b))
  {
    hide TreeChoices, TreeEvents, BesideChoices, MatchedEvents, Matches, Pow2, Place, Prev, CoderBase, Expected;
    Powers();
    var place, prev := Place(p, lz.text), Prev(p, lz.text);
    CoderChosen(p, lz);
    if lz.state < NUM_LIT_STATES {
      TreePlaced(p, (k: nat) => Plain(place, prev, k), CoderBase(p, place, prev), 1, 8, b, 256);
    } else {
      BesidePlaced(p, place, prev, 1, 8, b, Expected(lz), true);
    }
  }

  lemma CoderChosen(p: Props, lz: Lz)
    requires ValidProps(p)
    ensures Place(p, lz.text) < Pow2(p.lp) && Prev(p, lz.text) < Pow2(p.lc)
    ensures ContextOf(p, lz).lit == CoderBase(p, Place(p, lz.text), Prev(p, lz.text)) && ContextOf(p, lz).matchByte == Expected(lz)
  {
    var n := |lz.text|;
    Powers();
    Pow2Sum(8 - p.lc, p.lc);
    if n > 0 {
      QuotientBelow(lz.text[n - 1], Pow2(8 - p.lc), Pow2(p.lc));
    } else {
      ModUnique(0, Pow2(p.lp), 0, 0);
    }
    hide Pow2;
  }

  lemma OlderPlaced(p: Props, c: Context, index: nat)
    requires c.state < NUM_STATES
    ensures Matches(p, OlderChoices(c.state, index), RepChoice(c, index))
  {
  }

  lemma PosStateBelow(p: Props, n: nat)
    requires ValidProps(p)
    ensures n % Pow2(p.pb) < 16
  {
    Powers();
    DivMod(n, Pow2(p.pb));
    Pow2Order(p.pb, 4);
  }

  lemma RepPlaced(p: Props, c: Context, t: Token)
    requires ValidToken(t) && (t.Rep? || t.ShortRep?) && c.state < NUM_STATES && c.posState < 16
    ensures var index := if t.Rep? then t.index else 0;
            Matches(p, OlderChoices(c.state, index) + (if index == 0 then [Under(WhetherLong(c.state, c.posState), t.Rep?)] else []) +
                       (if t.Rep? then LenChoices(true, c.posState, t.len) else []), RepTail(c, t))
  {
    hide OlderChoices, RepChoice, LenChoices, LenEvents;
    var index := if t.Rep? then t.index else 0;
    OlderPlaced(p, c, index);
    var es, fs := if index == 0 then [Under(WhetherLong(c.state, c.posState), t.Rep?)] else [], if index == 0 then [Rep0Long(c, t.Rep?)] else [];
    MatchesJoin(p, OlderChoices(c.state, index), RepChoice(c, index), es, fs);
    if t.Rep? {
      LenPlaced(p, true, c.posState, t.len);
      MatchesJoin(p, OlderChoices(c.state, index) + es, RepChoice(c, index) + fs, LenChoices(true, c.posState, t.len), LenEvents(REP_LEN_CODER, c.posState, t.len - 2));
    }
  }

  /** The array holds the tables: the steps of a token are its decisions, each at its place. */
  lemma TokenPlaced(p: Props, lz: Lz, t: Token)
    requires ValidProps(p) && ValidToken(t) && lz.state < NUM_STATES
    ensures Matches(p, TokenChoices(p, lz, t), TokenEvents(ContextOf(p, lz), t))
  {
    hide LiteralChoices, LiteralEvents, LenChoices, LenEvents, DistanceChoices, DistanceEvents, OlderChoices, RepTail, Matches, LiteralBase;
    var c, posState := ContextOf(p, lz), |lz.text| % Pow2(p.pb);
    PosStateBelow(p, |lz.text|);
    var tail := TokenChoices(p, lz, t)[1..];
    match t {
      case Literal(b) =>
        LiteralPlaced(p, lz, b);
      case Match(d, len) =>
        LenPlaced(p, false, posState, len);
        DistancePlaced(p, len, d);
        MatchesJoin(p, LenChoices(false, posState, len), LenEvents(LEN_CODER, posState, len - 2), DistanceChoices(len, d), DistanceEvents(len - 2, d));
        MatchesMore(p, Under(WhetherRep(lz.state), false), IsRep(c, false), LenChoices(false, posState, len) + DistanceChoices(len, d), MatchTail(c, t));
      case ShortRep =>
        RepPlaced(p, c, t);
        var es := OlderChoices(lz.state, 0) + [Under(WhetherLong(lz.state, posState), false)];
        assert es + [] == es;
        MatchesMore(p, Under(WhetherRep(lz.state), true), IsRep(c, true), es, RepTail(c, t));
      case Rep(index, len) =>
        RepPlaced(p, c, t);
        MatchesMore(p, Under(WhetherRep(lz.state), true), IsRep(c, true),
                    OlderChoices(lz.state, index) + (if index == 0 then [Under(WhetherLong(lz.state, posState), true)] else []) + LenChoices(true, posState, len), RepTail(c, t));
    }
    MatchesMore(p, Under(WhetherMatch(lz.state, posState), !t.Literal?), IsMatch(c, !t.Literal?), tail, TokenTail(c, t));
  }

  lemma {:induction false} TokensPlaced(p: Props, lz: Lz, ts: seq<Token>)
    requires ValidProps(p) && Parses(p, lz, ts)
    ensures Matches(p, ChoicesOf(p, lz, ts), EventsOf(p, lz, ts))
    decreases |ts|
  {
    hide TokenChoices, TokenEvents, Matches, Next, ContextOf;
    if ts == [] {
      MatchesNone(p);
    } else {
      TokenPlaced(p, lz, ts[0]);
      TokensPlaced(p, Next(p, lz, ts[0]), ts[1..]);
      MatchesJoin(p, TokenChoices(p, lz, ts[0]), TokenEvents(ContextOf(p, lz), ts[0]),
                  ChoicesOf(p, Next(p, lz, ts[0]), ts[1..]), EventsOf(p, Next(p, lz, ts[0]), ts[1..]));
    }
  }

  // ---------- Coding with separate tables ----------

  /** A coder whose probabilities are not in an array: each decision has its own. */
  datatype Tables = Tables(rc: Interval, probs: Cell -> nat)

  ghost predicate Good(s: Tables) {
    Normal(s.rc) && forall c :: GoodProb(s.probs(c))
  }

  function Set(f: Cell -> nat, c: Cell, x: nat): Cell -> nat {
    (d: Cell) => if d == c then x else f(d)
  }

  function Take(s: Tables, e: Choice): Tables
    requires Good(s)
  {
    match e
    case Under(c, bit) => Tables(Renorm(Narrow(s.rc, s.probs(c), bit)), Set(s.probs, c, Adapt(s.probs(c), bit)))
    case Even(bit) => Tables(Renorm(Halve(s.rc, bit)), s.probs)
  }

  lemma TakeIsGood(s: Tables, e: Choice)
    requires Good(s)
    ensures Good(Take(s, e))
  {
    match e
    case Under(c, bit) => NarrowIsNormal(s.rc, s.probs(c), bit);
    case Even(bit) => HalveIsNormal(s.rc, bit);
  }

  function TakeAll(s: Tables, es: seq<Choice>): (r: Tables)
    requires Good(s)
    ensures Good(r)
    decreases |es|
  {
    if es == [] then s
    else
      TakeIsGood(s, es[0]);
      TakeAll(Take(s, es[0]), es[1..])
  }

  /** The array holds what the tables hold. */
  ghost predicate Holds(p: Props, s: Tables, e: Enc) {
    Good(s) && GoodEnc(e) && e.rc == s.rc && |e.probs| == NumProbs(p) &&
    forall c | ValidCell(p, c) :: HoldsAt(p, s, e, c)
  }

  ghost predicate HoldsAt(p: Props, s: Tables, e: Enc, c: Cell) {
    0 <= Address(p, c) < |e.probs| && e.probs[Address(p, c)] == s.probs(c)
  }

  /** A step changes one probability in both: no other decision is kept at that place. */
  lemma TakeHolds(p: Props, s: Tables, e: Enc, x: Choice, y: Event)
    requires Holds(p, s, e) && Valid(p, x) && IsPlaced(p, x, y)
    ensures InTable(y, |e.probs|) && Holds(p, Take(s, x), LzmaModel.Step(e, y))
  {
    hide Address, ValidCell, Narrow, Renorm, Halve, Adapt;
    if x.Under? {
      assert HoldsAt(p, s, e, x.c);
    }
    TakeIsGood(s, x);
    StepIsGood(e, y);
    var s', e' := Take(s, x), LzmaModel.Step(e, y);
    forall c | ValidCell(p, c)
      ensures HoldsAt(p, s', e', c)
    {
      assert HoldsAt(p, s, e, c);
      if x.Under? && Address(p, c) == Address(p, x.c) {
        Apart(p, c, x.c);
      }
    }
  }

  lemma {:induction false} TakeAllHolds(p: Props, s: Tables, e: Enc, xs: seq<Choice>, ys: seq<Event>)
    requires Holds(p, s, e) && Matches(p, xs, ys)
    ensures AllInTable(ys, |e.probs|) && Holds(p, TakeAll(s, xs), Run(e, ys))
    decreases |xs|
  {
    hide Holds, Take, LzmaModel.Step, Valid, IsPlaced, InTable, GoodEnc, Good;
    HoldsGood(p, s, e);
    if xs != [] {
      TakeHolds(p, s, e, xs[0], ys[0]);
      StepIsGood(e, ys[0]);
      TakeIsGood(s, xs[0]);
      TakeAllHolds(p, Take(s, xs[0]), LzmaModel.Step(e, ys[0]), xs[1..], ys[1..]);
      assert forall i | 0 < i < |ys| :: ys[i] == ys[1..][i - 1];
    }
  }

  lemma HoldsGood(p: Props, s: Tables, e: Enc)
    requires Holds(p, s, e)
    ensures Good(s) && GoodEnc(e) && |e.probs| == NumProbs(p)
  {
  }

  const START := Tables(FIRST_INTERVAL, (c: Cell) => BIT_MODEL_TOTAL / 2)

  lemma StartGood()
    ensures Good(START)
  {
  }

  lemma StartHolds(p: Props)
    requires ValidProps(p)
    ensures Holds(p, START, StartCoder(p))
  {
    forall c | ValidCell(p, c)
      ensures HoldsAt(p, START, StartCoder(p), c)
    {
      InArray(p, c);
    }
  }

  /** All decisions of a stream, with those of the end mark. */
  function StreamChoices(p: Props, ts: seq<Token>, endMark: bool): seq<Choice>
    requires p.lc <= 8 && Parses(p, LZ_START, ts)
  {
    ChoicesOf(p, LZ_START, ts) + if endMark then TokenChoices(p, After(p, LZ_START, ts), END_MARKER) else []
  }

  /** The streams are those of a coder with separate tables. */
  lemma SeparateTables(p: Props, ts: seq<Token>, endMark: bool, output: seq<byte>)
    requires ValidProps(p) && Parses(p, LZ_START, ts)
    ensures Good(START)
    ensures var rc := TakeAll(START, StreamChoices(p, ts, endMark)).rc;
            IsStream(p, ts, endMark, output) <==> BigEndian(output) == rc.low && |output| == 5 + rc.shifts
  {
    hide TokenChoices, TokenEvents, Matches, Holds, ChoicesOf, EventsOf, AllInTable, Good, GoodEnc;
    var lz := After(p, LZ_START, ts);
    var es, fs := ChoicesOf(p, LZ_START, ts), EventsOf(p, LZ_START, ts);
    TokensPlaced(p, LZ_START, ts);
    AfterIsValid(p, LZ_START, ts);
    if endMark {
      TokenPlaced(p, lz, END_MARKER);
      MatchesJoin(p, es, fs, TokenChoices(p, lz, END_MARKER), TokenEvents(ContextOf(p, lz), END_MARKER));
    } else {
      assert es + [] == es && fs + [] == fs;
    }
    StartGood();
    StartHolds(p);
    TakeAllHolds(p, START, StartCoder(p), StreamChoices(p, ts, endMark), StreamEvents(p, ts, endMark));
    SameCode(p, TakeAll(START, StreamChoices(p, ts, endMark)), Run(StartCoder(p), StreamEvents(p, ts, endMark)));
  }

  lemma SameCode(p: Props, s: Tables, e: Enc)
    requires Holds(p, s, e)
    ensures e.rc == s.rc
  {
  }

  lemma {:induction false} AfterIsValid(p: Props, lz: Lz, ts: seq<Token>)
    requires Parses(p, lz, ts) && lz.state < NUM_STATES
    ensures After(p, lz, ts).state < NUM_STATES
    decreases |ts|
  {
    if ts != [] {
      AfterIsValid(p, Next(p, lz, ts[0]), ts[1..]);
    }
  }
}
