/** Whole LZMA streams: the state machine that both sides keep beside the range coder, and
    the round trip of every token sequence. */
module LzmaStream {
  import opened Arith
  import opened Bytes
  import opened RangeCoder
  import opened LzmaModel
  import opened LzmaTokens
  import opened LzmaTokenRoundTrip

  datatype Props = Props(lc: nat, lp: nat, pb: nat, dicSize: nat)

  ghost predicate ValidProps(p: Props) {
    p.lc <= 8 && p.lp <= 4 && p.pb <= 4 && 1 <= p.dicSize < WORD
  }

  function NumProbs(p: Props): nat {
    LITERAL + LITERAL_SIZE * Pow2(p.lc + p.lp)
  }

  // The state after each kind of token; below NUM_LIT_STATES the last token was a literal.

  function LiteralNext(state: nat): nat {
    if state < 4 then 0 else if state < 10 then state - 3 else state - 6
  }

  function MatchNext(state: nat): nat {
    if state < NUM_LIT_STATES then 7 else 10
  }

  function RepNext(state: nat): nat {
    if state < NUM_LIT_STATES then 8 else 11
  }

  function ShortRepNext(state: nat): nat {
    if state < NUM_LIT_STATES then 9 else 11
  }

  datatype Reps = Reps(r0: nat, r1: nat, r2: nat, r3: nat) {
    function Get(i: nat): nat {
      match i
      case 0 => r0
      case 1 => r1
      case 2 => r2
      case _ => r3
    }

    /** Moves entry i to the front. */
    function ToFront(i: nat): Reps {
      match i
      case 0 => this
      case 1 => Reps(r1, r0, r2, r3)
      case 2 => Reps(r2, r0, r1, r3)
      case _ => Reps(r3, r0, r1, r2)
    }

    function Push(d: nat): Reps {
      Reps(d, r0, r1, r2)
    }
  }

  /** The machine state, the last four distances (0 is the previous byte) and the text so far. */
  datatype Lz = Lz(state: nat, reps: Reps, text: seq<byte>)

  const LZ_START := Lz(0, Reps(0, 0, 0, 0), [])

  ghost predicate ValidLz(p: Props, lz: Lz) {
    lz.state < NUM_STATES &&
    (lz.state >= NUM_LIT_STATES ==> lz.text != []) &&
    GoodRep(p, lz.text, lz.reps.r0) && GoodRep(p, lz.text, lz.reps.r1) &&
    GoodRep(p, lz.text, lz.reps.r2) && GoodRep(p, lz.text, lz.reps.r3)
  }

  predicate GoodRep(p: Props, text: seq<byte>, d: nat) {
    Reachable(p, text, d) || (text == [] && d == 0)
  }

  function StartProbs(p: Props): (r: seq<nat>)
    ensures |r| == NumProbs(p) && GoodProbs(r)
  {
    seq(NumProbs(p), _ => BIT_MODEL_TOTAL / 2)
  }

  function StartCoder(p: Props): (r: Enc)
    ensures GoodEnc(r) && |r.probs| == NumProbs(p)
  {
    Enc(FIRST_INTERVAL, StartProbs(p))
  }

  /** Distance d stays inside the text and the dictionary. */
  predicate Reachable(p: Props, text: seq<byte>, d: nat) {
    d < |text| && d < p.dicSize
  }

  /** n more bytes, each a copy of the one at distance d. */
  function CopyMatch(text: seq<byte>, d: nat, n: nat): (r: seq<byte>)
    requires d < |text|
    ensures |r| == |text| + n && text <= r
    decreases n
  {
    if n == 0 then text else CopyMatch(text + [text[|text| - 1 - d]], d, n - 1)
  }

  function LiteralBase(p: Props, pos: nat, prev: byte): nat
    requires p.lc <= 8
  {
    LITERAL + LITERAL_SIZE * (pos % Pow2(p.lp) * Pow2(p.lc) + prev / Pow2(8 - p.lc))
  }

  function ContextOf(p: Props, lz: Lz): Context
    requires p.lc <= 8
  {
    var n := |lz.text|;
    Context(lz.state, n % Pow2(p.pb),
            if n == 0 then LITERAL else LiteralBase(p, n, lz.text[n - 1]),
            if lz.reps.r0 < n then lz.text[n - 1 - lz.reps.r0] else 0)
  }

  predicate Applicable(p: Props, lz: Lz, t: Token) {
    ValidToken(t) && lz.state < NUM_STATES &&
    match t
    case Literal(_) => true
    case ShortRep => Reachable(p, lz.text, lz.reps.r0)
    case Rep(index, _) => Reachable(p, lz.text, lz.reps.Get(index))
    case Match(d, _) => Reachable(p, lz.text, d)
  }

  function Next(p: Props, lz: Lz, t: Token): Lz
    requires Applicable(p, lz, t)
  {
    match t
    case Literal(b) => Lz(LiteralNext(lz.state), lz.reps, lz.text + [b])
    case ShortRep => Lz(ShortRepNext(lz.state), lz.reps, CopyMatch(lz.text, lz.reps.r0, 1))
    case Rep(index, len) =>
      Lz(RepNext(lz.state), lz.reps.ToFront(index), CopyMatch(lz.text, lz.reps.Get(index), len))
    case Match(d, len) =>
      Lz(MatchNext(lz.state), lz.reps.Push(d), CopyMatch(lz.text, d, len))
  }

  lemma NextIsValid(p: Props, lz: Lz, t: Token)
    requires ValidProps(p) && ValidLz(p, lz) && Applicable(p, lz, t)
    ensures ValidLz(p, Next(p, lz, t)) && |Next(p, lz, t).text| > |lz.text| && lz.text <= Next(p, lz, t).text
  {
  }

  lemma ContextIsValid(p: Props, lz: Lz)
    requires ValidProps(p) && ValidLz(p, lz)
    ensures ValidContext(ContextOf(p, lz), NumProbs(p))
  {
    var n := |lz.text|;
    Powers();
    DivMod(n, Pow2(p.pb));
    Pow2Sum(p.pb, 4 - p.pb);
    MulStep(1, Pow2(4 - p.pb), Pow2(p.pb));
    Pow2Sum(p.lc, p.lp);
    if n > 0 {
      LiteralBaseInTable(p, n, lz.text[n - 1]);
    }
  }

  lemma LiteralBaseInTable(p: Props, pos: nat, prev: byte)
    requires ValidProps(p)
    ensures LITERAL <= LiteralBase(p, pos, prev) && LiteralBase(p, pos, prev) + LITERAL_SIZE <= NumProbs(p)
  {
    Powers();
    Pow2Sum(p.lp, p.lc);
    Pow2Sum(8 - p.lc, p.lc);
    DivMod(pos, Pow2(p.lp));
    QuotientBelow(prev, Pow2(8 - p.lc), Pow2(p.lc));
    TwoDigits(pos % Pow2(p.lp), prev / Pow2(8 - p.lc), Pow2(p.lp), Pow2(p.lc));
  }

  // ---------- Every event of a token is in the table ----------

  lemma InRow(m: nat, n: nat)
    requires n > 0
    ensures m + 1 <= (m + 1) * Pow2(n - 1)
  {
    MulStep(1, Pow2(n - 1), m + 1);
  }

  /** A son's row is half of its parent's. */
  lemma ChildInRow(m: nat, bit: bool, n: nat)
    requires n > 1
    ensures (Child(m, bit) + 1) * Pow2(n - 2) <= (m + 1) * Pow2(n - 1)
  {
    hide Pow2, Child;
    PowNext(n - 2);
    ChildScaled(m, bit, Pow2(n - 2));
    assert (Child(m, bit) + 1) * Pow2(n - 2) == Child(m, bit) * Pow2(n - 2) + Pow2(n - 2);
    assert (m + 1) * Pow2(n - 1) == m * Pow2(n - 1) + Pow2(n - 1);
  }

  lemma {:induction false} TreeInTable(base: nat, m: nat, n: nat, symbol: nat, size: nat)
    requires n > 0 ==> base + (m + 1) * Pow2(n - 1) <= size
    ensures AllInTable(TreeEvents(base, m, n, symbol), size)
    decreases n
  {
    hide Pow2, BitOf, Child;
    if n > 0 {
      InRow(m, n);
      if n > 1 {
        var bit := BitOf(symbol, n - 1);
        ChildInRow(m, bit, n);
        TreeInTable(base, Child(m, bit), n - 1, symbol, size);
      }
    }
  }

  lemma {:induction false} ReverseInTable(base: nat, m: nat, n: nat, symbol: nat, size: nat)
    requires n > 0 ==> base + (m + 1) * Pow2(n - 1) <= size
    ensures AllInTable(ReverseEvents(base, m, n, symbol), size)
    decreases n
  {
    if n > 0 {
      MulStep(1, Pow2(n - 1), m + 1);
      if n > 1 {
        var bit := symbol % 2 == 1;
        ChildScaled(m, bit, Pow2(n - 2));
        assert (Child(m, bit) + 1) * Pow2(n - 2) == Child(m, bit) * Pow2(n - 2) + Pow2(n - 2);
        assert (m + 1) * Pow2(n - 1) == m * Pow2(n - 1) + Pow2(n - 1);
        ReverseInTable(base, Child(m, bit), n - 1, symbol / 2, size);
      }
    }
  }

  lemma {:induction false} MatchedInTable(base: nat, m: nat, n: nat, symbol: nat, matchByte: nat, same: bool, size: nat)
    requires n > 0 ==> base + 0x200 + (m + 1) * Pow2(n - 1) <= size
    ensures AllInTable(MatchedEvents(base, m, n, symbol, matchByte, same), size)
    decreases n
  {
    hide Pow2, BitOf, Child;
    if n > 0 {
      InRow(m, n);
      if n > 1 {
        var bit := BitOf(symbol, n - 1);
        ChildInRow(m, bit, n);
        MatchedInTable(base, Child(m, bit), n - 1, symbol, matchByte, same && bit == BitOf(matchByte, n - 1), size);
      }
    }
  }

  lemma {:induction false} DirectInTable(value: nat, n: nat, size: nat)
    ensures AllInTable(DirectEvents(value, n), size)
    decreases n
  {
    if n > 0 {
      DirectInTable(value, n - 1, size);
    }
  }

  lemma LenInTable(base: nat, posState: nat, symbol: nat, size: nat)
    requires posState < 16 && base + 514 <= size
    ensures AllInTable(LenEvents(base, posState, symbol), size)
  {
    hide TreeEvents;
    Powers();
    if symbol < 8 {
      TreeInTable(base + LEN_LOW + posState * 8, 1, 3, symbol, size);
    } else if symbol < 16 {
      TreeInTable(base + LEN_MID + posState * 8, 1, 3, symbol - 8, size);
    } else {
      TreeInTable(base + LEN_HIGH, 1, 8, symbol - 16, size);
    }
  }

  lemma DistanceInTable(lenSymbol: nat, distance: nat, size: nat)
    requires distance < WORD && LITERAL <= size
    ensures AllInTable(DistanceEvents(lenSymbol, distance), size)
  {
    hide TreeEvents, ReverseEvents, DirectEvents, SlotBase;
    Powers();
    TreeInTable(SlotTree(lenSymbol), 1, 6, PosSlot(distance), size);
    var slot := PosSlot(distance);
    if slot >= START_POS_MODEL {
      PosSlotBrackets(distance);
      var reduced := distance - SlotBase(slot);
      if slot < END_POS_MODEL {
        SpecInTable(slot, reduced, size);
      } else {
        DirectInTable(reduced / 16, FooterBits(slot) - 4, size);
        ReverseInTable(ALIGN, 1, 4, reduced % 16, size);
      }
    }
  }

  lemma SpecInTable(slot: nat, reduced: nat, size: nat)
    requires START_POS_MODEL <= slot < END_POS_MODEL && LITERAL <= size
    ensures 0 <= SPEC_POS + SlotBase(slot) - slot - 1
    ensures AllInTable(ReverseEvents(SPEC_POS + SlotBase(slot) - slot - 1, 1, FooterBits(slot), reduced), size)
  {
    hide ReverseEvents, SlotBase, Pow2;
    SpecBase(slot);
    PowNext(FooterBits(slot) - 1);
    ReverseInTable(SPEC_POS + SlotBase(slot) - slot - 1, 1, FooterBits(slot), reduced, size);
  }

  lemma TokenInTable(c: Context, t: Token, size: nat)
    requires ValidToken(t) && ValidContext(c, size)
    ensures AllInTable(TokenEvents(c, t), size)
  {
    hide TreeEvents, MatchedEvents, LenEvents, DistanceEvents;
    Powers();
    match t
    case Literal(b) =>
      if c.state < NUM_LIT_STATES {
        TreeInTable(c.lit, 1, 8, b, size);
      } else {
        MatchedInTable(c.lit, 1, 8, b, c.matchByte, true, size);
      }
    case ShortRep =>
    case Rep(index, len) =>
      LenInTable(REP_LEN_CODER, c.posState, len - 2, size);
    case Match(distance, len) =>
      LenInTable(LEN_CODER, c.posState, len - 2, size);
      DistanceInTable(len - 2, distance, size);
  }

  // ---------- Token sequences ----------

  /** The tokens can follow one another from lz. */
  predicate Parses(p: Props, lz: Lz, ts: seq<Token>)
    decreases |ts|
  {
    ts == [] || (Applicable(p, lz, ts[0]) && Parses(p, Next(p, lz, ts[0]), ts[1..]))
  }

  function EventsOf(p: Props, lz: Lz, ts: seq<Token>): seq<Event>
    requires p.lc <= 8 && Parses(p, lz, ts)
    decreases |ts|
  {
    if ts == [] then [] else TokenEvents(ContextOf(p, lz), ts[0]) + EventsOf(p, Next(p, lz, ts[0]), ts[1..])
  }

  function After(p: Props, lz: Lz, ts: seq<Token>): Lz
    requires Parses(p, lz, ts)
    decreases |ts|
  {
    if ts == [] then lz else After(p, Next(p, lz, ts[0]), ts[1..])
  }

  /** Reads n tokens, applying each. */
  function TokensRead(p: Props, input: seq<byte>, d: Dec, lz: Lz, n: nat): (r: Option<(seq<Token>, Lz, Dec)>)
    ensures r.Some? ==> Onward(input, d, r.value.2)
    requires p.lc <= 8
    decreases n
  {
    if n == 0 then Some(([], lz, d))
    else
      var (t, d1) :- TokenRead(input, d, ContextOf(p, lz));
      if !Applicable(p, lz, t) then None
      else
        var (ts, lz', d') :- TokensRead(p, input, d1, Next(p, lz, t), n - 1);
        Some(([t] + ts, lz', d'))
  }

  /** Decoding gives back every token and the whole text, for every parse and properties. */
  lemma {:induction false} TokensRoundTrip(p: Props, input: seq<byte>, d: Dec, s: Enc, lz: Lz, ts: seq<Token>, rest: seq<Event>)
    requires ValidProps(p) && ValidLz(p, lz) && Parses(p, lz, ts)
    requires Lockstep(input, d, s) && Produces(s, EventsOf(p, lz, ts) + rest, input)
    ensures TokensRead(p, input, d, lz, |ts|).Some?
    ensures var (us, lz', d') := TokensRead(p, input, d, lz, |ts|).value;
            us == ts && lz' == After(p, lz, ts) && ReadPast(input, d', s, EventsOf(p, lz, ts), rest)
    decreases |ts|
  {
    hide AllInTable, GoodEnc, Lockstep, Contains, Run, TokenEvents, TokenRead, ContextOf, Next, ValidLz;
    if ts == [] {
      ReadNothing(input, d, s, rest);
    } else {
      var c := ContextOf(p, lz);
      var t, next := ts[0], Next(p, lz, ts[0]);
      var head, tail := TokenEvents(c, t), EventsOf(p, next, ts[1..]);
      assert head + tail + rest == head + (tail + rest);
      NextIsValid(p, lz, t);
      TokenRoundTrip(input, d, s, c, t, tail + rest);
      var d1 := TokenRead(input, d, c).value.1;
      TokensRoundTrip(p, input, d1, Run(s, head), next, ts[1..], rest);
      var d2 := TokensRead(p, input, d, lz, |ts|).value.2;
      ReadJoin(input, d2, s, head, tail, rest);
      assert [t] + ts[1..] == ts;
    }
  }

  // ---------- Finished streams ----------

  const END_MARKER := Match(END_MARKER_DISTANCE, MATCH_MIN_LEN)

  function EndEvents(p: Props, lz: Lz, endMark: bool): seq<Event>
    requires p.lc <= 8
  {
    if endMark then TokenEvents(ContextOf(p, lz), END_MARKER) else []
  }

  function StreamEvents(p: Props, ts: seq<Token>, endMark: bool): seq<Event>
    requires p.lc <= 8 && Parses(p, LZ_START, ts)
  {
    EventsOf(p, LZ_START, ts) + EndEvents(p, After(p, LZ_START, ts), endMark)
  }

  /** output is what an encoder writes for the tokens: five bytes and one per shift, and as a
      number the exact low end of the final interval. */
  ghost predicate IsStream(p: Props, ts: seq<Token>, endMark: bool, output: seq<byte>) {
    ValidProps(p) && Parses(p, LZ_START, ts) && AllInTable(StreamEvents(p, ts, endMark), NumProbs(p)) &&
    var s := Run(StartCoder(p), StreamEvents(p, ts, endMark));
    BigEndian(output) == s.rc.low && |output| == 5 + s.rc.shifts
  }

  /** The decoder after LzmaDec_InitStateReal and the first five bytes. */
  function StartDecoder(p: Props, input: seq<byte>): Option<Dec> {
    var rd :- StartReader(input);
    Some(Dec(rd, StartProbs(p), true))
  }

  /** All bytes are used and nothing is left in code. */
  ghost predicate AtEnd(input: seq<byte>, d: Dec) {
    Normalize(input, d.rd).Some? && Normalize(input, d.rd).value.pos == |input| && Normalize(input, d.rd).value.code == 0
  }

  /** The whole round trip: tokens, text, end marker, every byte used, code zero. */
  lemma StreamRoundTrip(p: Props, ts: seq<Token>, endMark: bool, stream: seq<byte>)
    requires IsStream(p, ts, endMark, stream)
    ensures StartDecoder(p, stream).Some?
    ensures var r := TokensRead(p, stream, StartDecoder(p, stream).value, LZ_START, |ts|);
            r.Some? && var (us, lz, d) := r.value;
            us == ts && lz == After(p, LZ_START, ts) &&
            if !endMark then AtEnd(stream, d)
            else
              TokenRead(stream, d, ContextOf(p, lz)).Some? &&
              var (t, d') := TokenRead(stream, d, ContextOf(p, lz)).value;
              t == END_MARKER && AtEnd(stream, d')
  {
    hide EventsOf, TokensRead, TokenRead, TokenEvents, After, Parses, ContextOf, Step, AllInTable;
    var s0, end := StartCoder(p), Run(StartCoder(p), StreamEvents(p, ts, endMark));
    assert stream[..|stream|] == stream;
    assert Contains(end.rc, stream);
    ContainsBefore(s0, StreamEvents(p, ts, endMark), stream);
    StartInStep(stream);
    var d0 := StartDecoder(p, stream).value;
    var body, tail := EventsOf(p, LZ_START, ts), EndEvents(p, After(p, LZ_START, ts), endMark);
    TokensRoundTrip(p, stream, d0, s0, LZ_START, ts, tail);
    RunConcat(s0, body, tail);
    var (us, lz, d) := TokensRead(p, stream, d0, LZ_START, |ts|).value;
    if endMark {
      assert tail + [] == tail;
      TokenRoundTrip(stream, d, Run(s0, body), ContextOf(p, lz), END_MARKER, []);
      var d' := TokenRead(stream, d, ContextOf(p, lz)).value.1;
      FinishedExactly(stream, d'.rd, end.rc);
    } else {
      assert Run(Run(s0, body), []) == Run(s0, body);
      FinishedExactly(stream, d.rd, end.rc);
    }
  }

  /** One more token at the end of a parse. */
  lemma {:induction false} ParsesSnoc(p: Props, lz: Lz, ts: seq<Token>, t: Token)
    requires p.lc <= 8 && Parses(p, lz, ts) && Applicable(p, After(p, lz, ts), t)
    ensures Parses(p, lz, ts + [t]) && After(p, lz, ts + [t]) == Next(p, After(p, lz, ts), t)
    ensures EventsOf(p, lz, ts + [t]) == EventsOf(p, lz, ts) + TokenEvents(ContextOf(p, After(p, lz, ts)), t)
    decreases |ts|
  {
    hide Applicable, Next, TokenEvents, ContextOf;
    if ts == [] {
      assert (ts + [t])[1..] == [];
    } else {
      assert (ts + [t])[1..] == ts[1..] + [t];
      ParsesSnoc(p, Next(p, lz, ts[0]), ts[1..], t);
    }
  }
}
