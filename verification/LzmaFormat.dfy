/** The format itself, told without the functions that code it: the bits that stand for a token, the text that it makes,
    and the state and the recent distances that a history of tokens leaves behind. */
module LzmaFormat {
  import opened Arith
  import opened Bytes
  import opened RangeCoder
  import opened LzmaModel
  import opened LzmaTokens
  import opened LzmaStream

  // ---------- A bit and its share of the range ----------

  /** The two values of a bit divide the interval between them, 0 below 1, and 0 gets its probability's share, in units
      of 1/2048, up to rounding. */
  lemma BitsShare(s: Interval, p: nat)
    requires Normal(s) && GoodProb(p)
    ensures var zero, one := Narrow(s, p, false), Narrow(s, p, true);
            zero.low == s.low && zero.low + zero.range == one.low && one.low + one.range == s.low + s.range &&
            zero.range * 2048 <= s.range * p < zero.range * 2048 + 2048 * p
  {
    var q := s.range / 2048;
    NarrowIsNormal(s, p, false);
    MulStep(q * 2048, s.range, p);
    MulStep(s.range, q * 2048 + 2048, p);
    assert q * 2048 * p == q * p * 2048 && (q * 2048 + 2048) * p == q * p * 2048 + 2048 * p;
  }

  /** A direct bit: two halves, 0 below 1. */
  lemma HalvesShare(s: Interval)
    ensures var zero, one := Halve(s, false), Halve(s, true);
            zero.low == s.low && zero.low + zero.range == one.low && zero.range == one.range && s.range - 1 <= 2 * zero.range <= s.range
  {
  }

  /** A probability goes 1/32 of the way, rounded down, to the value that has come up: to 2048 after a 0, to 0 after a 1. */
  lemma AdaptsTowards(p: nat)
    requires GoodProb(p)
    ensures var up, down := Adapt(p, false) - p, p - Adapt(p, true);
            32 * up <= 2048 - p < 32 * up + 32 && 32 * down <= p < 32 * down + 32
  {
  }

  /** In the beginning the whole range is there, and 0 and 1 are equally likely in every decision. */
  lemma EvenAtFirst(p: Props, i: nat)
    requires i < NumProbs(p)
    ensures StartCoder(p).rc == Interval(0, 0xFFFF_FFFF, 0) && 2 * StartCoder(p).probs[i] == 2048
  {
  }

  lemma {:induction false} AllZero(output: seq<byte>)
    ensures BigEndian(output) == 0 <==> forall i | 0 <= i < |output| :: output[i] == 0
    decreases |output|
  {
    if output != [] {
      AllZero(output[..|output| - 1]);
    }
  }

  /** The stream of no tokens, without end mark, is five zero bytes. */
  lemma EmptyStream(p: Props, output: seq<byte>)
    requires ValidProps(p)
    ensures IsStream(p, [], false, output) <==> output == [0, 0, 0, 0, 0]
  {
    AllZero(output);
    assert StreamEvents(p, [], false) == [];
    if output == [0, 0, 0, 0, 0] {
      assert forall i | 0 <= i < |output| :: output[i] == 0;
    }
  }

  // ---------- The state says what the last tokens were ----------

  /** The state when `literals` literals followed t, which itself followed a literal, or nothing (alone), or did not. */
  function StateAfter(t: Token, alone: bool, literals: nat): nat {
    if literals >= 3 then 0
    else
      match t
      case Literal(_) => 0
      case Match(_, _) => if literals == 0 then (if alone then 7 else 10) else if literals == 1 then 4 else 1
      case Rep(_, _) => if literals == 0 then (if alone then 8 else 11) else if literals == 1 then 5 else 2
      case ShortRep => if literals == 0 then (if alone then 9 else 11) else if literals == 1 then (if alone then 6 else 5) else if alone then 3 else 2
  }

  /** Token i is the last one that is not a literal. */
  predicate LastCopy(ts: seq<Token>, i: nat) {
    i < |ts| && !ts[i].Literal? && forall j | i < j < |ts| :: ts[j].Literal?
  }

  predicate AllLiterals(ts: seq<Token>) {
    forall j | 0 <= j < |ts| :: ts[j].Literal?
  }

  predicate AfterLiteral(ts: seq<Token>, i: nat)
    requires i < |ts|
  {
    i == 0 || ts[i - 1].Literal?
  }

  /** All but the last token of a parse, and the last one after them. */
  lemma {:induction false} ParsesInit(p: Props, lz: Lz, ts: seq<Token>)
    requires Parses(p, lz, ts) && ts != []
    ensures var before := ts[..|ts| - 1];
            Parses(p, lz, before) && Applicable(p, After(p, lz, before), ts[|ts| - 1]) &&
            After(p, lz, ts) == Next(p, After(p, lz, before), ts[|ts| - 1])
    decreases |ts|
  {
    hide Applicable, Next;
    if |ts| > 1 {
      assert ts[..|ts| - 1][1..] == ts[1..][..|ts| - 2];
      ParsesInit(p, Next(p, lz, ts[0]), ts[1..]);
    }
  }

  /** What the history says about the state. */
  ghost predicate Says(ts: seq<Token>, state: nat) {
    (AllLiterals(ts) ==> state == 0) &&
    forall i: nat | LastCopy(ts, i) :: state == StateAfter(ts[i], AfterLiteral(ts, i), |ts| - 1 - i)
  }

  /** At every place of every parse, the state is that of its last tokens. */
  lemma {:induction false} StateOfHistory(p: Props, ts: seq<Token>)
    requires Parses(p, LZ_START, ts)
    ensures Says(ts, After(p, LZ_START, ts).state)
    decreases |ts|
  {
    hide Applicable;
    if ts != [] {
      var n := |ts| - 1;
      var before := ts[..n];
      ParsesInit(p, LZ_START, ts);
      StateOfHistory(p, before);
      StateBelow(p, before);
      var state := After(p, LZ_START, before).state;
      hide Parses, After, Says;
      if ts[n].Literal? {
        SaysLiteral(before, state, ts[n]);
      } else {
        SaysCopy(before, state, ts[n]);
      }
      assert before + [ts[n]] == ts;
    }
  }

  lemma SaysLiteral(before: seq<Token>, state: nat, t: Token)
    requires Says(before, state) && t.Literal?
    ensures Says(before + [t], LiteralNext(state))
  {
    var ts := before + [t];
    if AllLiterals(ts) {
      assert forall j | 0 <= j < |before| :: before[j] == ts[j];
    }
    forall i: nat | LastCopy(ts, i)
      ensures LiteralNext(state) == StateAfter(ts[i], AfterLiteral(ts, i), |before| - i)
    {
      assert forall j | 0 <= j < |before| :: before[j] == ts[j];
      assert LastCopy(before, i);
      OneMoreLiteral(ts[i], AfterLiteral(ts, i), |before| - 1 - i);
    }
  }

  lemma SaysCopy(before: seq<Token>, state: nat, t: Token)
    requires !t.Literal? && (state < NUM_LIT_STATES <==> before == [] || before[|before| - 1].Literal?)
    ensures Says(before + [t], if t.Match? then MatchNext(state) else if t.Rep? then RepNext(state) else ShortRepNext(state))
  {
    var ts, n := before + [t], |before|;
    assert ts[n] == t && !ts[n].Literal?;
    forall i: nat | LastCopy(ts, i)
      ensures i == n
    {
    }
  }

  lemma OneMoreLiteral(t: Token, alone: bool, literals: nat)
    requires !t.Literal?
    ensures StateAfter(t, alone, literals + 1) == LiteralNext(StateAfter(t, alone, literals))
  {
  }

  /** Below NUM_LIT_STATES the last token was a literal, or there was none. */
  lemma StateBelow(p: Props, ts: seq<Token>)
    requires Parses(p, LZ_START, ts)
    ensures After(p, LZ_START, ts).state < NUM_LIT_STATES <==> ts == [] || ts[|ts| - 1].Literal?
  {
    if ts != [] {
      ParsesInit(p, LZ_START, ts);
    }
  }

  // ---------- Recent distances, and the text ----------

  /** The last four distances, the latest first. */
  function Recent(r: Reps): (q: seq<nat>)
    ensures |q| == 4
  {
    [r.r0, r.r1, r.r2, r.r3]
  }

  /** How far back a token copies from. */
  function Distance(lz: Lz, t: Token): nat
    requires ValidToken(t) && !t.Literal?
  {
    match t
    case ShortRep => Recent(lz.reps)[0]
    case Rep(index, _) => Recent(lz.reps)[index]
    case Match(d, _) => d
  }

  function Length(t: Token): nat {
    match t
    case Literal(_) => 1
    case ShortRep => 1
    case Rep(_, len) => len
    case Match(_, len) => len
  }

  /** The distance used goes to the front of the queue: from its old place, or from outside, which pushes the oldest out. */
  lemma LatestFirst(p: Props, lz: Lz, t: Token)
    requires Applicable(p, lz, t)
    ensures var q, q' := Recent(lz.reps), Recent(Next(p, lz, t).reps);
            match t
            case Literal(_) => q' == q
            case ShortRep => q' == q
            case Rep(i, _) => q' == [q[i]] + q[..i] + q[i + 1..]
            case Match(d, _) => q' == [d] + q[..3]
    ensures !t.Literal? ==> Recent(Next(p, lz, t).reps)[0] == Distance(lz, t)
  {
  }

  /** From there on every byte is the one at distance d before it. */
  predicate Repeats(text: seq<byte>, from: nat, d: nat) {
    forall k: nat | from <= k < |text| :: Copied(text, k, d)
  }

  predicate Copied(text: seq<byte>, k: nat, d: nat) {
    d < k < |text| && text[k] == text[k - 1 - d]
  }

  lemma {:induction false} CopyRepeats(text: seq<byte>, d: nat, n: nat)
    requires d < |text|
    ensures Repeats(CopyMatch(text, d, n), |text|, d)
    decreases n
  {
    if n > 0 {
      var more := text + [text[|text| - 1 - d]];
      CopyRepeats(more, d, n - 1);
      var r := CopyMatch(more, d, n - 1);
      assert r[|text|] == more[|text|] && r[|text| - 1 - d] == more[|text| - 1 - d];
    }
  }

  /** A token adds so many bytes, each the one at its distance before it, those that it has just added included. */
  lemma WhatIsAdded(p: Props, lz: Lz, t: Token)
    requires Applicable(p, lz, t)
    ensures var text, more := lz.text, Next(p, lz, t).text;
            |more| == |text| + Length(t) && text <= more &&
            if t.Literal? then more[|text|] == t.b
            else Distance(lz, t) < |text| && Repeats(more, |text|, Distance(lz, t))
  {
    if !t.Literal? {
      CopyRepeats(lz.text, Distance(lz, t), Length(t));
    }
  }

  // ---------- The bits ----------

  function BitsOf(es: seq<Event>): (r: seq<bool>)
    ensures |r| == |es|
  {
    if es == [] then [] else [es[0].bit] + BitsOf(es[1..])
  }

  /** n binary digits of x, the highest first. */
  function Digits(x: nat, n: nat): (r: seq<bool>)
    ensures |r| == n
  {
    seq(n, i requires 0 <= i < n => BitOf(x, n - 1 - i))
  }

  /** n binary digits of x, the lowest first. */
  function Reversed(x: nat, n: nat): (r: seq<bool>)
    ensures |r| == n
  {
    seq(n, i requires 0 <= i < n => BitOf(x, i))
  }

  /** The number of the highest binary digit that is 1. */
  function TopBit(x: nat): nat
    requires x > 0
  {
    if x == 1 then 0 else TopBit(x / 2) + 1
  }

  function LengthBits(len: nat): seq<bool>
    requires MATCH_MIN_LEN <= len <= MATCH_MAX_LEN
  {
    if len < 10 then [false] + Digits(len - 2, 3)
    else if len < 18 then [true, false] + Digits(len - 10, 3)
    else [true, true] + Digits(len - 18, 8)
  }

  /** The two highest digits of a distance and how many follow them, in six bits; then those that follow. */
  function DistanceBits(d: nat): seq<bool> {
    if d < 4 then Digits(d, 6)
    else
      var n := TopBit(d) - 1;
      var low := d % Pow2(n);
      Digits(2 * TopBit(d) + d / Pow2(n) % 2, 6) +
      if n < 6 then Reversed(low, n) else Digits(low / 16, n - 4) + Reversed(low % 16, 4)
  }

  /** What stands for a token, in whatever context. */
  function TokenBits(t: Token): seq<bool>
    requires ValidToken(t)
  {
    match t
    case Literal(b) => [false] + Digits(b, 8)
    case Match(d, len) => [true, false] + LengthBits(len) + DistanceBits(d)
    case ShortRep => [true, true, false, false]
    case Rep(i, len) =>
      (if i == 0 then [true, true, false, true]
       else if i == 1 then [true, true, true, false]
       else if i == 2 then [true, true, true, true, false]
       else [true, true, true, true, true]) + LengthBits(len)
  }

  lemma {:induction false} BitsJoin(es: seq<Event>, fs: seq<Event>)
    ensures BitsOf(es + fs) == BitsOf(es) + BitsOf(fs)
    decreases |es|
  {
    if es == [] {
      assert es + fs == fs;
    } else {
      assert (es + fs)[1..] == es[1..] + fs;
      BitsJoin(es[1..], fs);
    }
  }

  lemma BitsOfOne(e: Event)
    ensures BitsOf([e]) == [e.bit]
  {
  }

  lemma BitsOfMore(e: Event, es: seq<Event>)
    ensures BitsOf([e] + es) == [e.bit] + BitsOf(es)
  {
    assert ([e] + es)[1..] == es;
  }

  lemma DigitsMore(x: nat, n: nat)
    requires n > 0
    ensures Digits(x, n) == [BitOf(x, n - 1)] + Digits(x, n - 1)
  {
  }

  lemma HalfDigit(x: nat, i: nat)
    ensures BitOf(x / 2, i) == BitOf(x, i + 1) && (BitOf(x, 0) <==> x % 2 == 1)
  {
    HalfQuotient(x, Pow2(i));
  }

  lemma HalfQuotient(x: nat, h: nat)
    requires h > 0
    ensures x / 2 / h == x / (2 * h)
  {
    DivMod(x / 2, h);
    TwiceProduct(x / 2 / h, h);
    ModUnique(x, 2 * h, x / 2 / h, 2 * (x / 2 % h) + x % 2);
  }

  lemma ReversedMore(x: nat, n: nat)
    requires n > 0
    ensures Reversed(x, n) == [x % 2 == 1] + Reversed(x / 2, n - 1)
  {
    hide BitOf;
    HalfDigit(x, 0);
    forall i | 1 <= i < n
      ensures Reversed(x, n)[i] == Reversed(x / 2, n - 1)[i - 1]
    {
      HalfDigit(x, i - 1);
    }
  }

  lemma {:induction false} TreeBits(base: nat, m: nat, n: nat, symbol: nat)
    ensures BitsOf(TreeEvents(base, m, n, symbol)) == Digits(symbol, n)
    decreases n
  {
    hide BitOf, Child, BitsOf;
    if n > 0 {
      var bit := BitOf(symbol, n - 1);
      TreeBits(base, Child(m, bit), n - 1, symbol);
      DigitsMore(symbol, n);
      BitsOfMore(Modelled(base + m, bit), TreeEvents(base, Child(m, bit), n - 1, symbol));
    } else {
      assert BitsOf([]) == [];
    }
  }

  lemma {:induction false} MatchedBits(base: nat, m: nat, n: nat, symbol: nat, matchByte: nat, same: bool)
    ensures BitsOf(MatchedEvents(base, m, n, symbol, matchByte, same)) == Digits(symbol, n)
    decreases n
  {
    hide BitOf, Child, BitsOf;
    if n > 0 {
      var bit, matchBit := BitOf(symbol, n - 1), BitOf(matchByte, n - 1);
      var tail := MatchedEvents(base, Child(m, bit), n - 1, symbol, matchByte, same && bit == matchBit);
      MatchedBits(base, Child(m, bit), n - 1, symbol, matchByte, same && bit == matchBit);
      DigitsMore(symbol, n);
      BitsOfMore(Modelled(MatchedAddress(base, m, matchBit, same), bit), tail);
    } else {
      assert BitsOf([]) == [];
    }
  }

  lemma {:induction false} ReverseBits(base: nat, m: nat, n: nat, symbol: nat)
    ensures BitsOf(ReverseEvents(base, m, n, symbol)) == Reversed(symbol, n)
    decreases n
  {
    hide BitOf, Child, BitsOf;
    if n > 0 {
      var bit := symbol % 2 == 1;
      ReverseBits(base, Child(m, bit), n - 1, symbol / 2);
      ReversedMore(symbol, n);
      BitsOfMore(Modelled(base + m, bit), ReverseEvents(base, Child(m, bit), n - 1, symbol / 2));
    } else {
      assert BitsOf([]) == [];
    }
  }

  lemma {:induction false} DirectBits(value: nat, n: nat)
    ensures BitsOf(DirectEvents(value, n)) == Digits(value, n)
    decreases n
  {
    hide BitOf, BitsOf;
    if n > 0 {
      DirectBits(value, n - 1);
      DigitsMore(value, n);
      BitsOfMore(Direct(BitOf(value, n - 1)), DirectEvents(value, n - 1));
    } else {
      assert BitsOf([]) == [];
    }
  }

  lemma LenBits(base: nat, posState: nat, len: nat)
    requires MATCH_MIN_LEN <= len <= MATCH_MAX_LEN
    ensures BitsOf(LenEvents(base, posState, len - 2)) == LengthBits(len)
  {
    hide TreeEvents, BitsOf, Digits;
    var s := len - 2;
    TreeBits(base + LEN_LOW + posState * 8, 1, 3, s);
    BitsOfMore(Modelled(base + LEN_CHOICE, false), TreeEvents(base + LEN_LOW + posState * 8, 1, 3, s));
    if s >= 8 {
      BitsOfMore(Modelled(base + LEN_CHOICE, true), LongLenEvents(base, posState, s));
      if s < 16 {
        TreeBits(base + LEN_MID + posState * 8, 1, 3, s - 8);
        BitsOfMore(Modelled(base + LEN_CHOICE2, false), TreeEvents(base + LEN_MID + posState * 8, 1, 3, s - 8));
        assert [true] + ([false] + Digits(s - 8, 3)) == [true, false] + Digits(s - 8, 3);
      } else {
        TreeBits(base + LEN_HIGH, 1, 8, s - 16);
        BitsOfMore(Modelled(base + LEN_CHOICE2, true), TreeEvents(base + LEN_HIGH, 1, 8, s - 16));
        assert [true] + ([true] + Digits(s - 16, 8)) == [true, true] + Digits(s - 16, 8);
      }
    }
  }

  /** A slot is the number of the highest digit, and the digit below it. */
  lemma {:induction false} SlotDigits(d: nat)
    requires d >= 2
    ensures TopBit(d) >= 1 && Pow2(TopBit(d)) <= d < 2 * Pow2(TopBit(d)) && (d >= 4 ==> TopBit(d) >= 2)
    ensures PosSlot(d) == 2 * TopBit(d) + d / Pow2(TopBit(d) - 1) % 2
  {
    if d < 4 {
      assert TopBit(d) == 1 && Pow2(1) == 2 && Pow2(0) == 1;
    } else {
      SlotDigits(d / 2);
      HalfQuotient(d, Pow2(TopBit(d / 2) - 1));
    }
  }

  lemma SlotParts(d: nat)
    requires d >= 4
    ensures var n := TopBit(d) - 1;
            n >= 1 && PosSlot(d) == 2 * TopBit(d) + d / Pow2(n) % 2 && FooterBits(PosSlot(d)) == n && d - SlotBase(PosSlot(d)) == d % Pow2(n)
  {
    hide Pow2, TopBit, PosSlot;
    SlotDigits(d);
    var n := TopBit(d) - 1;
    PowNext(n);
    TwoOrThree(d, Pow2(n));
    BaseOfSlot(TopBit(d), d / Pow2(n));
  }

  lemma BaseOfSlot(top: nat, q: nat)
    requires top >= 2
    ensures FooterBits(2 * top + q % 2) == top - 1 && SlotBase(2 * top + q % 2) == (2 + q % 2) * Pow2(top - 1)
  {
    hide Pow2;
  }

  lemma TwoOrThree(d: nat, h: nat)
    requires 2 * h <= d < 4 * h
    ensures (2 + d / h % 2) * h == d - d % h
  {
    DivMod(d, h);
    MulStep(d / h, 2, h);
    MulStep(4, d / h, h);
    assert d / h == 2 || d / h == 3;
  }

  lemma DistBits(lenSymbol: nat, d: nat)
    ensures BitsOf(DistanceEvents(lenSymbol, d)) == DistanceBits(d)
  {
    hide TreeEvents, ReverseEvents, DirectEvents, BitsOf, Digits, Reversed, Pow2, SlotBase, TopBit;
    var slot := PosSlot(d);
    TreeBits(SlotTree(lenSymbol), 1, 6, slot);
    BitsJoin(TreeEvents(SlotTree(lenSymbol), 1, 6, slot), FooterEvents(slot, d));
    if d < 4 {
      assert BitsOf([]) == [] && FooterEvents(slot, d) == [];
      assert Digits(d, 6) + [] == Digits(d, 6);
    } else {
      SlotParts(d);
      PosSlotBrackets(d);
      FooterBitsAre(slot, d);
    }
  }

  lemma FooterBitsAre(slot: nat, d: nat)
    requires d >= 4 && slot == PosSlot(d) >= 4 && FooterBits(slot) >= 1 && SlotBase(slot) <= d
    ensures var n, low := FooterBits(slot), d - SlotBase(slot);
            BitsOf(FooterEvents(slot, d)) == if n < 6 then Reversed(low, n) else Digits(low / 16, n - 4) + Reversed(low % 16, 4)
  {
    hide ReverseEvents, DirectEvents, BitsOf, Digits, Reversed, Pow2, SlotBase, PosSlot;
    var n, low := FooterBits(slot), d - SlotBase(slot);
    if slot < END_POS_MODEL {
      SpecBase(slot);
      ReverseBits(SPEC_POS + SlotBase(slot) - slot - 1, 1, n, low);
    } else {
      DirectBits(low / 16, n - 4);
      ReverseBits(ALIGN, 1, 4, low % 16);
      BitsJoin(DirectEvents(low / 16, n - 4), ReverseEvents(ALIGN, 1, 4, low % 16));
    }
  }

  lemma TwoBits(e: Event, f: Event, es: seq<Event>)
    ensures BitsOf([e] + ([f] + es)) == [e.bit, f.bit] + BitsOf(es)
  {
    BitsOfMore(e, [f] + es);
    BitsOfMore(f, es);
  }

  lemma RepTailBits(c: Context, t: Token)
    requires ValidToken(t) && (t.Rep? || t.ShortRep?)
    ensures [true, true] + BitsOf(RepTail(c, t)) == TokenBits(t)
  {
    hide LenEvents, BitsOf, LengthBits;
    if t.ShortRep? {
      var (e, f) := (Modelled(IS_REP_G0 + c.state, false), Rep0Long(c, false));
      assert RepTail(c, t) == [e] + ([f] + []);
      TwoBits(e, f, []);
      assert BitsOf([]) == [];
    } else {
      var len := LenEvents(REP_LEN_CODER, c.posState, t.len - 2);
      LenBits(REP_LEN_CODER, c.posState, t.len);
      var e, f := Modelled(IS_REP_G0 + c.state, t.index > 0), if t.index == 0 then Rep0Long(c, true) else Modelled(IS_REP_G1 + c.state, t.index > 1);
      if t.index < 2 {
        assert RepTail(c, t) == [e] + ([f] + len);
        TwoBits(e, f, len);
      } else {
        var g := Modelled(IS_REP_G2 + c.state, t.index != 2);
        assert RepTail(c, t) == [e] + ([f] + ([g] + len));
        BitsOfMore(g, len);
        TwoBits(e, f, [g] + len);
      }
    }
  }

  /** Whatever the context, these bits stand for a token. */
  lemma BitsOfToken(c: Context, t: Token)
    requires ValidToken(t)
    ensures BitsOf(TokenEvents(c, t)) == TokenBits(t)
  {
    hide TreeEvents, MatchedEvents, LenEvents, DistanceEvents, BitsOf, LengthBits, DistanceBits, Digits, RepTail;
    BitsOfMore(IsMatch(c, !t.Literal?), TokenTail(c, t));
    match t
    case Literal(b) =>
      if c.state < NUM_LIT_STATES {
        TreeBits(c.lit, 1, 8, b);
      } else {
        MatchedBits(c.lit, 1, 8, b, c.matchByte, true);
      }
    case Match(d, len) =>
      BitsOfMore(IsRep(c, false), MatchTail(c, t));
      BitsJoin(LenEvents(LEN_CODER, c.posState, len - 2), DistanceEvents(len - 2, d));
      LenBits(LEN_CODER, c.posState, len);
      DistBits(len - 2, d);
      assert [true] + ([false] + (LengthBits(len) + DistanceBits(d))) == [true, false] + LengthBits(len) + DistanceBits(d);
    case _ =>
      BitsOfMore(IsRep(c, true), RepTail(c, t));
      RepTailBits(c, t);
      assert [true] + ([true] + BitsOf(RepTail(c, t))) == [true, true] + BitsOf(RepTail(c, t));
  }

  /** The bits of all tokens, one after another. */
  function AllBits(ts: seq<Token>): seq<bool>
    requires forall i | 0 <= i < |ts| :: ValidToken(ts[i])
  {
    if ts == [] then [] else TokenBits(ts[0]) + AllBits(ts[1..])
  }

  lemma {:induction false} ParsesValid(p: Props, lz: Lz, ts: seq<Token>)
    requires Parses(p, lz, ts)
    ensures forall i | 0 <= i < |ts| :: ValidToken(ts[i])
    decreases |ts|
  {
    if ts != [] {
      ParsesValid(p, Next(p, lz, ts[0]), ts[1..]);
      assert forall i | 0 < i < |ts| :: ts[i] == ts[1..][i - 1];
    }
  }

  /** A whole stream: the bits of its tokens, and those of the end mark, the match of two bytes at distance 2^32. */
  lemma {:induction false} BitsOfTokens(p: Props, lz: Lz, ts: seq<Token>)
    requires p.lc <= 8 && Parses(p, lz, ts)
    ensures (forall i | 0 <= i < |ts| :: ValidToken(ts[i])) && BitsOf(EventsOf(p, lz, ts)) == AllBits(ts)
    decreases |ts|
  {
    hide TokenEvents, TokenBits, BitsOf, Next, ContextOf;
    ParsesValid(p, lz, ts);
    if ts == [] {
      assert BitsOf([]) == [];
    } else {
      var c, next := ContextOf(p, lz), Next(p, lz, ts[0]);
      BitsOfTokens(p, next, ts[1..]);
      BitsOfToken(c, ts[0]);
      BitsJoin(TokenEvents(c, ts[0]), EventsOf(p, next, ts[1..]));
    }
  }

  lemma BitsOfStream(p: Props, ts: seq<Token>, endMark: bool)
    requires p.lc <= 8 && Parses(p, LZ_START, ts)
    ensures (forall i | 0 <= i < |ts| :: ValidToken(ts[i])) &&
            BitsOf(StreamEvents(p, ts, endMark)) == AllBits(ts) + if endMark then TokenBits(Match(0xFFFF_FFFF, 2)) else []
  {
    hide EventsOf, TokenEvents, TokenBits, BitsOf, ContextOf, AllBits;
    BitsOfTokens(p, LZ_START, ts);
    var lz := After(p, LZ_START, ts);
    BitsJoin(EventsOf(p, LZ_START, ts), EndEvents(p, lz, endMark));
    BitsOfToken(ContextOf(p, lz), END_MARKER);
    if !endMark {
      assert BitsOf([]) == [];
    }
  }
}
