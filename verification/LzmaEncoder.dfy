/** The LZMA encoder: probability tables updated in place while the choices of the parser
    are turned into range-coder steps. */
module LzmaEncoder {
  import opened Arith
  import opened Bytes
  import opened RangeCoder
  import opened RangeEncoder
  import opened LzmaModel
  import opened LzmaTokens
  import opened LzmaTokenRoundTrip
  import opened LzmaStream
  import opened PosSlots

  const NUM_LOG_BITS := 13
  const NO_BACK := 0xFFFF_FFFF     // the parser's mark for a literal
  const NUM_REPS := 4

  // The encoder looks the next state up.
  const LITERAL_NEXT := [0, 0, 0, 0, 1, 2, 3, 4, 5, 6, 4, 5]
  const MATCH_NEXT := [7, 7, 7, 7, 7, 7, 7, 10, 10, 10, 10, 10]
  const REP_NEXT := [8, 8, 8, 8, 8, 8, 8, 11, 11, 11, 11, 11]
  const SHORT_REP_NEXT := [9, 9, 9, 9, 9, 9, 9, 11, 11, 11, 11, 11]

  /** The tables of the encoder are the arithmetic of the decoder. */
  lemma TablesAgree(state: nat)
    requires state < NUM_STATES
    ensures LITERAL_NEXT[state] == LiteralNext(state) && MATCH_NEXT[state] == MatchNext(state)
    ensures REP_NEXT[state] == RepNext(state) && SHORT_REP_NEXT[state] == ShortRepNext(state)
  {
  }

  /** HalveAll on the range coder is the run of the direct bits. */
  lemma {:induction false} DirectRun(s: Enc, value: nat, n: nat)
    requires GoodEnc(s)
    ensures AllInTable(DirectEvents(value, n), |s.probs|)
    ensures Run(s, DirectEvents(value, n)) == Enc(HalveAll(s.rc, value, n), s.probs)
    decreases n
  {
    DirectInTable(value, n, |s.probs|);
    if n > 0 {
      var e := Direct(BitOf(value, n - 1));
      StepIsGood(s, e);
      DirectRun(Step(s, e), value, n - 1);
      assert DirectEvents(value, n)[1..] == DirectEvents(value, n - 1);
    }
  }

  /** A run that starts with one event. */
  lemma RunHead(s: Enc, e: Event, es: seq<Event>)
    requires GoodEnc(s) && InTable(e, |s.probs|) && AllInTable(es, |s.probs|)
    ensures AllInTable([e] + es, |s.probs|) && GoodEnc(Step(s, e)) && |Step(s, e).probs| == |s.probs|
    ensures Run(s, [e] + es) == Run(Step(s, e), es)
  {
    StepIsGood(s, e);
    assert ([e] + es)[1..] == es;
  }

  lemma RunOne(s: Enc, e: Event)
    requires GoodEnc(s) && InTable(e, |s.probs|)
    ensures Run(s, [e]) == Step(s, e) && GoodEnc(Step(s, e)) && |Step(s, e).probs| == |s.probs|
  {
    RunHead(s, e, []);
    assert [e] + [] == [e];
  }

  lemma RunNothing(s: Enc)
    requires GoodEnc(s)
    ensures Run(s, []) == s
  {
  }

  /** The run through a bit tree, one node at a time. */
  lemma TreeRun(s: Enc, base: nat, m: nat, n: nat, symbol: nat)
    requires GoodEnc(s) && AllInTable(TreeEvents(base, m, n, symbol), |s.probs|)
    ensures n == 0 ==> Run(s, TreeEvents(base, m, n, symbol)) == s
    ensures n > 0 ==>
              var bit := BitOf(symbol, n - 1);
              var e, tail := Modelled(base + m, bit), TreeEvents(base, Child(m, bit), n - 1, symbol);
              Advances(s, TreeEvents(base, m, n, symbol), e, tail)
  {
    if n > 0 {
      var bit := BitOf(symbol, n - 1);
      FirstAdvances(s, Modelled(base + m, bit), TreeEvents(base, Child(m, bit), n - 1, symbol));
    }
  }

  lemma ReverseRun(s: Enc, base: nat, m: nat, n: nat, symbol: nat)
    requires GoodEnc(s) && AllInTable(ReverseEvents(base, m, n, symbol), |s.probs|)
    ensures n == 0 ==> Run(s, ReverseEvents(base, m, n, symbol)) == s
    ensures n > 0 ==>
              var bit := symbol % 2 == 1;
              var e, tail := Modelled(base + m, bit), ReverseEvents(base, Child(m, bit), n - 1, symbol / 2);
              Advances(s, ReverseEvents(base, m, n, symbol), e, tail)
  {
    if n > 0 {
      var bit := symbol % 2 == 1;
      FirstAdvances(s, Modelled(base + m, bit), ReverseEvents(base, Child(m, bit), n - 1, symbol / 2));
    }
  }

  lemma MatchedRun(s: Enc, base: nat, m: nat, n: nat, symbol: nat, matchByte: nat, same: bool)
    requires GoodEnc(s) && AllInTable(MatchedEvents(base, m, n, symbol, matchByte, same), |s.probs|)
    ensures n == 0 ==> Run(s, MatchedEvents(base, m, n, symbol, matchByte, same)) == s
    ensures n > 0 ==>
              var bit, matchBit := BitOf(symbol, n - 1), BitOf(matchByte, n - 1);
              var e := Modelled(MatchedAddress(base, m, matchBit, same), bit);
              var tail := MatchedEvents(base, Child(m, bit), n - 1, symbol, matchByte, same && bit == matchBit);
              Advances(s, MatchedEvents(base, m, n, symbol, matchByte, same), e, tail)
  {
    if n > 0 {
      var bit, matchBit := BitOf(symbol, n - 1), BitOf(matchByte, n - 1);
      FirstAdvances(s, Modelled(MatchedAddress(base, m, matchBit, same), bit),
                    MatchedEvents(base, Child(m, bit), n - 1, symbol, matchByte, same && bit == matchBit));
    }
  }

  /** Running es from s is running tail after the step e. */
  ghost predicate Advances(s: Enc, es: seq<Event>, e: Event, tail: seq<Event>) {
    GoodEnc(s) && AllInTable(es, |s.probs|) && InTable(e, |s.probs|) && AllInTable(tail, |s.probs|) &&
    GoodEnc(Step(s, e)) && |Step(s, e).probs| == |s.probs| && Run(s, es) == Run(Step(s, e), tail)
  }

  lemma FirstAdvances(s: Enc, e: Event, tail: seq<Event>)
    requires GoodEnc(s) && AllInTable([e] + tail, |s.probs|)
    ensures Advances(s, [e] + tail, e, tail)
  {
    assert ([e] + tail)[0] == e;
    assert forall i | 0 <= i < |tail| :: tail[i] == ([e] + tail)[1 + i];
    RunHead(s, e, tail);
  }

  /** The literal 0x100 + b, moved up by i bits: its part above bit 8 is the tree node. */
  function Shifted(b: byte, i: nat): nat {
    (0x100 + b) * Pow2(i)
  }

  lemma ShiftedLiteral(b: byte, i: nat)
    requires i < 8
    ensures Shifted(b, i) / 128 % 2 == 1 <==> BitOf(b, 7 - i)
    ensures Shifted(b, i + 1) == 2 * Shifted(b, i)
    ensures Shifted(b, i + 1) / 256 == Child(Shifted(b, i) / 256, BitOf(b, 7 - i))
  {
    var x, p, h := 0x100 + b, Pow2(i), Pow2(7 - i);
    Powers();
    Pow2Sum(i, 7 - i);
    ScaledQuotient(x, h, p);
    UpperBit(b, h, p);
    EvenPlus(p, b / h);
    TwiceProduct(x, p);
    HalfOfQuotient(x * p);
    DivMod(x * p / 128, 2);
    TwoHalvings(x * p);
  }

  /** One round of the loop beside a match byte: which probability, and whether the two still agree. */
  lemma MatchedStep(base: nat, b: byte, match0: byte, i: nat, offs: nat)
    requires i < 8 && (offs == 0x100 || offs == 0)
    ensures var symbol, matchByte := Shifted(b, i), match0 * Pow2(i);
            var bit, matchBit := BitOf(b, 7 - i), BitOf(match0, 7 - i);
            Shifted(b, i + 1) == 2 * symbol && match0 * Pow2(i + 1) == 2 * matchByte && (symbol / 128 % 2 == 1 <==> bit) &&
            2 * symbol / 256 == Child(symbol / 256, bit) && (Bit8(2 * matchByte) == Bit8(2 * symbol) <==> bit == matchBit) &&
            offs + AndMask(2 * matchByte, offs) + base + symbol / 256 == MatchedAddress(base, symbol / 256, matchBit, offs == 0x100)
  {
    ShiftedLiteral(b, i);
    ShiftedMatch(match0, i);
    HalfOfQuotient(Shifted(b, i));
  }

  lemma EvenPlus(p: nat, q: nat)
    ensures (2 * p + q) % 2 == q % 2
  {
  }

  lemma TwoHalvings(x: nat)
    ensures x / 128 / 2 == x / 256
  {
  }

  lemma UpperBit(b: nat, h: nat, p: nat)
    requires h > 0 && p * h == 128
    ensures (0x100 + b) / h == 2 * p + b / h
  {
    DivMod(b, h);
    assert (2 * p + b / h) * h == 2 * (p * h) + b / h * h;
    ModUnique(0x100 + b, h, 2 * p + b / h, b % h);
  }

  lemma ShiftedStart(b: byte)
    ensures Shifted(b, 0) == 0x100 + b
    ensures Pow2(0) == 1
  {
  }

  lemma ShiftedRange(b: byte, i: nat)
    requires i <= 8
    ensures Shifted(b, i) < 0x10000 <==> i < 8
  {
    Powers();
    Pow2Sum(i, 8 - i);
    if i < 8 {
      assert Pow2(8 - i) == 2 * Pow2(7 - i);
      MulStep(1, Pow2(7 - i), Pow2(i));
      MulStep(0x100 + b, 512, Pow2(i));
    } else {
      MulStep(256, 0x100 + b, 256);
    }
  }

  class LzmaEnc {
    const props: Props
    const rc: RangeEnc
    const probs: array<nat>
    var state: nat
    var rep0: nat
    var rep1: nat
    var rep2: nat
    var rep3: nat

    ghost predicate Valid()
      reads this, rc, probs
    {
      ValidProps(props) && rc.Valid() && probs.Length == NumProbs(props) && GoodProbs(probs[..]) && state < NUM_STATES
    }

    /** The abstract coder: the exact interval and the probabilities. */
    ghost function Coder(): Enc
      reads this, rc, probs
      requires rc.cacheSize >= 1
    {
      Enc(rc.Current(), probs[..])
    }

    constructor (props: Props)
      requires ValidProps(props)
      ensures this.props == props && fresh(rc) && fresh(probs)
      ensures Valid() && Coder() == StartCoder(props) && rc.out == []
      ensures state == rep0 == rep1 == rep2 == rep3 == 0
    {
      this.props := props;
      rc := new RangeEnc();
      probs := new nat[NumProbs(props)](_ => BIT_MODEL_TOTAL / 2);
      state, rep0, rep1, rep2, rep3 := 0, 0, 0, 0, 0;
    }

    method EncodeBit(a: nat, bit: bool)
      requires Valid() && a < probs.Length
      modifies rc, probs
      ensures Valid() && Coder() == Step(old(Coder()), Modelled(a, bit))
    {
      var next := rc.EncodeBit(probs[a], bit);
      probs[a] := next;
    }

    /** LitEnc_Encode: the symbol moves up to bit 16 while its part above bit 8 names the node. */
    lemma CoderIsGood()
      requires Valid()
      ensures GoodEnc(Coder()) && |Coder().probs| == probs.Length
    {
    }

    method LitEncode(base: nat, b: byte)
      requires Valid() && AllInTable(TreeEvents(base, 1, 8, b), probs.Length)
      modifies rc, probs
      ensures Valid() && Coder() == Run(old(Coder()), TreeEvents(base, 1, 8, b))
    {
      hide Step, Run, Shifted, TreeEvents, AllInTable;
      var symbol := 0x100 + b;
      ghost var i := 0;
      ShiftedStart(b);
      ShiftedRange(b, 0);
      ghost var goal := Run(Coder(), TreeEvents(base, 1, 8, b));
      while symbol < 0x10000
        invariant i <= 8 && symbol == Shifted(b, i) && (symbol < 0x10000 <==> i < 8) && Valid()
        invariant AllInTable(TreeEvents(base, symbol / 256, 8 - i, b), probs.Length)
        invariant Run(Coder(), TreeEvents(base, symbol / 256, 8 - i, b)) == goal
        decreases 8 - i
      {
        ShiftedLiteral(b, i);
        ShiftedRange(b, i + 1);
        TreeRun(Coder(), base, symbol / 256, 8 - i, b);
        EncodeBit(base + symbol / 256, symbol / 128 % 2 == 1);
        symbol := symbol * 2;
        i := i + 1;
      }
      TreeRun(Coder(), base, symbol / 256, 0, b);
    }

    method LitEncodeMatched(base: nat, b: byte, match0: byte)
      requires Valid() && AllInTable(MatchedEvents(base, 1, 8, b, match0, true), probs.Length)
      modifies rc, probs
      ensures Valid() && Coder() == Run(old(Coder()), MatchedEvents(base, 1, 8, b, match0, true))
    {
      hide Step, Run, Shifted, MatchedEvents, AllInTable, AndMask, Bit8, BitOf, Child, Pow2;
      var symbol := 0x100 + b;
      var offs, matchByte: nat := 0x100, match0;
      ghost var i := 0;
      ShiftedStart(b);
      ShiftedRange(b, 0);
      ghost var goal := Run(Coder(), MatchedEvents(base, 1, 8, b, match0, true));
      while symbol < 0x10000
        invariant i <= 8 && symbol == Shifted(b, i) && (symbol < 0x10000 <==> i < 8) && Valid()
        invariant matchByte == match0 * Pow2(i) && (offs == 0x100 || offs == 0)
        invariant AllInTable(MatchedEvents(base, symbol / 256, 8 - i, b, match0, offs == 0x100), probs.Length)
        invariant Run(Coder(), MatchedEvents(base, symbol / 256, 8 - i, b, match0, offs == 0x100)) == goal
        decreases 8 - i
      {
        ShiftedRange(b, i + 1);
        MatchedStep(base, b, match0, i, offs);
        MatchedRun(Coder(), base, symbol / 256, 8 - i, b, match0, offs == 0x100);
        matchByte := matchByte * 2;
        EncodeBit(base + offs + AndMask(matchByte, offs) + symbol / 256, symbol / 128 % 2 == 1);
        symbol := symbol * 2;
        offs := if Bit8(matchByte) == Bit8(symbol) then offs else 0;   // offs &= ~(matchByte ^ symbol)
        i := i + 1;
      }
      MatchedRun(Coder(), base, symbol / 256, 0, b, match0, offs == 0x100);
    }

    method TreeEncode(base: nat, numBitLevels: nat, symbol: nat)
      requires Valid() && AllInTable(TreeEvents(base, 1, numBitLevels, symbol), probs.Length)
      modifies rc, probs
      ensures Valid() && Coder() == Run(old(Coder()), TreeEvents(base, 1, numBitLevels, symbol))
    {
      hide Step, Run, TreeEvents, AllInTable;
      var m: nat, i := 1, numBitLevels;
      ghost var goal := Run(Coder(), TreeEvents(base, 1, numBitLevels, symbol));
      while i != 0
        invariant Valid() && AllInTable(TreeEvents(base, m, i, symbol), probs.Length)
        invariant Run(Coder(), TreeEvents(base, m, i, symbol)) == goal
      {
        TreeRun(Coder(), base, m, i, symbol);
        i := i - 1;
        var bit := BitOf(symbol, i);
        EncodeBit(base + m, bit);
        m := m * 2 + (if bit then 1 else 0);
      }
      TreeRun(Coder(), base, m, 0, symbol);
    }

    method ReverseEncode(base: nat, numBitLevels: nat, symbol: nat)
      requires Valid() && AllInTable(ReverseEvents(base, 1, numBitLevels, symbol), probs.Length)
      modifies rc, probs
      ensures Valid() && Coder() == Run(old(Coder()), ReverseEvents(base, 1, numBitLevels, symbol))
    {
      hide Step, Run, ReverseEvents, AllInTable;
      var m: nat, i, rest := 1, 0, symbol;
      ghost var goal := Run(Coder(), ReverseEvents(base, 1, numBitLevels, symbol));
      while i < numBitLevels
        invariant 0 <= i <= numBitLevels && Valid()
        invariant AllInTable(ReverseEvents(base, m, numBitLevels - i, rest), probs.Length)
        invariant Run(Coder(), ReverseEvents(base, m, numBitLevels - i, rest)) == goal
      {
        ReverseRun(Coder(), base, m, numBitLevels - i, rest);
        var bit := rest % 2 == 1;
        EncodeBit(base + m, bit);
        m := m * 2 + (if bit then 1 else 0);
        rest := rest / 2;
        i := i + 1;
      }
      ReverseRun(Coder(), base, m, 0, rest);
    }

    method DirectEncode(value: nat, numBits: nat)
      requires Valid() && numBits >= 1
      modifies rc
      ensures Valid() && AllInTable(DirectEvents(value, numBits), probs.Length)
      ensures Coder() == Run(old(Coder()), DirectEvents(value, numBits))
    {
      DirectRun(Coder(), value, numBits);
      rc.EncodeDirectBits(value, numBits);
    }

    /** LenEnc_Encode. */
    method LenEncode(base: nat, symbol: nat, posState: nat)
      requires Valid() && posState < 16 && base + 514 <= probs.Length
      modifies rc, probs
      ensures Valid() && AllInTable(LenEvents(base, posState, symbol), probs.Length)
      ensures Coder() == Run(old(Coder()), LenEvents(base, posState, symbol))
    {
      hide Step, Run, TreeEvents, AllInTable, LongLenEvents;
      LenInTable(base, posState, symbol, probs.Length);
      ghost var s0 := Coder();
      ghost var head := Modelled(base + LEN_CHOICE, symbol >= 8);
      ghost var tail := if symbol < 8 then TreeEvents(base + LEN_LOW + posState * 8, 1, 3, symbol)
                        else LongLenEvents(base, posState, symbol);
      FirstAdvances(s0, head, tail);
      if symbol < 8 {
        EncodeBit(base + LEN_CHOICE, false);
        TreeEncode(base + LEN_LOW + posState * 8, 3, symbol);
      } else {
        EncodeBit(base + LEN_CHOICE, true);
        LongLenEncode(base, symbol, posState);
      }
    }

    method LongLenEncode(base: nat, symbol: nat, posState: nat)
      requires Valid() && symbol >= 8 && base + 514 <= probs.Length
      requires AllInTable(LongLenEvents(base, posState, symbol), probs.Length)
      modifies rc, probs
      ensures Valid() && Coder() == Run(old(Coder()), LongLenEvents(base, posState, symbol))
    {
      hide Step, Run, TreeEvents, AllInTable;
      ghost var tail := if symbol < 16 then TreeEvents(base + LEN_MID + posState * 8, 1, 3, symbol - 8)
                        else TreeEvents(base + LEN_HIGH, 1, 8, symbol - 16);
      FirstAdvances(Coder(), Modelled(base + LEN_CHOICE2, symbol >= 16), tail);
      if symbol < 16 {
        EncodeBit(base + LEN_CHOICE2, false);
        TreeEncode(base + LEN_MID + posState * 8, 3, symbol - 8);
      } else {
        EncodeBit(base + LEN_CHOICE2, true);
        TreeEncode(base + LEN_HIGH, 8, symbol - 16);
      }
    }

    /** The slot, then the digits below it: by a small tree, or direct bits and the align tree. */
    method DistanceEncode(fastPos: array<byte>, len: nat, pos: nat)
      requires Valid() && len >= 2 && pos < Pow2(31) && IsFastPos(fastPos[..], NUM_LOG_BITS)
      modifies rc, probs
      ensures Valid() && AllInTable(DistanceEvents(len - 2, pos), probs.Length)
      ensures Coder() == Run(old(Coder()), DistanceEvents(len - 2, pos))
    {
      hide Step, Run, TreeEvents, AllInTable, FooterEvents, SlotBase, Pow2, PosSlot, GoodProbs, GoodEnc;
      Pow2Of31();
      CoderIsGood();
      assert Pow2(6) == 64 by { Powers(); }
      var posSlot := GetPosSlot(fastPos, NUM_LOG_BITS, pos);
      var lenToPosState := if len < 5 then len - 2 else 3;
      DistanceInTable(len - 2, pos, probs.Length);
      ghost var slotEvents := TreeEvents(SlotTree(len - 2), 1, 6, posSlot);
      RunConcat(Coder(), slotEvents, FooterEvents(posSlot, pos));
      TreeEncode(POS_SLOT + lenToPosState * 64, 6, posSlot);
      FooterEncode(posSlot, pos);
    }

    method FooterEncode(posSlot: nat, pos: nat)
      requires Valid() && posSlot == PosSlot(pos)
      requires AllInTable(FooterEvents(posSlot, pos), probs.Length)
      modifies rc, probs
      ensures Valid() && Coder() == Run(old(Coder()), FooterEvents(posSlot, pos))
    {
      hide Step, Run, TreeEvents, ReverseEvents, DirectEvents, AllInTable, PosSlot, SlotBase, GoodProbs, Pow2;
      if posSlot < START_POS_MODEL {
        RunNothing(Coder());
      } else {
        SmallDistance(pos);
        PosSlotBrackets(pos);
        var footerBits := posSlot / 2 - 1;
        SlotBaseAt(posSlot);
        var base := (2 + posSlot % 2) * Pow2(footerBits);
        var posReduced := pos - base;
        if posSlot < END_POS_MODEL {
          SpecBase(posSlot);
          ReverseEncode(SPEC_POS + base - posSlot - 1, footerBits, posReduced);
        } else {
          RunConcat(Coder(), DirectEvents(posReduced / 16, footerBits - 4), ReverseEvents(ALIGN, 1, 4, posReduced % 16));
          DirectEncode(posReduced / 16, footerBits - 4);
          ReverseEncode(ALIGN, 4, posReduced % 16);
        }
      }
    }

    ghost function Machine(text: seq<byte>): Lz
      reads this
    {
      Lz(state, Reps(rep0, rep1, rep2, rep3), text)
    }

    /** A literal after its isMatch bit. */
    method LiteralTail(data: seq<byte>, nowPos: nat, ghost c: Context)
      requires Valid() && nowPos < |data| && ValidLz(props, Machine(data[..nowPos]))
      requires c == ContextOf(props, Machine(data[..nowPos]))
      modifies rc, probs
      ensures Valid() && AllInTable(LiteralEvents(c, data[nowPos]), probs.Length)
      ensures Coder() == Run(old(Coder()), LiteralEvents(c, data[nowPos]))
    {
      hide Step, Run, TreeEvents, MatchedEvents, AllInTable;
      ContextIsValid(props, Machine(data[..nowPos]));
      LiteralInTable(c, data[nowPos], probs.Length);
      var litProbs := if nowPos == 0 then LITERAL else LiteralBase(props, nowPos, data[nowPos - 1]);
      if state < NUM_LIT_STATES {
        LitEncode(litProbs, data[nowPos]);
      } else {
        LitEncodeMatched(litProbs, data[nowPos], data[nowPos - rep0 - 1]);
      }
    }

    /** A repeated match after its isMatch and isRep bits: the choice bits and the new order of reps. */
    method RepChoose(pos: nat, posState: nat, long: bool, ghost c: Context)
      requires Valid() && pos < 4 && (pos != 0 ==> long)
      requires c.state == state && c.posState == posState < 16
      modifies rc, probs, this`rep0, this`rep1, this`rep2, this`rep3
      ensures Valid() && AllInTable(RepBits(c, pos, long), probs.Length)
      ensures Coder() == Run(old(Coder()), RepBits(c, pos, long))
      ensures Reps(rep0, rep1, rep2, rep3) == old(Reps(rep0, rep1, rep2, rep3)).ToFront(pos)
    {
      hide Run, Step;
      ghost var s0 := Coder();
      if pos == 0 {
        assert RepBits(c, pos, long) == [Modelled(IS_REP_G0 + state, false), Rep0Long(c, long)];
        RunTwo(s0, Modelled(IS_REP_G0 + state, false), Rep0Long(c, long));
        EncodeBit(IS_REP_G0 + state, false);
        EncodeBit(IS_REP0_LONG + state * 16 + posState, long);
      } else {
        assert RepBits(c, pos, long) == RepChoice(c, pos);
        RepRotate(pos, c);
      }
    }

    method RepRotate(pos: nat, ghost c: Context)
      requires Valid() && 1 <= pos < 4 && c.state == state
      modifies rc, probs, this`rep0, this`rep1, this`rep2, this`rep3
      ensures Valid() && AllInTable(RepChoice(c, pos), probs.Length)
      ensures Coder() == Run(old(Coder()), RepChoice(c, pos))
      ensures Reps(rep0, rep1, rep2, rep3) == old(Reps(rep0, rep1, rep2, rep3)).ToFront(pos)
    {
      hide Run, Step, GoodProbs, GoodEnc;
      CoderIsGood();
      ghost var s0 := Coder();
      var distance := if pos == 1 then rep1 else if pos == 2 then rep2 else rep3;
      ghost var e0, e1, e2 := Modelled(IS_REP_G0 + state, true), Modelled(IS_REP_G1 + state, pos != 1), Modelled(IS_REP_G2 + state, pos - 2 == 1);
      EncodeBit(IS_REP_G0 + state, true);
      if pos == 1 {
        RunTwo(s0, e0, e1);
        EncodeBit(IS_REP_G1 + state, false);
      } else {
        RunThree(s0, e0, e1, e2);
        EncodeBit(IS_REP_G1 + state, true);
        EncodeBit(IS_REP_G2 + state, pos - 2 == 1);
        if pos == 3 {
          rep3 := rep2;
        }
        rep2 := rep1;
      }
      rep1 := rep0;
      rep0 := distance;
    }

    method RepTailEncode(len: nat, pos: nat, posState: nat, ghost c: Context)
      requires Valid() && c.state == state && c.posState == posState < 16
      requires pos < 4 && len <= MATCH_MAX_LEN && (if len == 1 then pos == 0 else len >= 2)
      modifies rc, probs, this
      ensures Valid()
      ensures var t := TokenOf(len, pos, 0);
              ValidToken(t) && AllInTable(RepTail(c, t), probs.Length) && Coder() == Run(old(Coder()), RepTail(c, t))
      ensures Reps(rep0, rep1, rep2, rep3) == old(Reps(rep0, rep1, rep2, rep3)).ToFront(pos)
      ensures state == if len == 1 then ShortRepNext(old(state)) else RepNext(old(state))
    {
      hide Run, Step, RepChoice, LenEvents;
      ghost var t := TokenOf(len, pos, 0);
      ghost var s0 := Coder();
      ghost var bits := RepBits(c, pos, len != 1);
      ghost var lens := if len == 1 then [] else LenEvents(REP_LEN_CODER, posState, len - 2);
      LenInTable(REP_LEN_CODER, posState, if len == 1 then 0 else len - 2, probs.Length);
      RepChoose(pos, posState, len != 1, c);
      assert RepTail(c, t) == bits + lens;
      RunConcat(s0, bits, lens);
      if len == 1 {
        RunNothing(Coder());
        TablesAgree(state);
        state := SHORT_REP_NEXT[state];
      } else {
        LenEncode(REP_LEN_CODER, len - 2, posState);
        TablesAgree(state);
        state := REP_NEXT[state];
      }
    }

    method MatchTailEncode(fastPos: array<byte>, len: nat, pos: nat, posState: nat, ghost c: Context)
      requires Valid() && c.posState == posState < 16 && IsFastPos(fastPos[..], NUM_LOG_BITS)
      requires MATCH_MIN_LEN <= len <= MATCH_MAX_LEN && pos < Pow2(31)
      modifies rc, probs, this
      ensures Valid() && ValidToken(Match(pos, len))
      ensures AllInTable(MatchTail(c, Match(pos, len)), probs.Length)
      ensures Coder() == Run(old(Coder()), MatchTail(c, Match(pos, len)))
      ensures Reps(rep0, rep1, rep2, rep3) == old(Reps(rep0, rep1, rep2, rep3)).Push(pos)
      ensures state == MatchNext(old(state))
    {
      hide Run, Step, LenEvents, DistanceEvents, AllInTable, GoodProbs, Pow2;
      Pow2Of31();
      ghost var lens, dist := LenEvents(LEN_CODER, posState, len - 2), DistanceEvents(len - 2, pos);
      LenInTable(LEN_CODER, posState, len - 2, probs.Length);
      DistanceInTable(len - 2, pos, probs.Length);
      RunConcatInTable(Coder(), lens, dist);
      TablesAgree(state);
      state := MATCH_NEXT[state];
      LenEncode(LEN_CODER, len - 2, posState);
      DistanceEncode(fastPos, len, pos);
      rep3 := rep2;
      rep2 := rep1;
      rep1 := rep0;
      rep0 := pos;
    }

    /** Everything after the isMatch bit of a match or repeated match. */
    method NonLiteralTail(fastPos: array<byte>, len: nat, pos: nat, posState: nat, ghost c: Context)
      requires Valid() && IsFastPos(fastPos[..], NUM_LOG_BITS)
      requires c.state == state && c.posState == posState < 16
      requires len <= MATCH_MAX_LEN && ((len == 1 && pos == 0) || len >= 2)
      requires pos >= NUM_REPS ==> pos - NUM_REPS < Pow2(31)
      modifies rc, probs, this
      ensures Valid()
      ensures var t := TokenOf(len, pos, 0);
              ValidToken(t) && AllInTable(TokenTail(c, t), probs.Length) && Coder() == Run(old(Coder()), TokenTail(c, t))
      ensures Reps(rep0, rep1, rep2, rep3) ==
              if pos < NUM_REPS then old(Reps(rep0, rep1, rep2, rep3)).ToFront(pos)
              else old(Reps(rep0, rep1, rep2, rep3)).Push(pos - NUM_REPS)
      ensures state == if len == 1 then ShortRepNext(old(state))
                       else if pos < NUM_REPS then RepNext(old(state)) else MatchNext(old(state))
    {
      hide Run, Step, RepTail, MatchTail, AllInTable, Pow2, GoodProbs, GoodEnc;
      Pow2Of31();
      CoderIsGood();
      ghost var s0 := Coder();
      ghost var t := TokenOf(len, pos, 0);
      if pos < NUM_REPS {
        EncodeBit(IS_REP + state, true);
        RepTailEncode(len, pos, posState, c);
        RunHead(s0, IsRep(c, true), RepTail(c, t));
      } else {
        EncodeBit(IS_REP + state, false);
        MatchTailEncode(fastPos, len, pos - NUM_REPS, posState, c);
        RunHead(s0, IsRep(c, false), MatchTail(c, t));
      }
    }

    method WriteEndMarker(posState: nat, ghost c: Context)
      requires Valid() && c.state == state && c.posState == posState < 16
      modifies rc, probs, this`state
      ensures Valid() && AllInTable(TokenEvents(c, END_MARKER), probs.Length)
      ensures Coder() == Run(old(Coder()), TokenEvents(c, END_MARKER))
    {
      hide Run, Step, TokenTail;
      ghost var s0 := Coder();
      EncodeBit(IS_MATCH + state * 16 + posState, true);
      MarkerAfterMatchBit(posState, c);
      RunHead(s0, IsMatch(c, true), TokenTail(c, END_MARKER));
    }

    method MarkerAfterMatchBit(posState: nat, ghost c: Context)
      requires Valid() && c.state == state && c.posState == posState < 16
      modifies rc, probs, this`state
      ensures Valid() && AllInTable(TokenTail(c, END_MARKER), probs.Length)
      ensures Coder() == Run(old(Coder()), TokenTail(c, END_MARKER))
    {
      hide Run, Step, MatchTail;
      ghost var s0 := Coder();
      EncodeBit(IS_REP + state, false);
      MarkerTail(posState, c);
      RunHead(s0, IsRep(c, false), MatchTail(c, END_MARKER));
    }

    method MarkerTail(posState: nat, ghost c: Context)
      requires Valid() && c.posState == posState < 16
      modifies rc, probs, this`state
      ensures Valid() && AllInTable(MatchTail(c, END_MARKER), probs.Length)
      ensures Coder() == Run(old(Coder()), MatchTail(c, END_MARKER))
    {
      hide Run, Step, LenEvents, DistanceEvents;
      ghost var s0 := Coder();
      TablesAgree(state);
      state := MATCH_NEXT[state];
      LenEncode(LEN_CODER, MATCH_MIN_LEN - 2, posState);
      MarkerDistance();
      RunConcatInTable(s0, LenEvents(LEN_CODER, posState, 0), DistanceEvents(0, END_MARKER_DISTANCE));
    }

    /** The end marker's distance: slot 63 and thirty ones. */
    method MarkerDistance()
      requires Valid()
      modifies rc, probs
      ensures Valid() && AllInTable(DistanceEvents(0, END_MARKER_DISTANCE), probs.Length)
      ensures Coder() == Run(old(Coder()), DistanceEvents(0, END_MARKER_DISTANCE))
    {
      hide Run, Step, TreeEvents, DirectEvents, ReverseEvents, FooterEvents, PosSlot;
      ghost var s0 := Coder();
      EndMarkerEvents();
      MarkerInTable(probs.Length);
      TreeEncode(POS_SLOT, 6, 63);
      ghost var s1 := Coder();
      DirectEncode(0x3FFFFFF, 26);
      ReverseEncode(ALIGN, 4, 15);
      RunConcatInTable(s1, DirectEvents(0x3FFFFFF, 26), ReverseEvents(ALIGN, 1, 4, 15));
      RunConcatInTable(s0, TreeEvents(SlotTree(0), 1, 6, 63), FooterEvents(63, END_MARKER_DISTANCE));
    }

    /** One round of the loop of LzmaEnc_CodeOneBlock. */
    method CodeOne(fastPos: array<byte>, data: seq<byte>, nowPos: nat, len: nat, pos: nat)
      requires Valid() && nowPos < |data| && ValidLz(props, Machine(data[..nowPos]))
      requires IsFastPos(fastPos[..], NUM_LOG_BITS)
      requires ValidChoice(props, Machine(data[..nowPos]), data, len, pos)
      modifies rc, probs, this
      ensures Valid()
      ensures var lz, t := old(Machine(data[..nowPos])), TokenOf(len, pos, data[nowPos]);
              AllInTable(TokenEvents(ContextOf(props, lz), t), probs.Length) &&
              Coder() == Run(old(Coder()), TokenEvents(ContextOf(props, lz), t)) &&
              Machine(data[..nowPos + len]) == Next(props, lz, t)
    {
      hide Run, TokenEvents, LiteralBase, ValidLz, ValidContext, GoodProbs, GoodEnc, Next, ValidChoice, Applicable, AllInTable;
      ghost var lz, t := Machine(data[..nowPos]), TokenOf(len, pos, data[nowPos]);
      ghost var c := ContextOf(props, lz);
      ContextIsValid(props, lz);
      ChoiceFacts(props, lz, data, len, pos);
      var posState := nowPos % Pow2(props.pb);
      if len == 1 && pos == NO_BACK {
        LiteralOne(data, nowPos, posState, c);
      } else {
        NonLiteralOne(fastPos, len, pos, posState, c);
      }
    }

    method NonLiteralOne(fastPos: array<byte>, len: nat, pos: nat, posState: nat, ghost c: Context)
      requires Valid() && IsFastPos(fastPos[..], NUM_LOG_BITS)
      requires c.state == state && c.posState == posState && ValidContext(c, probs.Length)
      requires len <= MATCH_MAX_LEN && ((len == 1 && pos == 0) || len >= 2)
      requires pos >= NUM_REPS ==> pos - NUM_REPS < Pow2(31)
      modifies rc, probs, this
      ensures Valid()
      ensures var t := TokenOf(len, pos, 0);
              !t.Literal? && ValidToken(t) && AllInTable(TokenEvents(c, t), probs.Length) && Coder() == Run(old(Coder()), TokenEvents(c, t))
      ensures Reps(rep0, rep1, rep2, rep3) ==
              if pos < NUM_REPS then old(Reps(rep0, rep1, rep2, rep3)).ToFront(pos)
              else old(Reps(rep0, rep1, rep2, rep3)).Push(pos - NUM_REPS)
      ensures state == if len == 1 then ShortRepNext(old(state))
                       else if pos < NUM_REPS then RepNext(old(state)) else MatchNext(old(state))
    {
      hide Run, Step, TokenTail, GoodProbs, GoodEnc, AllInTable, Pow2;
      ghost var s0, t := Coder(), TokenOf(len, pos, 0);
      CoderIsGood();
      EncodeBit(IS_MATCH + state * 16 + posState, true);
      NonLiteralTail(fastPos, len, pos, posState, c);
      RunHead(s0, IsMatch(c, true), TokenTail(c, t));
    }

    method LiteralOne(data: seq<byte>, nowPos: nat, posState: nat, ghost c: Context)
      requires Valid() && nowPos < |data| && ValidLz(props, Machine(data[..nowPos])) && c == ContextOf(props, Machine(data[..nowPos]))
      requires c.state == state < NUM_STATES && c.posState == posState && ValidContext(c, probs.Length)
      modifies rc, probs, this`state
      ensures Valid() && AllInTable(TokenEvents(c, Literal(data[nowPos])), probs.Length)
      ensures Coder() == Run(old(Coder()), TokenEvents(c, Literal(data[nowPos]))) && state == LiteralNext(old(state))
    {
      hide Run, Step, LiteralEvents, TokenTail, LiteralBase, ValidLz, GoodProbs, GoodEnc, ContextOf, AllInTable;
      ghost var s0 := Coder();
      CoderIsGood();
      EncodeBit(IS_MATCH + state * 16 + posState, false);
      LiteralTail(data, nowPos, c);
      LiteralTailIs(c, data[nowPos]);
      TablesAgree(state);
      state := LITERAL_NEXT[state];
      RunHead(s0, IsMatch(c, false), TokenTail(c, Literal(data[nowPos])));
    }
  }

  /** What a valid choice means for the encoder, in its own terms. */
  lemma ChoiceFacts(p: Props, lz: Lz, data: seq<byte>, len: nat, pos: nat)
    requires |lz.text| < |data| && ValidChoice(p, lz, data, len, pos)
    ensures len <= MATCH_MAX_LEN
    ensures var t := TokenOf(len, pos, data[|lz.text|]);
            ValidToken(t) && lz.state < NUM_STATES && Applicable(p, lz, t) &&
            var text := data[..|lz.text| + len];
            if len == 1 && pos == NO_BACK then
              t == Literal(data[|lz.text|]) && Next(p, lz, t) == Lz(LiteralNext(lz.state), lz.reps, text)
            else
              t == TokenOf(len, pos, 0) && !t.Literal? && ((len == 1 && pos == 0) || len >= 2) &&
              (pos >= NUM_REPS ==> pos - NUM_REPS < Pow2(31)) &&
              Next(p, lz, t) == Lz(if len == 1 then ShortRepNext(lz.state)
                                   else if pos < NUM_REPS then RepNext(lz.state) else MatchNext(lz.state),
                                   if pos < NUM_REPS then lz.reps.ToFront(pos) else lz.reps.Push(pos - NUM_REPS), text)
  {
  }

  /** The end marker is the largest distance: slot 63, then all ones. */
  lemma EndMarkerEvents()
    ensures PosSlot(END_MARKER_DISTANCE) == 63
    ensures FooterEvents(63, END_MARKER_DISTANCE) == DirectEvents(0x3FFFFFF, 26) + ReverseEvents(ALIGN, 1, 4, 15)
  {
    hide DirectEvents, ReverseEvents;
    Pow2Of31();
    assert Pow2(30) == 0x4000_0000;
    SlotOfBracket(END_MARKER_DISTANCE, 63);
  }

  lemma MarkerInTable(size: nat)
    requires LITERAL <= size
    ensures AllInTable(TreeEvents(SlotTree(0), 1, 6, 63), size)
    ensures AllInTable(ReverseEvents(ALIGN, 1, 4, 15), size)
  {
    hide TreeEvents, ReverseEvents;
    Powers();
    TreeInTable(SlotTree(0), 1, 6, 63, size);
    ReverseInTable(ALIGN, 1, 4, 15, size);
  }

  lemma RunConcatInTable(s: Enc, es: seq<Event>, fs: seq<Event>)
    requires GoodEnc(s) && AllInTable(es, |s.probs|) && AllInTable(fs, |s.probs|)
    ensures AllInTable(es + fs, |s.probs|) && Run(s, es + fs) == Run(Run(s, es), fs)
  {
    RunConcat(s, es, fs);
  }

  lemma ContextParts(p: Props, lz: Lz)
    requires p.lc <= 8
    ensures ContextOf(p, lz).state == lz.state && ContextOf(p, lz).posState == |lz.text| % Pow2(p.pb)
  {
  }

  lemma ChoiceBounds(p: Props, lz: Lz, data: seq<byte>, len: nat, pos: nat)
    requires ValidChoice(p, lz, data, len, pos)
    ensures |lz.text| < |data| && |lz.text| + len <= |data| && lz.text == data[..|lz.text|]
    ensures Applicable(p, lz, TokenOf(len, pos, data[|lz.text|]))
    ensures Next(p, lz, TokenOf(len, pos, data[|lz.text|])).text == data[..|lz.text| + len]
  {
  }

  lemma LiteralTailIs(c: Context, b: byte)
    ensures TokenTail(c, Literal(b)) == LiteralEvents(c, b)
  {
  }

  lemma RunTwo(s: Enc, e0: Event, e1: Event)
    requires GoodEnc(s) && InTable(e0, |s.probs|) && InTable(e1, |s.probs|)
    ensures AllInTable([e0, e1], |s.probs|) && GoodEnc(Step(s, e0)) && |Step(s, e0).probs| == |s.probs|
    ensures Run(s, [e0, e1]) == Step(Step(s, e0), e1)
  {
    StepIsGood(s, e0);
    RunOne(Step(s, e0), e1);
    RunHead(s, e0, [e1]);
    assert [e0] + [e1] == [e0, e1];
  }

  lemma RunThree(s: Enc, e0: Event, e1: Event, e2: Event)
    requires GoodEnc(s) && InTable(e0, |s.probs|) && InTable(e1, |s.probs|) && InTable(e2, |s.probs|)
    ensures AllInTable([e0, e1, e2], |s.probs|) && GoodEnc(Step(s, e0)) && |Step(s, e0).probs| == |s.probs|
    ensures GoodEnc(Step(Step(s, e0), e1)) && |Step(Step(s, e0), e1).probs| == |s.probs|
    ensures Run(s, [e0, e1, e2]) == Step(Step(Step(s, e0), e1), e2)
  {
    StepIsGood(s, e0);
    StepIsGood(Step(s, e0), e1);
    RunTwo(Step(s, e0), e1, e2);
    RunHead(s, e0, [e1, e2]);
    assert [e0] + [e1, e2] == [e0, e1, e2];
  }

  /** The token that a choice (len, pos) of the parser stands for; pos counts the repeats first. */
  function TokenOf(len: nat, pos: nat, b: byte): Token {
    if len == 1 && pos == NO_BACK then Literal(b)
    else if pos < NUM_REPS then (if len == 1 then ShortRep else Rep(pos, len))
    else Match(pos - NUM_REPS, len)
  }

  /** The choice says something true of the data: its token applies and copies what is there. */
  ghost predicate ValidChoice(p: Props, lz: Lz, data: seq<byte>, len: nat, pos: nat) {
    var n := |lz.text|;
    n < |data| && n + len <= |data| && lz.text == data[..n] &&
    (len == 1 && pos < NUM_REPS ==> pos == 0) && (pos >= NUM_REPS && !(len == 1 && pos == NO_BACK) ==> pos - NUM_REPS < Pow2(31)) &&
    var t := TokenOf(len, pos, data[n]);
    Applicable(p, lz, t) && Next(p, lz, t).text == data[..n + len]
  }

  /** The choice bits of a repeated match together with the short-repeat bit. */
  function RepBits(c: Context, pos: nat, long: bool): seq<Event> {
    RepChoice(c, pos) + (if pos == 0 then [Rep0Long(c, long)] else [])
  }

  lemma LiteralInTable(c: Context, b: byte, size: nat)
    requires ValidContext(c, size)
    ensures AllInTable(LiteralEvents(c, b), size)
  {
    hide TreeEvents, MatchedEvents;
    Powers();
    if c.state < NUM_LIT_STATES {
      TreeInTable(c.lit, 1, 8, b, size);
    } else {
      MatchedInTable(c.lit, 1, 8, b, c.matchByte, true, size);
    }
  }

  lemma Pow2Of31()
    ensures Pow2(31) == 0x8000_0000
  {
    Powers();
    Pow2Sum(8, 8);
    Pow2Sum(16, 8);
    Pow2Sum(24, 7);
  }

  // ---------- Whole streams ----------

  /** The choices of the parser, one after another, cover the rest of the data. */
  ghost predicate ValidParse(p: Props, lz: Lz, data: seq<byte>, choices: seq<(nat, nat)>)
    decreases |choices|
  {
    if choices == [] then lz.text == data
    else
      ValidChoice(p, lz, data, choices[0].0, choices[0].1) &&
      ValidParse(p, Next(p, lz, TokenOf(choices[0].0, choices[0].1, data[|lz.text|])), data, choices[1..])
  }

  /** The tokens that the choices stand for, from position n of the data on. */
  function Spelled(data: seq<byte>, n: nat, choices: seq<(nat, nat)>): seq<Token>
    decreases |choices|
  {
    if choices == [] || n >= |data| then []
    else [TokenOf(choices[0].0, choices[0].1, data[n])] + Spelled(data, n + choices[0].0, choices[1..])
  }

  /** The coder has done the tokens. */
  ghost predicate SoFar(p: Props, tokens: seq<Token>, lz: Lz, coder: Enc) {
    ValidProps(p) && Parses(p, LZ_START, tokens) && After(p, LZ_START, tokens) == lz && AllInTable(EventsOf(p, LZ_START, tokens), NumProbs(p)) &&
    coder == Run(StartCoder(p), EventsOf(p, LZ_START, tokens))
  }

  lemma SoFarMeans(p: Props, tokens: seq<Token>, lz: Lz, coder: Enc)
    requires SoFar(p, tokens, lz, coder)
    ensures Parses(p, LZ_START, tokens) && After(p, LZ_START, tokens) == lz && AllInTable(EventsOf(p, LZ_START, tokens), NumProbs(p))
    ensures coder == Run(StartCoder(p), EventsOf(p, LZ_START, tokens))
  {
  }

  lemma NothingSoFar(p: Props)
    requires ValidProps(p)
    ensures SoFar(p, [], LZ_START, StartCoder(p)) && ValidLz(p, LZ_START)
  {
    RunNothing(StartCoder(p));
  }

  lemma OneMore(p: Props, tokens: seq<Token>, lz: Lz, s: Enc, t: Token, s': Enc)
    requires SoFar(p, tokens, lz, s) && ValidLz(p, lz) && Applicable(p, lz, t) && GoodEnc(s) && |s.probs| == NumProbs(p)
    requires AllInTable(TokenEvents(ContextOf(p, lz), t), NumProbs(p)) && s' == Run(s, TokenEvents(ContextOf(p, lz), t))
    ensures SoFar(p, tokens + [t], Next(p, lz, t), s') && ValidLz(p, Next(p, lz, t))
  {
    hide TokenEvents, ContextOf, Run, Next, ValidLz;
    ParsesSnoc(p, LZ_START, tokens, t);
    RunConcatInTable(StartCoder(p), EventsOf(p, LZ_START, tokens), TokenEvents(ContextOf(p, lz), t));
    NextIsValid(p, lz, t);
  }

  lemma SpelledMore(tokens: seq<Token>, data: seq<byte>, n: nat, choices: seq<(nat, nat)>, i: nat)
    requires i < |choices| && n < |data|
    ensures tokens + Spelled(data, n, choices[i..]) ==
            tokens + [TokenOf(choices[i].0, choices[i].1, data[n])] + Spelled(data, n + choices[i].0, choices[i + 1..])
  {
    assert choices[i..][1..] == choices[i + 1..];
  }

  lemma SpelledOut(tokens: seq<Token>, data: seq<byte>, n: nat)
    ensures tokens + Spelled(data, n, []) == tokens
  {
  }

  /** LzmaEnc_Encode for any parse of the data: the output is the stream of just the tokens chosen, and they denote
      exactly the data. */
  method Encode(props: Props, data: seq<byte>, choices: seq<(nat, nat)>, writeEndMark: bool) returns (output: seq<byte>)
    requires ValidProps(props) && ValidParse(props, LZ_START, data, choices)
    ensures IsStream(props, Spelled(data, 0, choices), writeEndMark, output)
    ensures After(props, LZ_START, Spelled(data, 0, choices)).text == data
  {
    hide ValidChoice, Next, ContextOf, TokenEvents, Applicable, Run, Step, Spelled, TokenOf, SoFar, ValidLz, IsStream, AllInTable, IsFastPos, GoodProbs;
    var fastPos := FastPosInit(NUM_LOG_BITS);
    var enc := new LzmaEnc(props);
    var nowPos, i := 0, 0;
    ghost var tokens: seq<Token> := [];
    ghost var lz := LZ_START;
    NothingSoFar(props);
    while i < |choices|
      invariant 0 <= i <= |choices| && fresh(enc) && fresh(enc.rc) && fresh(enc.probs) && enc.props == props
      invariant enc.Valid() && IsFastPos(fastPos[..], NUM_LOG_BITS)
      invariant lz == enc.Machine(lz.text) && |lz.text| == nowPos && ValidLz(props, lz)
      invariant ValidParse(props, lz, data, choices[i..])
      invariant tokens + Spelled(data, nowPos, choices[i..]) == Spelled(data, 0, choices)
      invariant SoFar(props, tokens, lz, enc.Coder())
    {
      var (len, pos) := choices[i];
      ghost var s := enc.Coder();
      ChoiceBounds(props, lz, data, len, pos);
      ghost var t := TokenOf(len, pos, data[nowPos]);
      SpelledMore(tokens, data, nowPos, choices, i);
      enc.CodeOne(fastPos, data, nowPos, len, pos);
      OneMore(props, tokens, lz, s, t, enc.Coder());
      tokens, lz := tokens + [t], Next(props, lz, t);
      nowPos := nowPos + len;
      assert choices[i..][1..] == choices[i + 1..];
      i := i + 1;
    }
    assert choices[i..] == [];
    SpelledOut(tokens, data, nowPos);
    SoFarMeans(props, tokens, lz, enc.Coder());
    output := Flush(enc, nowPos, writeEndMark, tokens);
  }

  /** The end marker, if it is wanted, and the bytes still held back. */
  method Flush(enc: LzmaEnc, nowPos: nat, writeEndMark: bool, ghost tokens: seq<Token>) returns (output: seq<byte>)
    requires enc.Valid() && ValidProps(enc.props) && Parses(enc.props, LZ_START, tokens)
    requires var lz := After(enc.props, LZ_START, tokens); lz == enc.Machine(lz.text) && |lz.text| == nowPos && ValidLz(enc.props, lz)
    requires AllInTable(EventsOf(enc.props, LZ_START, tokens), NumProbs(enc.props))
    requires enc.Coder() == Run(StartCoder(enc.props), EventsOf(enc.props, LZ_START, tokens))
    modifies enc, enc.rc, enc.probs
    ensures IsStream(enc.props, tokens, writeEndMark, output)
  {
    hide ContextOf, TokenEvents, Run, Step, ValidLz;
    ghost var props, lz := enc.props, After(enc.props, LZ_START, tokens);
    ghost var body, tail := EventsOf(props, LZ_START, tokens), EndEvents(props, lz, writeEndMark);
    ContextIsValid(props, lz);
    ContextParts(props, lz);
    if writeEndMark {
      enc.WriteEndMarker(nowPos % Pow2(enc.props.pb), ContextOf(props, lz));
    } else {
      RunNothing(enc.Coder());
    }
    RunConcatInTable(StartCoder(props), body, tail);
    enc.rc.FlushData();
    output := enc.rc.out;
  }
}
