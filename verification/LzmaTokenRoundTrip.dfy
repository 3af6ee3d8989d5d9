/** Reading a token back from the stream its encoder went on to produce. */
module LzmaTokenRoundTrip {
  import opened Arith
  import opened Bytes
  import opened RangeCoder
  import opened LzmaModel
  import opened LzmaTokens

  lemma LenRoundTrip(input: seq<byte>, d: Dec, s: Enc, base: nat, posState: nat, symbol: nat, rest: seq<Event>)
    requires symbol < 272
    requires Lockstep(input, d, s) && Produces(s, LenEvents(base, posState, symbol) + rest, input)
    ensures LenRead(input, d, base, posState).Some?
    ensures var (v, d') := LenRead(input, d, base, posState).value;
            v == symbol && ReadPast(input, d', s, LenEvents(base, posState, symbol), rest)
  {
    hide AllInTable, GoodEnc, Lockstep, Contains, Run, TreeEvents, TreeRead, LongLenEvents, LongLenRead, ReadModelled;
    Powers();
    var choice := [Modelled(base + LEN_CHOICE, symbol >= 8)];
    if symbol < 8 {
      var tree := TreeEvents(base + LEN_LOW + posState * 8, 1, 3, symbol);
      assert choice + tree + rest == choice + (tree + rest);
      BitRoundTrip(input, d, s, base + LEN_CHOICE, false, tree + rest);
      var d1 := ReadModelled(input, d, base + LEN_CHOICE).value.1;
      TreeRoundTrip(input, d1, Run(s, choice), base + LEN_LOW + posState * 8, 1, 3, symbol, rest);
      var d2 := LenRead(input, d, base, posState).value.1;
      ReadJoin(input, d2, s, choice, tree, rest);
    } else {
      var tail := LongLenEvents(base, posState, symbol);
      assert choice + tail + rest == choice + (tail + rest);
      BitRoundTrip(input, d, s, base + LEN_CHOICE, true, tail + rest);
      var d1 := ReadModelled(input, d, base + LEN_CHOICE).value.1;
      LongLenRoundTrip(input, d1, Run(s, choice), base, posState, symbol, rest);
      var d2 := LenRead(input, d, base, posState).value.1;
      ReadJoin(input, d2, s, choice, tail, rest);
    }
  }

  lemma LongLenRoundTrip(input: seq<byte>, d: Dec, s: Enc, base: nat, posState: nat, symbol: nat, rest: seq<Event>)
    requires 8 <= symbol < 272
    requires Lockstep(input, d, s) && Produces(s, LongLenEvents(base, posState, symbol) + rest, input)
    ensures LongLenRead(input, d, base, posState).Some?
    ensures var (v, d') := LongLenRead(input, d, base, posState).value;
            v == symbol && ReadPast(input, d', s, LongLenEvents(base, posState, symbol), rest)
  {
    hide AllInTable, GoodEnc, Lockstep, Contains, Run, TreeEvents, TreeRead, ReadModelled;
    Powers();
    var choice2 := [Modelled(base + LEN_CHOICE2, symbol >= 16)];
    var tree := if symbol < 16 then TreeEvents(base + LEN_MID + posState * 8, 1, 3, symbol - 8)
                else TreeEvents(base + LEN_HIGH, 1, 8, symbol - 16);
    assert choice2 + tree + rest == choice2 + (tree + rest);
    BitRoundTrip(input, d, s, base + LEN_CHOICE2, symbol >= 16, tree + rest);
    var d1 := ReadModelled(input, d, base + LEN_CHOICE2).value.1;
    if symbol < 16 {
      TreeRoundTrip(input, d1, Run(s, choice2), base + LEN_MID + posState * 8, 1, 3, symbol - 8, rest);
    } else {
      TreeRoundTrip(input, d1, Run(s, choice2), base + LEN_HIGH, 1, 8, symbol - 16, rest);
    }
    var d2 := LongLenRead(input, d, base, posState).value.1;
    ReadJoin(input, d2, s, choice2, tree, rest);
  }

  /** A distance is put together again from its leading digits, direct bits and aligned bits. */
  lemma DistanceFromParts(distance: nat)
    requires PosSlot(distance) >= END_POS_MODEL
    ensures var slot := PosSlot(distance);
            var reduced := distance - SlotBase(slot);
            FooterBits(slot) >= 4 && 0 <= reduced < Pow2(FooterBits(slot)) &&
            reduced / 16 < Pow2(FooterBits(slot) - 4) &&
            ((2 + slot % 2) * Pow2(FooterBits(slot) - 4) + reduced / 16) * 16 + reduced % 16 == distance
  {
    assert distance >= 4;
    hide Pow2, PosSlot;
    PosSlotBrackets(distance);
    DistanceAtSlot(distance, PosSlot(distance));
  }

  lemma DistanceAtSlot(distance: nat, slot: nat)
    requires slot >= END_POS_MODEL && SlotBase(slot) <= distance < SlotBase(slot) + Pow2(FooterBits(slot))
    ensures var reduced := distance - SlotBase(slot);
            FooterBits(slot) >= 4 && reduced / 16 < Pow2(FooterBits(slot) - 4) &&
            ((2 + slot % 2) * Pow2(FooterBits(slot) - 4) + reduced / 16) * 16 + reduced % 16 == distance
  {
    hide Pow2;
    var h := Pow2(FooterBits(slot) - 4);
    Powers();
    Pow2Sum(4, FooterBits(slot) - 4);
    Rebuild(2 + slot % 2, h, distance - SlotBase(slot));
  }

  lemma Rebuild(top: nat, h: nat, reduced: nat)
    requires reduced < 16 * h
    ensures reduced / 16 < h
    ensures (top * h + reduced / 16) * 16 + reduced % 16 == top * (16 * h) + reduced
  {
    assert top * (16 * h) == 16 * (top * h);
  }

  lemma SmallDistance(distance: nat)
    ensures if distance < 4 then PosSlot(distance) == distance else PosSlot(distance) >= START_POS_MODEL
  {
    if distance >= 4 {
      PosSlotBrackets(distance);
    }
  }

  lemma FooterRoundTrip(input: seq<byte>, d: Dec, s: Enc, distance: nat, rest: seq<Event>)
    requires Lockstep(input, d, s) && Produces(s, FooterEvents(PosSlot(distance), distance) + rest, input)
    ensures FooterRead(input, d, PosSlot(distance)).Some?
    ensures var (v, d') := FooterRead(input, d, PosSlot(distance)).value;
            v == distance && ReadPast(input, d', s, FooterEvents(PosSlot(distance), distance), rest)
  {
    hide AllInTable, GoodEnc, Lockstep, Contains, Run, ReverseEvents, ReverseRead, AlignedEvents, AlignedRead, Pow2, PosSlot, SlotBase;
    var slot := PosSlot(distance);
    SmallDistance(distance);
    if slot < START_POS_MODEL {
      ReadNothing(input, d, s, rest);
    } else {
      PosSlotBrackets(distance);
      if slot < END_POS_MODEL {
        SpecBase(slot);
        var reduced := distance - SlotBase(slot);
        ReverseRoundTrip(input, d, s, SPEC_POS + SlotBase(slot) - slot - 1, 1, FooterBits(slot), reduced, 1, SlotBase(slot), rest);
        ModUnique(reduced, Pow2(FooterBits(slot)), 0, reduced);
      } else {
        DistanceFromParts(distance);
        AlignedRoundTrip(input, d, s, slot, distance - SlotBase(slot), rest);
      }
    }
  }

  lemma AlignedRoundTrip(input: seq<byte>, d: Dec, s: Enc, slot: nat, reduced: nat, rest: seq<Event>)
    requires slot >= END_POS_MODEL && reduced / 16 < Pow2(FooterBits(slot) - 4)
    requires Lockstep(input, d, s) && Produces(s, AlignedEvents(slot, reduced) + rest, input)
    ensures AlignedRead(input, d, slot).Some?
    ensures var (v, d') := AlignedRead(input, d, slot).value;
            v == ((2 + slot % 2) * Pow2(FooterBits(slot) - 4) + reduced / 16) * 16 + reduced % 16 &&
            ReadPast(input, d', s, AlignedEvents(slot, reduced), rest)
  {
    hide AllInTable, GoodEnc, Lockstep, Contains, Run, ReverseEvents, ReverseRead, DirectEvents, DirectRead;
    var n, top := FooterBits(slot) - 4, 2 + slot % 2;
    var direct, align := DirectEvents(reduced / 16, n), ReverseEvents(ALIGN, 1, 4, reduced % 16);
    assert direct + align + rest == direct + (align + rest);
    DirectRoundTrip(input, d, s, reduced / 16, n, top, align + rest);
    var (high, d1) := DirectRead(input, d, n, top).value;
    ModUnique(reduced / 16, Pow2(n), 0, reduced / 16);
    ReverseRoundTrip(input, d1, Run(s, direct), ALIGN, 1, 4, reduced % 16, 1, high * 16, rest);
    Powers();
    var d2 := ReverseRead(input, d1, ALIGN, 1, 4, 1, high * 16).value.1;
    ReadJoin(input, d2, s, direct, align, rest);
  }

  lemma DistanceRoundTrip(input: seq<byte>, d: Dec, s: Enc, lenSymbol: nat, distance: nat, rest: seq<Event>)
    requires distance < WORD
    requires Lockstep(input, d, s) && Produces(s, DistanceEvents(lenSymbol, distance) + rest, input)
    ensures DistanceRead(input, d, lenSymbol).Some?
    ensures var (v, d') := DistanceRead(input, d, lenSymbol).value;
            v == distance && ReadPast(input, d', s, DistanceEvents(lenSymbol, distance), rest)
  {
    hide AllInTable, GoodEnc, Lockstep, Contains, Run, TreeEvents, TreeRead, FooterEvents, FooterRead, PosSlot;
    var slot := PosSlot(distance);
    SlotFits(distance);
    Powers();
    var tree, footer := TreeEvents(SlotTree(lenSymbol), 1, 6, slot), FooterEvents(slot, distance);
    assert tree + footer + rest == tree + (footer + rest);
    TreeRoundTrip(input, d, s, SlotTree(lenSymbol), 1, 6, slot, footer + rest);
    var d1 := TreeRead(input, d, SlotTree(lenSymbol), 1, 6).value.1;
    FooterRoundTrip(input, d1, Run(s, tree), distance, rest);
    var d2 := FooterRead(input, d1, slot).value.1;
    ReadJoin(input, d2, s, tree, footer, rest);
  }

  lemma SlotFits(distance: nat)
    requires distance < WORD
    ensures PosSlot(distance) < 64
  {
    Powers();
    Pow2Sum(8, 8);
    Pow2Sum(16, 16);
    PosSlotBound(distance, 32);
  }

  lemma LiteralRoundTrip(input: seq<byte>, d: Dec, s: Enc, c: Context, b: byte, rest: seq<Event>)
    requires Lockstep(input, d, s) && Produces(s, LiteralEvents(c, b) + rest, input)
    ensures LiteralRead(input, d, c).Some?
    ensures var (t, d') := LiteralRead(input, d, c).value;
            t == Literal(b) && ReadPast(input, d', s, LiteralEvents(c, b), rest)
  {
    hide Lockstep, Produces, ReadPast, TreeEvents, TreeRead, MatchedEvents, MatchedRead, Pow2;
    Powers();
    if c.state < NUM_LIT_STATES {
      TreeRoundTrip(input, d, s, c.lit, 1, 8, b, rest);
    } else {
      MatchedRoundTrip(input, d, s, c.lit, 1, 8, b, c.matchByte, true, rest);
    }
  }

  lemma RepIndexRoundTrip(input: seq<byte>, d: Dec, s: Enc, c: Context, index: nat, rest: seq<Event>)
    requires index < 4
    requires Lockstep(input, d, s) && Produces(s, RepChoice(c, index) + rest, input)
    ensures RepIndexRead(input, d, c).Some?
    ensures var (i, d') := RepIndexRead(input, d, c).value;
            i == index && ReadPast(input, d', s, RepChoice(c, index), rest)
  {
    hide AllInTable, GoodEnc, Lockstep, Contains, Run, TreeEvents, TreeRead, ReadModelled;
    var a0, a1, a2 := IS_REP_G0 + c.state, IS_REP_G1 + c.state, IS_REP_G2 + c.state;
    var e0, e1, e2 := [Modelled(a0, index > 0)], [Modelled(a1, index > 1)], [Modelled(a2, index > 2)];
    if index == 0 {
      BitRoundTrip(input, d, s, a0, false, rest);
    } else {
      var tail := if index == 1 then e1 else e1 + e2;
      assert RepChoice(c, index) == e0 + tail;
      assert RepChoice(c, index) + rest == e0 + (tail + rest);
      BitRoundTrip(input, d, s, a0, true, tail + rest);
      var d1 := ReadModelled(input, d, a0).value.1;
      var s1 := Run(s, e0);
      if index == 1 {
        BitRoundTrip(input, d1, s1, a1, false, rest);
        ReadJoin(input, ReadModelled(input, d1, a1).value.1, s, e0, tail, rest);
      } else {
        assert tail + rest == e1 + (e2 + rest);
        BitRoundTrip(input, d1, s1, a1, true, e2 + rest);
        var d2 := ReadModelled(input, d1, a1).value.1;
        BitRoundTrip(input, d2, Run(s1, e1), a2, index > 2, rest);
        var d3 := ReadModelled(input, d2, a2).value.1;
        ReadJoin(input, d3, s1, e1, e2, rest);
        ReadJoin(input, d3, s, e0, tail, rest);
      }
    }
  }

  lemma RepTokenRoundTrip(input: seq<byte>, d: Dec, s: Enc, c: Context, t: Token, rest: seq<Event>)
    requires ValidToken(t) && (t.Rep? || t.ShortRep?)
    requires Lockstep(input, d, s) && Produces(s, RepTail(c, t) + rest, input)
    ensures RepRead(input, d, c).Some?
    ensures var (u, d') := RepRead(input, d, c).value;
            u == t && ReadPast(input, d', s, RepTail(c, t), rest)
  {
    hide AllInTable, GoodEnc, Lockstep, Contains, Run, TreeEvents, TreeRead, ReadModelled, LenEvents, LenRead, RepIndexRead, RepChoice;
    var index := if t.Rep? then t.index else 0;
    var choice := RepChoice(c, index);
    var long := if index == 0 then [Rep0Long(c, t.Rep?)] else [];
    var len := if t.Rep? then LenEvents(REP_LEN_CODER, c.posState, t.len - 2) else [];
    assert RepTail(c, t) == choice + (long + len);
    assert RepTail(c, t) + rest == choice + (long + len + rest);
    RepIndexRoundTrip(input, d, s, c, index, long + len + rest);
    var d1 := RepIndexRead(input, d, c).value.1;
    var s1 := Run(s, choice);
    assert long + len + rest == long + (len + rest);
    if index == 0 {
      BitRoundTrip(input, d1, s1, Rep0Long(c, true).a, t.Rep?, len + rest);
    } else {
      ReadNothing(input, d1, s1, len + rest);
    }
    var d2 := if index == 0 then ReadModelled(input, d1, Rep0Long(c, true).a).value.1 else d1;
    var s2 := Run(s1, long);
    if t.Rep? {
      LenRoundTrip(input, d2, s2, REP_LEN_CODER, c.posState, t.len - 2, rest);
    } else {
      ReadNothing(input, d2, s2, rest);
    }
    var d3 := RepRead(input, d, c).value.1;
    ReadJoin(input, d3, s1, long, len, rest);
    ReadJoin(input, d3, s, choice, long + len, rest);
  }

  lemma MatchTokenRoundTrip(input: seq<byte>, d: Dec, s: Enc, c: Context, t: Token, rest: seq<Event>)
    requires ValidToken(t) && t.Match?
    requires Lockstep(input, d, s) && Produces(s, MatchTail(c, t) + rest, input)
    ensures MatchRead(input, d, c).Some?
    ensures var (u, d') := MatchRead(input, d, c).value;
            u == t && ReadPast(input, d', s, MatchTail(c, t), rest)
  {
    hide AllInTable, GoodEnc, Lockstep, Contains, Run, TreeEvents, TreeRead, LenEvents, LenRead, DistanceEvents, DistanceRead;
    var len, dist := LenEvents(LEN_CODER, c.posState, t.len - 2), DistanceEvents(t.len - 2, t.distance);
    assert len + dist + rest == len + (dist + rest);
    LenRoundTrip(input, d, s, LEN_CODER, c.posState, t.len - 2, dist + rest);
    var d1 := LenRead(input, d, LEN_CODER, c.posState).value.1;
    DistanceRoundTrip(input, d1, Run(s, len), t.len - 2, t.distance, rest);
    var d2 := DistanceRead(input, d1, t.len - 2).value.1;
    ReadJoin(input, d2, s, len, dist, rest);
  }

  /** Reading a token inverts writing it, for every token, context and continuation. */
  lemma TokenRoundTrip(input: seq<byte>, d: Dec, s: Enc, c: Context, t: Token, rest: seq<Event>)
    requires ValidToken(t)
    requires Lockstep(input, d, s) && Produces(s, TokenEvents(c, t) + rest, input)
    ensures TokenRead(input, d, c).Some?
    ensures var (u, d') := TokenRead(input, d, c).value;
            u == t && ReadPast(input, d', s, TokenEvents(c, t), rest)
  {
    hide AllInTable, GoodEnc, Lockstep, Contains, Run, TreeEvents, TreeRead, ReadModelled, LiteralEvents, LiteralRead, NonLiteralRead, RepTail, MatchTail;
    var isMatch, tail := [IsMatch(c, !t.Literal?)], TokenTail(c, t);
    assert TokenEvents(c, t) == isMatch + tail;
    assert TokenEvents(c, t) + rest == isMatch + (tail + rest);
    BitRoundTrip(input, d, s, IsMatch(c, true).a, !t.Literal?, tail + rest);
    var d1 := ReadModelled(input, d, IsMatch(c, true).a).value.1;
    var s1 := Run(s, isMatch);
    if t.Literal? {
      LiteralRoundTrip(input, d1, s1, c, t.b, rest);
    } else {
      TailRoundTrip(input, d1, s1, c, t, rest);
    }
    var d2 := TokenRead(input, d, c).value.1;
    ReadJoin(input, d2, s, isMatch, tail, rest);
  }

  lemma TailRoundTrip(input: seq<byte>, d: Dec, s: Enc, c: Context, t: Token, rest: seq<Event>)
    requires ValidToken(t) && !t.Literal?
    requires Lockstep(input, d, s) && Produces(s, TokenTail(c, t) + rest, input)
    ensures NonLiteralRead(input, d, c).Some?
    ensures var (u, d') := NonLiteralRead(input, d, c).value;
            u == t && ReadPast(input, d', s, TokenTail(c, t), rest)
  {
    hide AllInTable, GoodEnc, Lockstep, Contains, Run, TreeEvents, TreeRead, ReadModelled, RepTail, MatchTail, RepRead, MatchRead;
    var isRep, tail := [IsRep(c, !t.Match?)], if t.Match? then MatchTail(c, t) else RepTail(c, t);
    assert TokenTail(c, t) == isRep + tail;
    assert TokenTail(c, t) + rest == isRep + (tail + rest);
    BitRoundTrip(input, d, s, IsRep(c, true).a, !t.Match?, tail + rest);
    var d1 := ReadModelled(input, d, IsRep(c, true).a).value.1;
    var s1 := Run(s, isRep);
    if t.Match? {
      MatchTokenRoundTrip(input, d1, s1, c, t, rest);
    } else {
      RepTokenRoundTrip(input, d1, s1, c, t, rest);
    }
    var d2 := NonLiteralRead(input, d, c).value.1;
    ReadJoin(input, d2, s, isRep, tail, rest);
  }
}
