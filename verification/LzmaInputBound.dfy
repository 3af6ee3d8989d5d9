/** No symbol needs more than LZMA_REQUIRED_INPUT_MAX bytes: range times the weight of the
    bytes ahead bounds how many more bits can be read. */
module LzmaInputBound {
  import opened Arith
  import opened Bytes
  import opened RangeCoder
  import opened LzmaModel
  import opened LzmaTokens
  import opened LzmaStream
  import opened LzmaLookahead

  const REQUIRED_INPUT_MAX := 20

  // A modelled bit keeps at least 31 * 8191 / 2^24 of the range, a direct bit almost half.
  const PROB_SHARE := 16777216.0 / 253921.0
  const HALF_SHARE := 33554432.0 / 16777215.0

  /** What range times 256^(bytes ahead) must be for k modelled and h direct bits and the
      last normalisation. */
  function Need(k: nat, h: nat): (r: real)
    ensures r >= 16777216.0
    decreases k + h
  {
    if k > 0 then PROB_SHARE * Need(k - 1, h)
    else if h > 0 then HALF_SHARE * Need(0, h - 1)
    else 16777216.0
  }

  function Weight(input: seq<byte>, rd: Reader): nat
    requires rd.pos <= |input|
  {
    rd.range * Pow256(|input| - rd.pos)
  }

  ghost predicate Roomy(input: seq<byte>, d: Dec, k: nat, h: nat) {
    GoodProbs(d.probs) && 0x10000 <= d.rd.range < WORD && d.rd.pos <= |input| && Weight(input, d.rd) as real >= Need(k, h)
  }

  lemma {:induction false} NeedDirect(k: nat, h: nat)
    requires h > 0
    ensures Need(k, h) == HALF_SHARE * Need(k, h - 1)
  {
    if k > 0 {
      NeedDirect(k - 1, h);
    }
  }

  lemma {:induction false} NeedLess(k: nat, h: nat, k': nat, h': nat)
    requires k' <= k && h' <= h
    ensures Need(k', h') <= Need(k, h)
    decreases k - k' + h - h'
  {
    if k' < k {
      NeedLess(k - 1, h, k', h');
      Grows(Need(k - 1, h), PROB_SHARE);
    } else if h' < h {
      NeedDirect(k, h);
      NeedLess(k, h - 1, k', h');
      Grows(Need(k, h - 1), HALF_SHARE);
    }
  }

  lemma Grows(x: real, share: real)
    requires x >= 0.0 && share >= 1.0
    ensures share * x >= x
  {
  }

  lemma Fewer(input: seq<byte>, d: Dec, k: nat, h: nat, k': nat, h': nat)
    requires Roomy(input, d, k, h) && k' <= k && h' <= h
    ensures Roomy(input, d, k', h')
  {
    NeedLess(k, h, k', h');
  }

  lemma NormalizeRoomy(input: seq<byte>, d: Dec, k: nat, h: nat)
    requires Roomy(input, d, k, h)
    ensures Normalize(input, d.rd).Some?
    ensures var rd := Normalize(input, d.rd).value; rd.range >= TOP && Roomy(input, d.(rd := rd), k, h)
  {
    var n := |input| - d.rd.pos;
    if d.rd.range < TOP {
      assert n > 0 by { NoBytesLeft(d.rd.range, n); }
      ShiftWeight(d.rd.range, n);
      assert Weight(input, Normalize(input, d.rd).value) == Weight(input, d.rd);
    }
  }

  lemma NoBytesLeft(range: nat, n: nat)
    ensures n == 0 ==> range * Pow256(n) == range
  {
  }

  lemma ShiftWeight(range: nat, n: nat)
    requires n > 0
    ensures range * Pow256(n) == (range * 256) * Pow256(n - 1)
  {
    assert Pow256(n) == 256 * Pow256(n - 1);
  }

  lemma WeightShare(range: nat, part: nat, unit: nat, need: real)
    requires part * 16777216 >= range * 253921
    requires (range * unit) as real >= PROB_SHARE * need
    ensures (part * unit) as real >= need
  {
    MulStep(range * 253921, part * 16777216, unit);
    assert range * 253921 * unit == 253921 * (range * unit);
    assert part * 16777216 * unit == 16777216 * (part * unit);
    assert 16777216.0 * (part * unit) as real >= 253921.0 * (range * unit) as real;
  }

  lemma WeightHalf(range: nat, unit: nat, need: real)
    requires range >= TOP
    requires (range * unit) as real >= HALF_SHARE * need
    ensures (range / 2 * unit) as real >= need
  {
    var half := range / 2;
    assert half * 33554432 >= range * 16777215;
    MulStep(range * 16777215, half * 33554432, unit);
    assert range * 16777215 * unit == 16777215 * (range * unit);
    assert half * 33554432 * unit == 33554432 * (half * unit);
    assert 33554432.0 * (half * unit) as real >= 16777215.0 * (range * unit) as real;
  }

  lemma BoundShare(range: nat, p: nat)
    requires TOP <= range < WORD && GoodProb(p)
    ensures Bound(range, p) <= range
    ensures Bound(range, p) * 16777216 >= range * 253921
    ensures (range - Bound(range, p)) * 16777216 >= range * 253921
  {
    var q := range / BIT_MODEL_TOTAL;
    MulStep(31, p, q);
    MulStep(p, 2017, q);
    ShareOf(range, q, p * q);
    assert Bound(range, p) == p * q;
  }

  lemma ShareOf(range: nat, q: nat, bound: nat)
    requires range >= TOP && 2048 * q <= range <= 2048 * q + 2047 && 31 * q <= bound <= 2017 * q
    ensures bound <= range && bound * 16777216 >= range * 253921 && (range - bound) * 16777216 >= range * 253921
  {
  }

  lemma BitRoomy(input: seq<byte>, d: Dec, a: nat, k: nat, h: nat)
    requires Roomy(input, d, k + 1, h) && a < |d.probs|
    ensures ReadModelled(input, d, a).Some?
    ensures var e := ReadModelled(input, d, a).value.1; Roomy(input, e, k, h) && |e.probs| == |d.probs|
  {
    NormalizeRoomy(input, d, k + 1, h);
    var n := Normalize(input, d.rd).value;
    var p := d.probs[a];
    BoundShare(n.range, p);
    BoundIsProper(n.range, p);
    var unit := Pow256(|input| - n.pos);
    var bound := Bound(n.range, p);
    WeightShare(n.range, bound, unit, Need(k, h));
    WeightShare(n.range, n.range - bound, unit, Need(k, h));
  }

  lemma HalfRoomy(input: seq<byte>, d: Dec, k: nat, h: nat)
    requires Roomy(input, d, k, h + 1)
    ensures ReadHalf(input, d).Some?
    ensures var e := ReadHalf(input, d).value.1; Roomy(input, e, k, h) && e.probs == d.probs
  {
    NormalizeRoomy(input, d, k, h + 1);
    NeedDirect(k, h + 1);
    var n := Normalize(input, d.rd).value;
    WeightHalf(n.range, Pow256(|input| - n.pos), Need(k, h));
  }

  // ---------- Bits of each part of a symbol ----------

  lemma {:induction false} TreeRoomy(input: seq<byte>, d: Dec, base: nat, m: nat, n: nat, k: nat, h: nat)
    requires Roomy(input, d, n + k, h) && (n > 0 ==> base + (m + 1) * Pow2(n - 1) <= |d.probs|)
    ensures TreeRead(input, d, base, m, n).Some?
    ensures var e := TreeRead(input, d, base, m, n).value.1; Roomy(input, e, k, h) && |e.probs| == |d.probs|
    decreases n
  {
    hide Roomy, ReadModelled;
    if n > 0 {
      ChildBelow(base, m, n, false, |d.probs|);
      BitRoomy(input, d, base + m, n - 1 + k, h);
      var (bit, e) := ReadModelled(input, d, base + m).value;
      ChildBelow(base, m, n, bit, |d.probs|);
      TreeRoomy(input, e, base, Child(m, bit), n - 1, k, h);
    }
  }

  lemma {:induction false} ReverseRoomy(input: seq<byte>, d: Dec, base: nat, m: nat, n: nat, weight: nat, acc: nat, k: nat, h: nat)
    requires Roomy(input, d, n + k, h) && (n > 0 ==> base + (m + 1) * Pow2(n - 1) <= |d.probs|)
    ensures ReverseRead(input, d, base, m, n, weight, acc).Some?
    ensures var e := ReverseRead(input, d, base, m, n, weight, acc).value.1; Roomy(input, e, k, h) && |e.probs| == |d.probs|
    decreases n
  {
    hide Roomy, ReadModelled;
    if n > 0 {
      ChildBelow(base, m, n, false, |d.probs|);
      BitRoomy(input, d, base + m, n - 1 + k, h);
      var (bit, e) := ReadModelled(input, d, base + m).value;
      ChildBelow(base, m, n, bit, |d.probs|);
      ReverseRoomy(input, e, base, Child(m, bit), n - 1, 2 * weight, if bit then acc + weight else acc, k, h);
    }
  }

  lemma {:induction false} DirectRoomy(input: seq<byte>, d: Dec, n: nat, acc: nat, k: nat, h: nat)
    requires Roomy(input, d, k, n + h)
    ensures DirectRead(input, d, n, acc).Some?
    ensures var e := DirectRead(input, d, n, acc).value.1; Roomy(input, e, k, h) && e.probs == d.probs
    decreases n
  {
    hide Roomy, ReadHalf;
    if n > 0 {
      HalfRoomy(input, d, k, n - 1 + h);
      var (bit, e) := ReadHalf(input, d).value;
      DirectRoomy(input, e, n - 1, Child(acc, bit), k, h);
    }
  }

  lemma {:induction false} MatchedRoomy(input: seq<byte>, d: Dec, base: nat, m: nat, n: nat, matchByte: nat, same: bool, k: nat, h: nat)
    requires Roomy(input, d, n + k, h) && (n > 0 ==> base + 0x200 + (m + 1) * Pow2(n - 1) <= |d.probs|)
    ensures MatchedRead(input, d, base, m, n, matchByte, same).Some?
    ensures var e := MatchedRead(input, d, base, m, n, matchByte, same).value.1; Roomy(input, e, k, h) && |e.probs| == |d.probs|
    decreases n
  {
    hide Roomy, ReadModelled;
    if n > 0 {
      var matchBit := BitOf(matchByte, n - 1);
      var a := MatchedAddress(base, m, matchBit, same);
      ChildBelow(base + 0x200, m, n, false, |d.probs|);
      BitRoomy(input, d, a, n - 1 + k, h);
      var (bit, e) := ReadModelled(input, d, a).value;
      ChildBelow(base + 0x200, m, n, bit, |d.probs|);
      MatchedRoomy(input, e, base, Child(m, bit), n - 1, matchByte, same && bit == matchBit, k, h);
    }
  }

  lemma LenRoomy(input: seq<byte>, d: Dec, base: nat, posState: nat, k: nat, h: nat)
    requires posState < 16 && base + 514 <= |d.probs| && Roomy(input, d, 10 + k, h)
    ensures LenRead(input, d, base, posState).Some?
    ensures var e := LenRead(input, d, base, posState).value.1; Roomy(input, e, k, h) && |e.probs| == |d.probs|
  {
    hide Roomy, ReadModelled, TreeRead;
    Powers();
    BitRoomy(input, d, base + LEN_CHOICE, 9 + k, h);
    var (choice, e) := ReadModelled(input, d, base + LEN_CHOICE).value;
    if !choice {
      Fewer(input, e, 9 + k, h, 3 + k, h);
      TreeRoomy(input, e, base + LEN_LOW + posState * 8, 1, 3, k, h);
    } else {
      BitRoomy(input, e, base + LEN_CHOICE2, 8 + k, h);
      var (choice2, f) := ReadModelled(input, e, base + LEN_CHOICE2).value;
      if !choice2 {
        Fewer(input, f, 8 + k, h, 3 + k, h);
        TreeRoomy(input, f, base + LEN_MID + posState * 8, 1, 3, k, h);
      } else {
        TreeRoomy(input, f, base + LEN_HIGH, 1, 8, k, h);
      }
    }
  }

  /** The footer: at most five tree bits, or twenty-six direct bits and four. */
  lemma FooterRoomy(input: seq<byte>, d: Dec, slot: nat)
    requires slot < 64 && LITERAL <= |d.probs| && Roomy(input, d, 4, 26) && Roomy(input, d, 5, 0)
    ensures FooterRead(input, d, slot).Some? && Roomy(input, FooterRead(input, d, slot).value.1, 0, 0)
    ensures |FooterRead(input, d, slot).value.1.probs| == |d.probs|
  {
    hide Roomy, ReverseRead, DirectRead;
    Powers();
    if slot < START_POS_MODEL {
      Fewer(input, d, 5, 0, 0, 0);
    } else if slot < END_POS_MODEL {
      SpecTop(slot);
      Fewer(input, d, 5, 0, FooterBits(slot), 0);
      ReverseRoomy(input, d, SPEC_POS + SlotBase(slot) - slot - 1, 1, FooterBits(slot), 1, SlotBase(slot), 0, 0);
    } else {
      var n, top := FooterBits(slot) - 4, 2 + slot % 2;
      Fewer(input, d, 4, 26, 4, n);
      DirectRoomy(input, d, n, top, 4, 0);
      var (high, e) := DirectRead(input, d, n, top).value;
      ReverseRoomy(input, e, ALIGN, 1, 4, 1, high * 16, 0, 0);
    }
  }

  lemma DistanceRoomy(input: seq<byte>, d: Dec, lenSymbol: nat)
    requires LITERAL <= |d.probs| && Roomy(input, d, 10, 26)
    ensures DistanceRead(input, d, lenSymbol).Some? && Roomy(input, DistanceRead(input, d, lenSymbol).value.1, 0, 0)
    ensures |DistanceRead(input, d, lenSymbol).value.1.probs| == |d.probs|
  {
    hide Roomy, TreeRead, FooterRead;
    Powers();
    TreeRoomy(input, d, SlotTree(lenSymbol), 1, 6, 4, 26);
    var (v, e) := TreeRead(input, d, SlotTree(lenSymbol), 1, 6).value;
    MoreDirect(input, e);
    FooterRoomy(input, e, v - 64);
  }

  lemma MoreDirect(input: seq<byte>, d: Dec)
    requires Roomy(input, d, 4, 26)
    ensures Roomy(input, d, 5, 0)
  {
    assert Need(5, 0) <= Need(4, 26);
  }

  lemma LiteralRoomy(input: seq<byte>, d: Dec, c: Context)
    requires ValidContext(c, |d.probs|) && Roomy(input, d, 8, 0)
    ensures LiteralRead(input, d, c).Some? && Roomy(input, LiteralRead(input, d, c).value.1, 0, 0)
    ensures |LiteralRead(input, d, c).value.1.probs| == |d.probs|
  {
    hide Roomy, TreeRead, MatchedRead;
    Powers();
    if c.state < NUM_LIT_STATES {
      TreeRoomy(input, d, c.lit, 1, 8, 0, 0);
    } else {
      MatchedRoomy(input, d, c.lit, 1, 8, c.matchByte, true, 0, 0);
    }
  }

  lemma RepRoomy(input: seq<byte>, d: Dec, c: Context)
    requires ValidContext(c, |d.probs|) && Roomy(input, d, 14, 0)
    ensures RepRead(input, d, c).Some? && Roomy(input, RepRead(input, d, c).value.1, 0, 0)
    ensures |RepRead(input, d, c).value.1.probs| == |d.probs|
  {
    hide Roomy, ReadModelled, LenRead, RepIndexRead;
    RepIndexRoomy(input, d, c, 11, 0);
    var (index, e) := RepIndexRead(input, d, c).value;
    var f := e;
    if index == 0 {
      BitRoomy(input, e, Rep0Long(c, true).a, 10, 0);
      f := ReadModelled(input, e, Rep0Long(c, true).a).value.1;
      if !ReadModelled(input, e, Rep0Long(c, true).a).value.0 {
        Fewer(input, f, 10, 0, 0, 0);
      }
    } else {
      Fewer(input, e, 11, 0, 10, 0);
    }
    LenRoomy(input, f, REP_LEN_CODER, c.posState, 0, 0);
  }

  lemma RepIndexRoomy(input: seq<byte>, d: Dec, c: Context, k: nat, h: nat)
    requires ValidContext(c, |d.probs|) && Roomy(input, d, 3 + k, h)
    ensures RepIndexRead(input, d, c).Some?
    ensures var e := RepIndexRead(input, d, c).value.1; Roomy(input, e, k, h) && |e.probs| == |d.probs|
  {
    hide Roomy, ReadModelled;
    var a0, a1, a2 := IS_REP_G0 + c.state, IS_REP_G1 + c.state, IS_REP_G2 + c.state;
    BitRoomy(input, d, a0, 2 + k, h);
    var (g0, e) := ReadModelled(input, d, a0).value;
    if !g0 {
      Fewer(input, e, 2 + k, h, k, h);
    } else {
      BitRoomy(input, e, a1, 1 + k, h);
      var (g1, f) := ReadModelled(input, e, a1).value;
      if !g1 {
        Fewer(input, f, 1 + k, h, k, h);
      } else {
        BitRoomy(input, f, a2, k, h);
      }
    }
  }

  lemma TokenRoomy(input: seq<byte>, d: Dec, c: Context)
    requires ValidContext(c, |d.probs|) && Roomy(input, d, 22, 26)
    ensures TokenRead(input, d, c).Some? && Roomy(input, TokenRead(input, d, c).value.1, 0, 0)
    ensures |TokenRead(input, d, c).value.1.probs| == |d.probs|
  {
    hide Roomy, ReadModelled, LiteralRead, RepRead, LenRead, DistanceRead;
    var a, r := IsMatch(c, true).a, IsRep(c, true).a;
    BitRoomy(input, d, a, 21, 26);
    var (isMatch, e) := ReadModelled(input, d, a).value;
    if !isMatch {
      Fewer(input, e, 21, 26, 8, 0);
      LiteralRoomy(input, e, c);
    } else {
      BitRoomy(input, e, r, 20, 26);
      var (isRep, f) := ReadModelled(input, e, r).value;
      if isRep {
        Fewer(input, f, 20, 26, 14, 0);
        RepRoomy(input, f, c);
      } else {
        LenRoomy(input, f, LEN_CODER, c.posState, 10, 26);
        var (len, g) := LenRead(input, f, LEN_CODER, c.posState).value;
        DistanceRoomy(input, g, len);
      }
    }
  }

  lemma FourBits(k: nat, h: nat)
    ensures Need(k + 4, h) <= 19060000.0 * Need(k, h)
  {
    assert Need(k + 1, h) == PROB_SHARE * Need(k, h);
    assert Need(k + 2, h) == PROB_SHARE * Need(k + 1, h);
    assert Need(k + 3, h) == PROB_SHARE * Need(k + 2, h);
    assert Need(k + 4, h) == PROB_SHARE * Need(k + 3, h);
  }

  lemma OneBit(k: nat, h: nat)
    ensures Need(k + 1, h) == PROB_SHARE * Need(k, h)
  {
  }

  lemma OneHalf()
    ensures Need(0, 0) == 16777216.0 && Need(0, 1) == HALF_SHARE * Need(0, 0)
  {
  }

  lemma FiveHalves(h: nat)
    ensures Need(0, h + 5) <= 32.0001 * Need(0, h)
  {
    assert Need(0, h + 1) == HALF_SHARE * Need(0, h);
    assert Need(0, h + 2) == HALF_SHARE * Need(0, h + 1);
    assert Need(0, h + 3) == HALF_SHARE * Need(0, h + 2);
    assert Need(0, h + 4) == HALF_SHARE * Need(0, h + 3);
    assert Need(0, h + 5) == HALF_SHARE * Need(0, h + 4);
  }

  const NEED_OF_ANY_SYMBOL := 12364132256000000000000000000000000000000000000000000000.0

  lemma NeedOfAnySymbol()
    ensures Need(22, 26) <= NEED_OF_ANY_SYMBOL
  {
    hide Need;
    OneBit(0, 26);
    OneBit(1, 26);
    OneHalf();
    assert Need(0, 1) <= 33554435.0;
    assert Need(0, 6) <= 1073745276.0 by { FiveHalves(1); }
    assert Need(0, 11) <= 34359956207.0 by { FiveHalves(6); }
    assert Need(0, 16) <= 1099522034620.0 by { FiveHalves(11); }
    assert Need(0, 21) <= 35184815060100.0 by { FiveHalves(16); }
    assert Need(0, 26) <= 1125917600410000.0 by { FiveHalves(21); }
    assert Need(1, 26) <= 74392282561500000.0;
    assert Need(2, 26) <= 4915290162170000000.0;
    assert Need(6, 26) <= 93685430491000000000000000.0 by { FourBits(2, 26); }
    assert Need(10, 26) <= 1785644305160000000000000000000000.0 by { FourBits(6, 26); }
    assert Need(14, 26) <= 34034380456400000000000000000000000000000.0 by { FourBits(10, 26); }
    assert Need(18, 26) <= 648695291499000000000000000000000000000000000000.0 by { FourBits(14, 26); }
    assert Need(22, 26) <= 12364132256000000000000000000000000000000000000000000000.0 by { FourBits(18, 26); }
  }

  lemma Pow256Of20()
    ensures Pow256(20) == 0x1_0000_0000_0000_0000_0000_0000_0000_0000_0000_0000
  {
    assert Pow256(3) == 0x1000000;
    assert Pow256(5) == 0x100_0000_0000;
    Pow256Sum(5, 5);
    Pow256Sum(10, 10);
  }

  lemma TwentyBytesSuffice()
    ensures 16777216.0 * Pow256(20) as real >= Need(22, 26)
  {
    hide Need, Pow256;
    NeedOfAnySymbol();
    Pow256Of20();
  }

  /** From a normalised decoder with good probabilities, 20 bytes are enough for any symbol and
      the normalisation after it, whatever the bytes are. */
  lemma RequiredInput(input: seq<byte>, d: Dec, c: Context)
    requires GoodProbs(d.probs) && ValidContext(c, |d.probs|)
    requires TOP <= d.rd.range < WORD && d.rd.pos + REQUIRED_INPUT_MAX <= |input|
    ensures SymbolRead(input, d, c).Some?
  {
    hide TokenRead, Need, Pow256;
    TwentyBytesSuffice();
    var n := |input| - d.rd.pos;
    Pow256Sum(20, n - 20);
    MulStep(1, Pow256(n - 20), Pow256(20));
    MulStep(TOP, d.rd.range, Pow256(n));
    TokenRoomy(input, d, c);
    NormalizeRoomy(input, TokenRead(input, d, c).value.1, 0, 0);
  }

  /** Reading a symbol keeps the range large enough and the probabilities good. */
  lemma TokenKeepsGood(input: seq<byte>, d: Dec, c: Context)
    requires GoodProbs(d.probs) && ValidContext(c, |d.probs|)
    requires 0x10000 <= d.rd.range < WORD && d.rd.pos <= |input| && TokenRead(input, d, c).Some?
    ensures var e := TokenRead(input, d, c).value.1;
            GoodProbs(e.probs) && |e.probs| == |d.probs| && 0x10000 <= e.rd.range < WORD &&
            e.rd.pos <= |input|
  {
    hide TokenRead, Need, Pow256;
    var longer := input + Repeated(0, 21);
    var n := |longer| - d.rd.pos;
    assert longer[d.rd.pos..|input|] == input[d.rd.pos..|input|];
    TwentyBytesSuffice();
    Pow256Sum(21, n - 21);
    Pow256Sum(1, 20);
    MulStep(1, Pow256(n - 21), Pow256(21));
    MulStep(0x10000, d.rd.range, Pow256(n));
    ByteWeight();
    TokenRoomy(longer, d, c);
    TokenAlike(input, d, longer, d, 0, |input|, true, c);
  }

  lemma ByteWeight()
    ensures Pow256(1) == 256
  {
    assert Pow256(0) == 1;
  }
}
