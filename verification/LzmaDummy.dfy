/** The parts of LzmaDec_TryDummy: each takes the bits of a symbol without keeping anything
    but the reader, and says whether the input holds them all. */
module LzmaDummy {
  import opened Arith
  import opened Bytes
  import opened RangeCoder
  import opened LzmaModel
  import opened LzmaTokens
  import opened LzmaLookahead

  datatype Dummy = DummyError | DummyLit | DummyMatch | DummyRep

  /** A decoder that only looks. */
  ghost function Look(rd: Reader, probs: seq<nat>): Dec {
    Dec(rd, probs, false)
  }

  method CheckNormalize(input: seq<byte>, rd: Reader) returns (ok: bool, r: Reader)
    ensures Normalize(input, rd) == if ok then Some(r) else None
  {
    ok, r := true, rd;
    if rd.range < TOP {
      if rd.pos >= |input| {
        return false, r;
      }
      r := Reader(rd.range * 256, (rd.code * 256 + input[rd.pos]) % WORD, rd.pos + 1);
    }
  }

  method CheckBit(input: seq<byte>, probs: array<nat>, rd: Reader, a: nat) returns (ok: bool, bit: bool, r: Reader)
    requires a < probs.Length && GoodProbs(probs[..])
    ensures ReadModelled(input, Look(rd, probs[..]), a) == if ok then Some((bit, Look(r, probs[..]))) else None
  {
    bit := false;
    ok, r := CheckNormalize(input, rd);
    if ok {
      var bound := r.range / BIT_MODEL_TOTAL * probs[a];
      assert bound <= r.range by {
        assert GoodProb(probs[..][a]);
        ShareOfRange(r.range, probs[a]);
      }
      if r.code < bound {
        r := r.(range := bound);
      } else {
        bit := true;
        r := r.(range := r.range - bound, code := r.code - bound);
      }
    }
  }

  lemma ShareOfRange(range: nat, p: nat)
    requires p <= BIT_MODEL_TOTAL
    ensures range / BIT_MODEL_TOTAL * p <= range
  {
    MulStep(p, BIT_MODEL_TOTAL, range / BIT_MODEL_TOTAL);
  }

  method CheckTree(input: seq<byte>, probs: array<nat>, rd: Reader, base: nat, n: nat) returns (ok: bool, m: nat, r: Reader)
    requires n > 0 && base + Pow2(n) <= probs.Length && GoodProbs(probs[..])
    ensures TreeRead(input, Look(rd, probs[..]), base, 1, n) == if ok then Some((m, Look(r, probs[..]))) else None
  {
    hide ReadModelled;
    var limit := Pow2(n);
    ok, m, r := true, 1, rd;
    ghost var left := n;
    while m < limit
      invariant ok && 0 <= left <= n && Pow2(n - left) <= m < Pow2(n - left + 1)
      invariant TreeRead(input, Look(r, probs[..]), base, m, left) == TreeRead(input, Look(rd, probs[..]), base, 1, n)
      decreases left
    {
      assert left > 0;
      var bit;
      ok, bit, r := CheckBit(input, probs, r, base + m);
      if !ok {
        return;
      }
      m := m + m + (if bit then 1 else 0);
      left := left - 1;
    }
    Pow2Order(n - left + 1, n);
  }

  method CheckReverse(input: seq<byte>, probs: array<nat>, rd: Reader, base: nat, n: nat, ghost weight: nat, ghost acc: nat)
    returns (ok: bool, r: Reader)
    requires n > 0 && base + Pow2(n) <= probs.Length && GoodProbs(probs[..])
    ensures ok <==> ReverseRead(input, Look(rd, probs[..]), base, 1, n, weight, acc).Some?
    ensures ok ==> ReverseRead(input, Look(rd, probs[..]), base, 1, n, weight, acc).value.1 == Look(r, probs[..])
  {
    hide ReadModelled;
    ok, r := true, rd;
    var i, numBits: nat := 1, n;
    ghost var w, sum := weight, acc;
    while numBits != 0
      invariant ok && numBits <= n && Pow2(n - numBits) <= i < Pow2(n - numBits + 1)
      invariant ReverseRead(input, Look(r, probs[..]), base, i, numBits, w, sum) ==
                ReverseRead(input, Look(rd, probs[..]), base, 1, n, weight, acc)
    {
      Pow2Grows(n - numBits + 1, n);
      var bit;
      ok, bit, r := CheckBit(input, probs, r, base + i);
      if !ok {
        return;
      }
      i := i + i + (if bit then 1 else 0);
      sum := if bit then sum + w else sum;
      w := 2 * w;
      numBits := numBits - 1;
    }
  }

  /** A direct bit: code -= range & (((code - range) >> 31) - 1). */
  method CheckHalf(input: seq<byte>, ghost probs: seq<nat>, rd: Reader) returns (ok: bool, ghost bit: bool, r: Reader)
    ensures ReadHalf(input, Look(rd, probs)) == if ok then Some((bit, Look(r, probs))) else None
  {
    bit := false;
    ok, r := CheckNormalize(input, rd);
    if ok {
      var half := r.range / 2;
      var diff := (r.code - half) % WORD;
      var low := diff >= WORD / 2;
      bit := !low;
      r := r.(range := half, code := if low then (diff + half) % WORD else diff);
    }
  }

  method CheckDirect(input: seq<byte>, ghost probs: seq<nat>, rd: Reader, n: nat, ghost acc: nat) returns (ok: bool, r: Reader)
    requires n > 0
    ensures ok <==> DirectRead(input, Look(rd, probs), n, acc).Some?
    ensures ok ==> DirectRead(input, Look(rd, probs), n, acc).value.1 == Look(r, probs)
  {
    hide ReadHalf;
    ok, r := true, rd;
    var numDirectBits: nat := n;
    ghost var sum := acc;
    while numDirectBits != 0
      invariant ok
      invariant DirectRead(input, Look(r, probs), numDirectBits, sum) == DirectRead(input, Look(rd, probs), n, acc)
    {
      ghost var bit;
      ok, bit, r := CheckHalf(input, probs, r);
      if !ok {
        return;
      }
      sum := Child(sum, bit);
      numDirectBits := numDirectBits - 1;
    }
  }

  method CheckMatched(input: seq<byte>, probs: array<nat>, rd: Reader, base: nat, match0: byte) returns (ok: bool, symbol: nat, r: Reader)
    requires base + 0x300 <= probs.Length && GoodProbs(probs[..])
    ensures MatchedRead(input, Look(rd, probs[..]), base, 1, 8, match0, true) == if ok then Some((symbol, Look(r, probs[..]))) else None
  {
    hide ReadModelled;
    Powers();
    ok, symbol, r := true, 1, rd;
    var matchByte: nat, offs := match0, 0x100;
    ghost var i := 0;
    while symbol < 0x100
      invariant ok && i <= 8 && matchByte == match0 * Pow2(i) && (offs == 0x100 || offs == 0)
      invariant Pow2(i) <= symbol < Pow2(i + 1)
      invariant MatchedRead(input, Look(r, probs[..]), base, symbol, 8 - i, match0, offs == 0x100) ==
                MatchedRead(input, Look(rd, probs[..]), base, 1, 8, match0, true)
      decreases 8 - i
    {
      ShiftedMatch(match0, i);
      Pow2Grows(i + 1, 8);
      matchByte := matchByte * 2;
      var bit := AndMask(matchByte, offs);
      var b;
      ok, b, r := CheckBit(input, probs, r, base + offs + bit + symbol);
      if !ok {
        return;
      }
      symbol := symbol + symbol + (if b then 1 else 0);
      offs := if b then bit else offs - bit;
      i := i + 1;
    }
    Pow2Order(i + 1, 8);
  }

  method CheckLen(input: seq<byte>, probs: array<nat>, rd: Reader, base: nat, posState: nat) returns (ok: bool, len: nat, r: Reader)
    requires posState < 16 && base + 514 <= probs.Length && GoodProbs(probs[..])
    ensures LenRead(input, Look(rd, probs[..]), base, posState) == if ok then Some((len, Look(r, probs[..]))) else None
  {
    hide ReadModelled, TreeRead;
    Powers();
    len := 0;
    var choice, choice2;
    ok, choice, r := CheckBit(input, probs, rd, base + LEN_CHOICE);
    if !ok {
      return;
    }
    if !choice {
      ok, len, r := CheckTree(input, probs, r, base + LEN_LOW + posState * 8, 3);
      len := if ok then len - 8 else 0;
    } else {
      ok, choice2, r := CheckBit(input, probs, r, base + LEN_CHOICE2);
      if !ok {
        return;
      }
      if !choice2 {
        ok, len, r := CheckTree(input, probs, r, base + LEN_MID + posState * 8, 3);
        len := if ok then len - 8 + 8 else 0;
      } else {
        ok, len, r := CheckTree(input, probs, r, base + LEN_HIGH, 8);
        len := if ok then len - 0x100 + 16 else 0;
      }
    }
  }

  method CheckDistance(input: seq<byte>, probs: array<nat>, rd: Reader, len: nat) returns (ok: bool, r: Reader)
    requires LITERAL <= probs.Length && GoodProbs(probs[..])
    ensures ok <==> DistanceRead(input, Look(rd, probs[..]), len).Some?
    ensures ok ==> DistanceRead(input, Look(rd, probs[..]), len).value.1 == Look(r, probs[..])
  {
    hide ReadModelled, TreeRead, FooterRead;
    Powers();
    var posSlot;
    ok, posSlot, r := CheckTree(input, probs, rd, POS_SLOT + (if len < 4 then len else 3) * 64, 6);
    if !ok {
      return;
    }
    ok, r := CheckFooter(input, probs, r, posSlot - 0x40);
  }

  method CheckFooter(input: seq<byte>, probs: array<nat>, rd: Reader, posSlot: nat) returns (ok: bool, r: Reader)
    requires LITERAL <= probs.Length && GoodProbs(probs[..])
    ensures ok <==> FooterRead(input, Look(rd, probs[..]), posSlot).Some?
    ensures ok ==> FooterRead(input, Look(rd, probs[..]), posSlot).value.1 == Look(r, probs[..])
  {
    hide ReadModelled, ReverseRead, DirectRead;
    Powers();
    ok, r := true, rd;
    if posSlot >= START_POS_MODEL {
      var numDirectBits := posSlot / 2 - 1;
      if posSlot < END_POS_MODEL {
        SpecBase(posSlot);
        ok, r := CheckReverse(input, probs, r, SPEC_POS + (2 + posSlot % 2) * Pow2(numDirectBits) - posSlot - 1, numDirectBits,
                              1, SlotBase(posSlot));
      } else {
        ghost var d := Look(r, probs[..]);
        ok, r := CheckDirect(input, probs[..], r, numDirectBits - 4, 2 + posSlot % 2);
        if ok {
          ghost var high := DirectRead(input, d, numDirectBits - 4, 2 + posSlot % 2).value.0;
          ok, r := CheckReverse(input, probs, r, ALIGN, 4, 1, high * 16);
        }
      }
    }
  }

  /** The bits that tell the last distances apart; long is false for a repeated byte. */
  method CheckRep(input: seq<byte>, probs: array<nat>, rd: Reader, ghost c: Context, state: nat, posState: nat)
    returns (ok: bool, long: bool, r: Reader, ghost index: nat)
    requires c.state == state < NUM_STATES && c.posState == posState < 16 && LITERAL <= probs.Length && GoodProbs(probs[..])
    ensures !ok ==> RepRead(input, Look(rd, probs[..]), c).None?
    ensures ok && !long ==> RepRead(input, Look(rd, probs[..]), c) == Some((ShortRep, Look(r, probs[..])))
    ensures ok && long ==>
              RepRead(input, Look(rd, probs[..]), c) ==
              match LenRead(input, Look(r, probs[..]), REP_LEN_CODER, posState) {
                case None => None
                case Some((len, d)) => Some((Rep(index, len + MATCH_MIN_LEN), d))
              }
  {
    hide ReadModelled, LenRead;
    index, long := 0, true;
    var g0, g1, g2;
    ok, g0, r := CheckBit(input, probs, rd, IS_REP_G0 + state);
    if !ok {
      return;
    }
    if !g0 {
      ok, long, r := CheckBit(input, probs, r, IS_REP0_LONG + state * 16 + posState);
    } else {
      ok, g1, r := CheckBit(input, probs, r, IS_REP_G1 + state);
      index := 1;
      if ok && g1 {
        ok, g2, r := CheckBit(input, probs, r, IS_REP_G2 + state);
        index := if g2 then 3 else 2;
      }
    }
  }
}
