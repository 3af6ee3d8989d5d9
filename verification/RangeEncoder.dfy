/** The encoder's half of the range coder: a 33-bit low, one cached byte and a run of
    pending 0xFF bytes stand for the exact low end of the interval. */
module RangeEncoder {
  import opened Arith
  import opened Bytes
  import opened RangeCoder

  /** The bytes already given away, the cached byte and the pending 0xFF run. */
  function Digits(out: seq<byte>, cache: byte, cacheSize: nat): seq<byte>
    requires cacheSize >= 1
  {
    out + [cache] + Repeated(0xFF, cacheSize - 1)
  }

  /** Carrying into the pending run turns it into a bumped byte and zeros. */
  lemma CarryIntoPending(out: seq<byte>, cache: byte, n: nat)
    requires cache < 0xFF
    ensures BigEndian(out + [cache + 1] + Repeated(0, n)) == BigEndian(out + [cache] + Repeated(0xFF, n)) + 1
  {
    BigEndianConcat(out + [cache + 1], Repeated(0, n));
    BigEndianConcat(out + [cache], Repeated(0xFF, n));
    BigEndianSnoc(out, cache + 1);
    BigEndianSnoc(out, cache);
    BigEndianOfZeros(n);
    BigEndianOfFFs(n);
    var u := Pow256(n);
    assert (BigEndian(out) * 256 + (cache + 1)) * u == (BigEndian(out) * 256 + cache) * u + u;
  }

  /** After i shifts the low i bytes of low are zero. */
  predicate LowIsEmptying(low: nat, i: nat) {
    match i
    case 0 => low < 2 * WORD
    case 1 => low < WORD && low % 0x100 == 0
    case 2 => low < WORD && low % 0x10000 == 0
    case 3 => low < WORD && low % TOP == 0
    case _ => low == 0
  }

  lemma LowEmpties(low: nat, i: nat)
    requires LowIsEmptying(low, i)
    ensures LowIsEmptying(low % TOP * 256, i + 1)
  {
    var q, r := low / TOP, low % TOP;
    assert low == q * TOP + r;
    match i
    case 1 => assert r == 256 * (low / 256 - q * 0x10000);
    case 2 => assert r == 0x10000 * (low / 0x10000 - q * 256);
    case _ =>
  }

  lemma MulPow(x: nat, i: nat)
    ensures 256 * (x * Pow256(i)) == x * Pow256(i + 1)
  {
    assert x * (256 * Pow256(i)) == 256 * (x * Pow256(i));
  }

  class RangeEnc {
    var low: nat
    var range: nat
    var cache: byte
    var cacheSize: nat
    var out: seq<byte>   // everything written to the output stream

    /** Room for an interval of width w above low: at most one carry is pending, and none
        when the cached byte is already 0xFF. */
    ghost predicate Fits(w: nat)
      reads this
    {
      low + w <= 2 * WORD && (cache == 0xFF ==> low + w <= WORD)
    }

    ghost predicate Valid()
      reads this
    {
      cacheSize >= 1 && TOP <= range < WORD && Fits(range)
    }

    ghost function AllDigits(): seq<byte>
      reads this
      requires cacheSize >= 1
    {
      Digits(out, cache, cacheSize)
    }

    /** The exact low end that the bytes, the pending run and low denote together. */
    ghost function ExactLow(): nat
      reads this
      requires cacheSize >= 1
    {
      BigEndian(AllDigits()) * WORD + low
    }

    ghost function Shifts(): nat
      reads this
      requires cacheSize >= 1
    {
      |out| + cacheSize - 1
    }

    ghost function Current(): Interval
      reads this
      requires cacheSize >= 1
    {
      Interval(ExactLow(), range, Shifts())
    }

    constructor ()
      ensures Valid() && Current() == FIRST_INTERVAL && out == []
    {
      low, range, cache, cacheSize, out := 0, WORD - 1, 0, 1, [];
      new;
      BigEndianSnoc([], 0);
      assert AllDigits() == [] + [0];
    }

    /** Moves the top byte of low out of the 32-bit window, resolving a carry if there is one. */
    method ShiftLow(ghost w: nat)
      requires cacheSize >= 1 && 1 <= w <= TOP && Fits(w)
      modifies this`low, this`cache, this`cacheSize, this`out
      ensures cacheSize >= 1 && Fits(256 * w)
      ensures ExactLow() == 256 * old(ExactLow())
      ensures Shifts() == old(Shifts()) + 1
      ensures low == old(low) % TOP * 256
      ensures old(out) <= out
      ensures old(low) < 0xFF000000 ==> cacheSize == 1 && cache == old(low) / TOP
    {
      hide Digits;
      LowShifted(low, w);
      if low < 0xFF000000 || low >= WORD {
        ghost var digits := BigEndian(AllDigits());
        WritePending(low / WORD);
        ShiftedFlushed(digits, out, low);
        cache := low % WORD / TOP;
      } else {
        ShiftedPending(out, cache, cacheSize, low);
      }
      cacheSize := cacheSize + 1;
      low := low % TOP * 256;
    }

    /** The do-while loop of ShiftLow: writes the cached byte and the pending run with the
        carry added to each byte modulo 256. */
    method WritePending(carry: nat)
      requires cacheSize >= 1 && carry <= 1 && (cache == 0xFF ==> carry == 0)
      modifies this`cacheSize, this`out
      ensures cacheSize == 0 && old(out) <= out && |out| == |old(out)| + old(cacheSize)
      ensures BigEndian(out) == old(BigEndian(AllDigits())) + carry
    {
      hide BigEndian, Digits;
      ghost var n := cacheSize;
      var temp := cache;
      while cacheSize != 0
        invariant cacheSize <= n
        invariant temp == if cacheSize == n then cache else 0xFF
        invariant out == if cacheSize == n then old(out)
                         else old(out) + [cache + carry] + Repeated((0xFF + carry) % 256, n - cacheSize - 1)
      {
        out := out + [(temp + carry) % 256];
        temp := 0xFF;
        cacheSize := cacheSize - 1;
      }
      PendingWritten(old(out), cache, n, carry);
    }

    method EncodeBit(prob: nat, bit: bool) returns (next: nat)
      requires Valid() && GoodProb(prob)
      modifies this
      ensures Valid() && GoodProb(next) && next == Adapt(prob, bit)
      ensures Current() == Renorm(Narrow(old(Current()), prob, bit))
      ensures old(out) <= out
    {
      BoundIsProper(range, prob);
      var newBound := range / BIT_MODEL_TOTAL * prob;
      next := prob;
      if !bit {
        range := newBound;
        next := next + (BIT_MODEL_TOTAL - next) / 32;
      } else {
        low := low + newBound;
        range := range - newBound;
        next := next - next / 32;
      }
      if range < TOP {
        ghost var w := range;
        range := range * 256;
        ShiftLow(w);
      }
    }

    /** Encodes the low numBits bits of value, highest first, each with probability one half. */
    method EncodeDirectBits(value: nat, numBits: nat)
      requires Valid() && numBits >= 1
      modifies this
      ensures Valid()
      ensures Current() == HalveAll(old(Current()), value, numBits)
      ensures old(out) <= out
    {
      var n := numBits;
      while true
        invariant 1 <= n <= numBits && Valid() && old(out) <= out
        invariant HalveAll(Current(), value, n) == HalveAll(old(Current()), value, numBits)
        decreases n
      {
        n := n - 1;
        EncodeHalf(BitOf(value, n));
        if n == 0 {
          break;
        }
      }
    }

    /** The body of the direct-bit loop. */
    method EncodeHalf(bit: bool)
      requires Valid()
      modifies this
      ensures Valid() && Current() == Renorm(Halve(old(Current()), bit))
      ensures old(out) <= out
    {
      range := range / 2;
      if bit {
        low := low + range;
      }
      if range < TOP {
        ghost var w := range;
        range := range * 256;
        ShiftLow(w);
      }
    }

    /** Five shifts push every remaining byte out: the stream is then exactly the low end. */
    method FlushData()
      requires Valid()
      modifies this
      ensures BigEndian(out) == old(ExactLow()) && |out| == old(Shifts()) + 5
      ensures old(out) <= out
    {
      var i := 0;
      while i < 5
        invariant 0 <= i <= 5 && cacheSize >= 1 && Fits(1)
        invariant LowIsEmptying(low, i)
        invariant i == 5 ==> cacheSize == 1 && cache == 0
        invariant ExactLow() == old(ExactLow()) * Pow256(i)
        invariant Shifts() == old(Shifts()) + i
        invariant old(out) <= out
      {
        LowEmpties(low, i);
        ShiftLow(1);
        MulPow(old(ExactLow()), i);
        i := i + 1;
      }
      assert AllDigits() == out + [0];
      BigEndianSnoc(out, 0);
      assert Pow256(5) == 256 * WORD by {
        assert Pow256(3) == TOP;
      }
    }
  }

  /** The interval after numBits direct bits of value, highest first. */
  function HalveAll(s: Interval, value: nat, numBits: nat): Interval
    decreases numBits
  {
    if numBits == 0 then s
    else HalveAll(Renorm(Halve(s, BitOf(value, numBits - 1))), value, numBits - 1)
  }

  /** A shift that keeps one more 0xFF pending. */
  lemma PendingWritten(out: seq<byte>, cache: byte, n: nat, carry: nat)
    requires n >= 1 && carry <= 1 && cache + carry < 256
    ensures BigEndian(out + [cache + carry] + Repeated((0xFF + carry) % 256, n - 1)) == BigEndian(Digits(out, cache, n)) + carry
  {
    if carry == 1 {
      assert (0xFF + carry) % 256 == 0;
      CarryIntoPending(out, cache, n - 1);
    }
  }

  /** Room is left above low when its top byte has gone to the cache, or to the pending run. */
  lemma LowShifted(low: nat, w: nat)
    requires 1 <= w <= TOP && low + w <= 2 * WORD
    ensures low / WORD <= 1 && low % WORD / TOP < 256
    ensures low % TOP * 256 + 256 * w <= 2 * WORD
    ensures low < 0xFF000000 ==> low % WORD / TOP == low / TOP < 0xFF
    ensures (low % WORD / TOP == 0xFF && low >= WORD) || (0xFF000000 <= low && low + w <= WORD) ==> low % TOP * 256 + 256 * w <= WORD
  {
  }

  lemma ShiftedPending(out: seq<byte>, cache: byte, cacheSize: nat, low: nat)
    requires cacheSize >= 1 && 0xFF000000 <= low < WORD
    ensures BigEndian(Digits(out, cache, cacheSize + 1)) * WORD + low % TOP * 256
            == 256 * (BigEndian(Digits(out, cache, cacheSize)) * WORD + low)
  {
    var digits := Digits(out, cache, cacheSize);
    RepeatedSnoc(0xFF, cacheSize - 1);
    assert Digits(out, cache, cacheSize + 1) == digits + [0xFF];
    BigEndianSnoc(digits, 0xFF);
  }

  /** A shift after the pending run has been written out as flushed. */
  lemma ShiftedFlushed(digits: nat, flushed: seq<byte>, low: nat)
    requires low < 2 * WORD
    requires BigEndian(flushed) == digits + low / WORD
    ensures BigEndian(Digits(flushed, low % WORD / TOP, 1)) * WORD + low % TOP * 256 == 256 * (digits * WORD + low)
  {
    assert Digits(flushed, low % WORD / TOP, 1) == flushed + [low % WORD / TOP];
    BigEndianSnoc(flushed, low % WORD / TOP);
  }
}
