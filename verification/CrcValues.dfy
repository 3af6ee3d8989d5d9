/** CRC-32 and CRC-64 of a message: the remainders for their two polynomials. */
module CrcValues {
  import opened Registers
  import opened CrcDivision
  import W = Words
  import L = LongWords
  import Crc32
  import Crc64
  import CrcUpdate

  // ---------- The bits of the registers ----------

  /** The low byte, and what is above it. */
  lemma ByteAndRest<R>(g: Register<R>, v: R, low: bv8, n: nat)
    requires Held(g, v, 8) == ByteBits(low)
    ensures Held(g, v, 8 + n) == ByteBits(low) + Held(g, Down(g, v, 8), n)
  {
    hide Bit;
    forall i | 0 <= i < 8 + n
      ensures Held(g, v, 8 + n)[i] == (ByteBits(low) + Held(g, Down(g, v, 8), n))[i]
    {
      if i < 8 {
        assert Held(g, v, 8)[i] == Bit(g, v, i);
      } else {
        BitBelow(g, v, 8, i - 8);
      }
    }
  }

  lemma BitBelow<R>(g: Register<R>, v: R, m: nat, i: nat)
    ensures Bit(g, v, m + i) == Bit(g, Down(g, v, m), i)
  {
    DownSum(g, v, m, i);
  }

  lemma EightBits<R>(g: Register<R>, v: R)
    ensures var v1 := g.half(v);
            var v2 := g.half(v1);
            var v3 := g.half(v2);
            var v4 := g.half(v3);
            var v5 := g.half(v4);
            var v6 := g.half(v5);
            Held(g, v, 8) == [g.odd(v), g.odd(v1), g.odd(v2), g.odd(v3), g.odd(v4), g.odd(v5), g.odd(v6), g.odd(g.half(v6))]
  {
    hide Held;
    var v4 := g.half(g.half(g.half(g.half(v))));
    FourBits(g, v, 4);
    FourBits(g, v4, 0);
    NoBitsHeld(g, g.half(g.half(g.half(g.half(v4)))));
  }

  lemma NoBitsHeld<R>(g: Register<R>, v: R)
    ensures Held(g, v, 0) == []
  {
  }

  lemma FourBits<R>(g: Register<R>, v: R, n: nat)
    ensures var v1 := g.half(v);
            var v2 := g.half(v1);
            var v3 := g.half(v2);
            Held(g, v, 4 + n) == [g.odd(v), g.odd(v1), g.odd(v2), g.odd(v3)] + Held(g, g.half(v3), n)
  {
    hide Held;
    var v1 := g.half(v);
    var v2 := g.half(v1);
    var v3 := g.half(v2);
    HeldStep(g, v, 4 + n);
    HeldStep(g, v1, 3 + n);
    HeldStep(g, v2, 2 + n);
    HeldStep(g, v3, 1 + n);
  }

  lemma WordLow(v: bv32)
    ensures Held(W.WORD, v, 8) == ByteBits(W.Low(v))
  {
    WordByte(v);
    EightBits(W.WORD, v);
  }

  lemma WordByte(v: bv32)
    ensures var v1 := W.Half(v);
            var v2 := W.Half(v1);
            var v3 := W.Half(v2);
            var v4 := W.Half(v3);
            var v5 := W.Half(v4);
            var v6 := W.Half(v5);
            ByteBits(W.Low(v)) == [W.Odd(v), W.Odd(v1), W.Odd(v2), W.Odd(v3), W.Odd(v4), W.Odd(v5), W.Odd(v6), W.Odd(W.Half(v6))]
  {
  }

  lemma LongLow(v: bv64)
    ensures Held(L.LONG, v, 8) == ByteBits(L.Low(v))
  {
    LongByte(v);
    EightBits(L.LONG, v);
  }

  lemma LongByte(v: bv64)
    ensures var v1 := L.Half(v);
            var v2 := L.Half(v1);
            var v3 := L.Half(v2);
            var v4 := L.Half(v3);
            var v5 := L.Half(v4);
            var v6 := L.Half(v5);
            ByteBits(L.Low(v)) == [L.Odd(v), L.Odd(v1), L.Odd(v2), L.Odd(v3), L.Odd(v4), L.Odd(v5), L.Odd(v6), L.Odd(L.Half(v6))]
  {
  }

  lemma WordSized()
    ensures Sized(W.WORD, 32)
  {
    forall v: bv32
      ensures !Bit(W.WORD, v, 32)
    {
      WordEmpties(v);
    }
    forall b: bv8
      ensures Held(W.WORD, W.WORD.wide(b), 8) == ByteBits(b)
    {
      WordLow(W.Wide(b));
    }
  }

  lemma WordEmpties(v: bv32)
    ensures Down(W.WORD, v, 32) == 0
  {
    hide Down;
    DownSum(W.WORD, v, 8, 24);
    DownSum(W.WORD, W.Down8(v), 8, 16);
    DownSum(W.WORD, W.Down8(W.Down8(v)), 8, 8);
    W.DownByte(v);
    W.DownByte(W.Down8(v));
    W.DownByte(W.Down8(W.Down8(v)));
    W.DownByte(W.Down8(W.Down8(W.Down8(v))));
  }

  lemma LongSized()
    ensures Sized(L.LONG, 64)
  {
    forall v: bv64
      ensures !Bit(L.LONG, v, 64)
    {
      LongEmpties(v);
    }
    forall b: bv8
      ensures Held(L.LONG, L.LONG.wide(b), 8) == ByteBits(b)
    {
      LongLow(L.Wide(b));
    }
  }

  lemma LongEmpties(v: bv64)
    ensures Down(L.LONG, v, 64) == 0
  {
    hide Down;
    DownSum(L.LONG, v, 32, 32);
    FourBytesDown(v);
    FourBytesDown(FourDown(v));
    EightDown(v);
  }

  function FourDown(v: bv64): bv64 {
    L.Down8(L.Down8(L.Down8(L.Down8(v))))
  }

  lemma EightDown(v: bv64)
    ensures FourDown(FourDown(v)) == 0
  {
  }

  lemma FourBytesDown(v: bv64)
    ensures Down(L.LONG, v, 32) == FourDown(v)
  {
    hide Down;
    DownSum(L.LONG, v, 8, 24);
    DownSum(L.LONG, L.Down8(v), 8, 16);
    DownSum(L.LONG, L.Down8(L.Down8(v)), 8, 8);
    L.DownByte(v);
    L.DownByte(L.Down8(v));
    L.DownByte(L.Down8(L.Down8(v)));
    L.DownByte(L.Down8(L.Down8(L.Down8(v))));
  }

  // ---------- The polynomials ----------

  /** The coefficients of the sum of these powers, without that of x^n. */
  function Powers(n: nat, exponents: set<nat>): (r: Coefficients)
    ensures |r| == n
  {
    seq(n, i requires 0 <= i < n => n - 1 - i in exponents)
  }

  /** x^32 + x^26 + x^23 + x^22 + x^16 + x^12 + x^11 + x^10 + x^8 + x^7 + x^5 + x^4 + x^2 + x + 1. */
  const CRC32 := Powers(32, {26, 23, 22, 16, 12, 11, 10, 8, 7, 5, 4, 2, 1, 0})

  /** x^64 + x^62 + x^57 + ..., the polynomial of ECMA-182. */
  const CRC64 := Powers(64, UPPER + LOWER)
  const UPPER: set<nat> := {62, 57, 55, 54, 53, 52, 47, 46, 45, 40, 39, 38, 37, 35, 33, 32}
  const LOWER: set<nat> := {31, 29, 27, 24, 23, 22, 21, 19, 17, 13, 12, 10, 9, 7, 4, 1, 0}

  lemma Poly32()
    ensures Held(W.WORD, Crc32.POLY, 32) == CRC32
  {
    var p := Crc32.POLY;
    WordSplit(p, 24);
    WordSplit(p >> 8, 16);
    WordSplit(p >> 16, 8);
    WordSplit(p >> 24, 0);
    assert ByteBits(0x20) + (ByteBits(0x83) + (ByteBits(0xB8) + (ByteBits(0xED) + []))) == CRC32;
  }

  lemma WordSplit(v: bv32, n: nat)
    ensures Held(W.WORD, v, 8 + n) == ByteBits(W.Low(v)) + Held(W.WORD, v >> 8, n)
  {
    WordLow(v);
    W.DownByte(v);
    ByteAndRest(W.WORD, v, W.Low(v), n);
  }

  lemma LongSplit(v: bv64, n: nat)
    ensures Held(L.LONG, v, 8 + n) == ByteBits(L.Low(v)) + Held(L.LONG, v >> 8, n)
  {
    LongLow(v);
    L.DownByte(v);
    ByteAndRest(L.LONG, v, L.Low(v), n);
  }

  lemma Poly64()
    ensures Held(L.LONG, Crc64.POLY, 64) == CRC64
  {
    Low64();
    High64();
    var p := Crc64.POLY;
    LongSplit(p, 56);
    LongSplit(p >> 8, 48);
    LongSplit(p >> 16, 40);
    LongSplit(p >> 24, 32);
    hide Held, ByteBits;
    assert L.Low(p) == 0x42 && L.Low(p >> 8) == 0x0F && L.Low(p >> 16) == 0x87 && L.Low(p >> 24) == 0xD7;
  }

  lemma Low64()
    ensures ByteBits(0x42) + (ByteBits(0x0F) + (ByteBits(0x87) + (ByteBits(0xD7) + CRC64[32..]))) == CRC64
  {
  }

  lemma Lowest32()
    ensures ByteBits(0x95) + (ByteBits(0x57) + (ByteBits(0x6C) + (ByteBits(0xC9) + []))) == Powers(32, LOWER)
  {
  }

  lemma LowerHalf()
    ensures CRC64[32..] == Powers(32, LOWER)
  {
    UpperAndLower();
    hide UPPER, LOWER;
  }

  lemma UpperAndLower()
    ensures (forall e | e in UPPER :: 32 <= e) && forall e | e in LOWER :: e < 32
  {
  }

  lemma High64()
    ensures Held(L.LONG, Crc64.POLY >> 32, 32) == CRC64[32..]
  {
    var p := Crc64.POLY >> 32;
    LongSplit(p, 24);
    LongSplit(p >> 8, 16);
    LongSplit(p >> 16, 8);
    LongSplit(p >> 24, 0);
    Lowest32();
    LowerHalf();
    hide Held, ByteBits;
    assert L.Low(p) == 0x95 && L.Low(p >> 8) == 0x57 && L.Low(p >> 16) == 0x6C && L.Low(p >> 24) == 0xC9;
  }

  // ---------- CrcCalc and Crc64Calc ----------

  const INIT32: bv32 := 0xFFFF_FFFF
  const INIT64: bv64 := 0xFFFF_FFFF_FFFF_FFFF

  /** The first n coefficients inverted. */
  function Inverted(s: Coefficients, n: nat): Coefficients {
    seq(|s|, i requires 0 <= i < |s| => if i < n then !s[i] else s[i])
  }

  /** The remainder of the message and n zeros, with the first n bits and the remainder inverted. */
  function Checksum(data: seq<bv8>, n: nat, k: Coefficients): Coefficients {
    Inverted(Remainder(Inverted(MessageBits(data) + Zeroes(n), n), 8 * |data|, k), n)
  }

  function Ones(n: nat): (r: Coefficients)
    ensures |r| == n
  {
    seq(n, _ => true)
  }

  lemma EightOnes(n: nat)
    ensures ByteBits(0xFF) + Ones(n) == Ones(8 + n)
  {
  }

  lemma Ones32()
    ensures Held(W.WORD, INIT32, 32) == Ones(32)
  {
    WordSplit(INIT32, 24);
    WordSplit(INIT32 >> 8, 16);
    WordSplit(INIT32 >> 16, 8);
    WordSplit(INIT32 >> 24, 0);
    hide Held, ByteBits;
    assert W.Low(INIT32) == W.Low(INIT32 >> 8) == W.Low(INIT32 >> 16) == W.Low(INIT32 >> 24) == 0xFF;
    EightOnes(0);
    EightOnes(8);
    EightOnes(16);
    EightOnes(24);
    assert Held(W.WORD, INIT32 >> 24 >> 8, 0) == Ones(0);
  }

  lemma Ones64()
    ensures Held(L.LONG, INIT64, 64) == Ones(64)
  {
    hide Held, ByteBits;
    LongSplit(INIT64, 56);
    LongSplit(INIT64 >> 8, 48);
    LongSplit(INIT64 >> 16, 40);
    LongSplit(INIT64 >> 24, 32);
    OnesAbove();
    EightOnes(32);
    EightOnes(40);
    EightOnes(48);
    EightOnes(56);
    assert L.Low(INIT64) == L.Low(INIT64 >> 8) == L.Low(INIT64 >> 16) == L.Low(INIT64 >> 24) == 0xFF;
  }

  lemma OnesAbove()
    ensures Held(L.LONG, INIT64 >> 32, 32) == Ones(32)
  {
    hide Held, ByteBits;
    var v := INIT64 >> 32;
    LongSplit(v, 24);
    LongSplit(v >> 8, 16);
    LongSplit(v >> 16, 8);
    LongSplit(v >> 24, 0);
    assert L.Low(v) == L.Low(v >> 8) == L.Low(v >> 16) == L.Low(v >> 24) == 0xFF;
    EightOnes(0);
    EightOnes(8);
    EightOnes(16);
    EightOnes(24);
    assert Held(L.LONG, v >> 24 >> 8, 0) == Ones(0);
  }

  /** Starting from ones and inverting at the end. */
  lemma BothInverted<R(!new)>(g: Register<R>, ones: R, data: seq<bv8>, n: nat, k: R)
    requires Lawful(g) && Sized(g, n) && n > 0 && Held(g, ones, n) == Ones(n)
    ensures Held(g, g.xor(Crc(g, ones, data, k), ones), n) == Checksum(data, n, Held(g, k, n))
  {
    hide Lawful, Sized, Remainder, Bit, Crc;
    var c := Crc(g, ones, data, k);
    CrcDivides(g, ones, data, n, k);
    assert Minus(MessageBits(data) + Zeroes(n), Held(g, ones, n)) == Inverted(MessageBits(data) + Zeroes(n), n);
    forall i | 0 <= i < n
      ensures Held(g, g.xor(c, ones), n)[i] == Inverted(Held(g, c, n), n)[i]
    {
      BitOfSum(g, c, ones, i);
      assert Held(g, ones, n)[i] == Bit(g, ones, i);
    }
  }

  /** CrcCalc: the CRC-32 of the data. */
  method CrcCalc(data: seq<bv8>, address: nat) returns (crc: bv32)
    ensures Held(W.WORD, crc, 32) == Checksum(data, 32, CRC32)
  {
    hide Checksum, Powers, Held;
    var table := Crc32.GenerateTable(8);
    crc := CrcUpdate.CrcUpdateT8(INIT32, data, address, table, Crc32.POLY);
    W.WordLaws();
    WordSized();
    Ones32();
    Poly32();
    BothInverted(W.WORD, INIT32, data, 32, Crc32.POLY);
    crc := W.Xor(crc, INIT32);
  }

  /** Crc64Calc: the CRC-64 of the data. */
  method Crc64Calc(data: seq<bv8>, address: nat) returns (crc: bv64)
    ensures Held(L.LONG, crc, 64) == Checksum(data, 64, CRC64)
  {
    hide Checksum, Powers, Held;
    var table := Crc64.GenerateTable(4);
    crc := Crc64.XzCrc64UpdateT4(INIT64, data, address, table, Crc64.POLY);
    L.LongLaws();
    LongSized();
    Ones64();
    Poly64();
    BothInverted(L.LONG, INIT64, data, 64, Crc64.POLY);
    crc := L.Xor(crc, INIT64);
  }
}
