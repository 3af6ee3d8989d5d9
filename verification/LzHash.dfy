/** The hash values of the match finder. Whatever the table, two and three bytes with the same
    first byte are told apart by the small hashes. */
module LzHash {
  import opened LzRank

  const HASH2_SIZE := 0x400
  const HASH3_SIZE := 0x10000

  // ---------- Numbers of 32 bits ----------

  function OctetOf(x: bv32, k: nat): bv8
    requires k < 4
  {
    if k == 0 then (x & 0xFF) as bv8
    else if k == 1 then ((x >> 8) & 0xFF) as bv8
    else if k == 2 then ((x >> 16) & 0xFF) as bv8
    else ((x >> 24) & 0xFF) as bv8
  }

  function Num(x: bv32): nat {
    0x1000000 * Value(OctetOf(x, 3)) + 0x10000 * Value(OctetOf(x, 2)) + 0x100 * Value(OctetOf(x, 1)) + Value(OctetOf(x, 0))
  }

  function Joined(a: bv8, b: bv8, c: bv8, d: bv8): bv32 {
    (a as bv32 << 24) | (b as bv32 << 16) | (c as bv32 << 8) | (d as bv32)
  }

  lemma Rebuilt(x: bv32)
    ensures x == Joined(OctetOf(x, 3), OctetOf(x, 2), OctetOf(x, 1), OctetOf(x, 0))
  {
  }

  lemma SameDigits(a: nat, b: nat, c: nat, d: nat, a': nat, b': nat, c': nat, d': nat)
    requires b < 256 && c < 256 && d < 256 && b' < 256 && c' < 256 && d' < 256
    requires 0x1000000 * a + 0x10000 * b + 0x100 * c + d == 0x1000000 * a' + 0x10000 * b' + 0x100 * c' + d'
    ensures a == a' && b == b' && c == c' && d == d'
  {
  }

  lemma SameNum(x: bv32, y: bv32)
    requires Num(x) == Num(y)
    ensures x == y
  {
    hide OctetOf, Joined;
    ValueOrder(OctetOf(x, 0), OctetOf(y, 0));
    ValueOrder(OctetOf(x, 1), OctetOf(y, 1));
    ValueOrder(OctetOf(x, 2), OctetOf(y, 2));
    ValueOrder(OctetOf(x, 3), OctetOf(y, 3));
    SameDigits(Value(OctetOf(x, 3)), Value(OctetOf(x, 2)), Value(OctetOf(x, 1)), Value(OctetOf(x, 0)),
               Value(OctetOf(y, 3)), Value(OctetOf(y, 2)), Value(OctetOf(y, 1)), Value(OctetOf(y, 0)));
    Rebuilt(x);
    Rebuilt(y);
  }

  lemma MaskedOctets(x: bv32, m: bv32)
    ensures OctetOf(x & m, 0) <= OctetOf(m, 0) && OctetOf(x & m, 1) <= OctetOf(m, 1)
    ensures OctetOf(x & m, 2) <= OctetOf(m, 2) && OctetOf(x & m, 3) <= OctetOf(m, 3)
  {
  }

  /** A masked number is at most the mask. */
  lemma MaskedNum(x: bv32, m: bv32)
    ensures Num(x & m) <= Num(m)
  {
    MaskedOctets(x, m);
    ValueOrder(OctetOf(m, 0), OctetOf(x & m, 0));
    ValueOrder(OctetOf(m, 1), OctetOf(x & m, 1));
    ValueOrder(OctetOf(m, 2), OctetOf(x & m, 2));
    ValueOrder(OctetOf(m, 3), OctetOf(x & m, 3));
  }

  lemma SmallMasks()
    ensures Num(0x3FF) == 0x3FF && Num(0xFFFF) == 0xFFFF
  {
  }

  // ---------- HASH2_CALC, HASH3_CALC, HASH4_CALC ----------

  type Table = s: seq<bv32> | |s| == 256 witness seq(256, _ => 0)

  function Hash2(crc: Table, b0: octet, b1: octet): (h: nat)
    ensures h < HASH2_SIZE
  {
    Short2(crc[b0 as int], b1)
  }

  /** The three-byte hash, under the small mask or under that of the main table. */
  function Hash3(crc: Table, b0: octet, b1: octet, b2: octet, mask: bv32): (h: nat)
    ensures h <= Num(mask)
  {
    Short3(crc[b0 as int], b1, b2, mask)
  }

  function Hash4(crc: Table, b0: octet, b1: octet, b2: octet, b3: octet, mask: bv32): (h: nat)
    ensures h <= Num(mask)
  {
    var temp := crc[b0 as int] ^ b1 as bv32 ^ (b2 as bv32 << 8);
    MaskedNum(temp ^ (crc[b3 as int] << 5), mask);
    Num((temp ^ (crc[b3 as int] << 5)) & mask)
  }

  function Short2(t: bv32, b1: octet): (h: nat)
    ensures h < HASH2_SIZE
  {
    SmallMasks();
    MaskedNum(t ^ b1 as bv32, 0x3FF);
    Num((t ^ b1 as bv32) & 0x3FF)
  }

  function Short3(t: bv32, b1: octet, b2: octet, mask: bv32): (h: nat)
    ensures h <= Num(mask)
  {
    MaskedNum(t ^ b1 as bv32 ^ (b2 as bv32 << 8), mask);
    Num((t ^ b1 as bv32 ^ (b2 as bv32 << 8)) & mask)
  }

  lemma Low10(t: bv32, a: bv8, b: bv8)
    requires (t ^ a as bv32) & 0x3FF == (t ^ b as bv32) & 0x3FF
    ensures a == b
  {
  }

  lemma Low16(t: bv32, a: bv8, b: bv8, c: bv8, d: bv8)
    requires (t ^ a as bv32 ^ (c as bv32 << 8)) & 0xFFFF == (t ^ b as bv32 ^ (d as bv32 << 8)) & 0xFFFF
    ensures a == b && c == d
  {
  }

  lemma Short2Exact(t: bv32, b1: octet, c1: octet)
    requires Short2(t, b1) == Short2(t, c1)
    ensures b1 == c1
  {
    hide Num;
    SameNum((t ^ b1 as bv32) & 0x3FF, (t ^ c1 as bv32) & 0x3FF);
    Low10(t, b1, c1);
  }

  lemma Short3Exact(t: bv32, b1: octet, b2: octet, c1: octet, c2: octet)
    requires Short3(t, b1, b2, 0xFFFF) == Short3(t, c1, c2, 0xFFFF)
    ensures b1 == c1 && b2 == c2
  {
    hide Num;
    SameNum((t ^ b1 as bv32 ^ (b2 as bv32 << 8)) & 0xFFFF, (t ^ c1 as bv32 ^ (c2 as bv32 << 8)) & 0xFFFF);
    Low16(t, b1, c1, b2, c2);
  }

  /** After an equal first byte, equal two-byte hashes mean equal second bytes. */
  lemma Hash2Exact(crc: Table, b0: octet, b1: octet, c1: octet)
    requires Hash2(crc, b0, b1) == Hash2(crc, b0, c1)
    ensures b1 == c1
  {
    hide Short2;
    Short2Exact(crc[b0 as int], b1, c1);
  }

  /** After an equal first byte, equal three-byte hashes mean equal second and third bytes. */
  lemma Hash3Exact(crc: Table, b0: octet, b1: octet, b2: octet, c1: octet, c2: octet)
    requires Hash3(crc, b0, b1, b2, 0xFFFF) == Hash3(crc, b0, c1, c2, 0xFFFF)
    ensures b1 == c1 && b2 == c2
  {
    hide Short3;
    Short3Exact(crc[b0 as int], b1, b2, c1, c2);
  }
}
