/** The update loops of CRC-32, little-endian and byte-swapped, from any start address. */
module CrcUpdate {
  import opened Registers
  import opened Words

  // ---------- Little-endian ----------

  lemma ByteStep(v: bv32, b: bv8, k: bv32)
    ensures Xor(Entry(WORD, At(0, Meets(Low(v), b)), k), Down8(v)) == Bits(WORD, v, Wide(b), 8, k)
  {
    hide Bits, Xor, Down8, At, Wide, Low, Entry, Down, Meets;
    WordLaws();
    ByteThrough(WORD, v, b, k);
    DownByte(v);
  }

  /** CRC_UPDATE_BYTE_2. */
  method UpdateByte(v: bv32, b: bv8, table: array<bv32>, ghost k: bv32) returns (r: bv32)
    requires TablesOk(WORD, table[..], 1, k)
    ensures r == Bits(WORD, v, Wide(b), 8, k)
  {
    hide Bits, Xor, Down8, At, Wide, Low, Entry, Down, Meets;
    ByteStep(v, b, k);
    r := Xor(table[At(0, Meets(Low(v), b))], Down8(v));
  }

  method CrcUpdateT1(v0: bv32, data: seq<bv8>, table: array<bv32>, ghost k: bv32) returns (v: bv32)
    requires TablesOk(WORD, table[..], 1, k)
    ensures v == Crc(WORD, v0, data, k)
  {
    hide TablesOk, Bits;
    v := v0;
    var p := 0;
    while p != |data|
      invariant 0 <= p <= |data| && Crc(WORD, v, data[p..], k) == Crc(WORD, v0, data, k)
    {
      assert data[p..][1..] == data[p + 1..];
      v := UpdateByte(v, data[p], table, k);
      p := p + 1;
    }
  }

  /** Single bytes, up to an address that is a multiple of unit, or to the end. */
  method UpdateBytes(v0: bv32, data: seq<bv8>, p0: nat, address: nat, unit: nat, table: array<bv32>, ghost k: bv32)
    returns (v: bv32, p: nat)
    requires TablesOk(WORD, table[..], 1, k) && p0 <= |data|
    ensures p0 <= p <= |data| && Crc(WORD, v, data[p..], k) == Crc(WORD, v0, data[p0..], k)
    ensures p == |data| || (unit > 0 && (address + p) % unit == 0)
  {
    hide TablesOk, Bits;
    v, p := v0, p0;
    while p < |data| && (unit == 0 || (address + p) % unit != 0)
      invariant p0 <= p <= |data| && Crc(WORD, v, data[p..], k) == Crc(WORD, v0, data[p0..], k)
    {
      assert data[p..][1..] == data[p + 1..];
      v := UpdateByte(v, data[p], table, k);
      p := p + 1;
    }
  }

  /** A word through four tables is itself followed by 32 zero bits and n more bytes. */
  lemma WordThrough(x: bv32, n: nat, k: bv32)
    ensures Zeros(WORD, x, 8 * n + 32, k) ==
            Xor(Xor(Xor(Entry(WORD, At(n + 3, Byte(x, 0)), k), Entry(WORD, At(n + 2, Byte(x, 1)), k)),
                    Entry(WORD, At(n + 1, Byte(x, 2)), k)),
                Entry(WORD, At(n, Byte(x, 3)), k))
  {
    hide Zeros, Xor, Byte, Low, Down8, Entry, At, Down;
    WordLaws();
    FourThrough(WORD, x, n, k);
    BytesDown(x);
    BytesLow(x);
    NothingThrough(WORD, 8 * n, k);
    Sums(WORD, Four(WORD, x, n, k), x, x);
  }

  /** One word through the tables from n on: the four lookups of an unrolled step. */
  method FourLookups(x: bv32, n: nat, table: array<bv32>, ghost k: bv32) returns (r: bv32)
    requires TablesOk(WORD, table[..], n + 4, k)
    ensures r == Zeros(WORD, x, 8 * n + 32, k)
  {
    hide Zeros, Byte, Xor, At, Entry;
    WordThrough(x, n, k);
    r := Xor(Xor(Xor(table[At(n + 3, Byte(x, 0))], table[At(n + 2, Byte(x, 1))]), table[At(n + 1, Byte(x, 2))]), table[At(n, Byte(x, 3))]);
  }

  function WordAt(data: seq<bv8>, p: nat): bv32
    requires p + 4 <= |data|
  {
    WordOf(data[p], data[p + 1], data[p + 2], data[p + 3])
  }

  /** Four bytes are one word added to the register, then 32 zero bits. */
  lemma FourBytes(v: bv32, data: seq<bv8>, p: nat, k: bv32)
    requires p + 4 <= |data|
    ensures Crc(WORD, v, data[p..], k) == Crc(WORD, Zeros(WORD, Xor(v, WordAt(data, p)), 32, k), data[p + 4..], k)
  {
    hide Zeros, Crc, Xor, WordOf, Down, Spells;
    WordLaws();
    WordSpells(data[p], data[p + 1], data[p + 2], data[p + 3]);
    assert data[p..][..4] == [data[p], data[p + 1], data[p + 2], data[p + 3]] && data[p..][4..] == data[p + 4..];
    WordAtOnce(WORD, v, WordAt(data, p), data[p..], 4, k);
  }

  /** CrcUpdateT4: four bytes at a time, whatever the alignment of the first byte. */
  method CrcUpdateT4(v0: bv32, data: seq<bv8>, address: nat, table: array<bv32>, ghost k: bv32) returns (v: bv32)
    requires TablesOk(WORD, table[..], 4, k)
    ensures v == Crc(WORD, v0, data, k)
  {
    hide TablesOk, Bits, Zeros, Crc, WordAt;
    InTables(WORD, table[..], 4, k);
    assert data[0..] == data;
    var p;
    v, p := UpdateBytes(v0, data, 0, address, 4, table, k);
    while |data| - p >= 4
      invariant p <= |data| && Crc(WORD, v, data[p..], k) == Crc(WORD, v0, data, k)
    {
      FourBytes(v, data, p, k);
      v := FourLookups(Xor(v, WordAt(data, p)), 0, table, k);
      p := p + 4;
    }
    v, p := UpdateBytes(v, data, p, address, 0, table, k);
    CrcOfNothing(WORD, v, data[p..], k);
  }

  /** Eight bytes are two words, the first with 32 more zero bits behind it. */
  lemma EightBytes(v: bv32, data: seq<bv8>, p: nat, k: bv32)
    requires p + 8 <= |data|
    ensures var x, d := Xor(v, WordAt(data, p)), WordAt(data, p + 4);
            Crc(WORD, v, data[p..], k) == Crc(WORD, Xor(Zeros(WORD, x, 64, k), Zeros(WORD, d, 32, k)), data[p + 8..], k)
  {
    hide Crc, Zeros, Xor, WordAt;
    var x := Xor(v, WordAt(data, p));
    WordLaws();
    FourBytes(v, data, p, k);
    FourBytes(Zeros(WORD, x, 32, k), data, p + 4, k);
    ZerosLinear(WORD, Zeros(WORD, x, 32, k), WordAt(data, p + 4), 32, k);
    ZerosSum(WORD, x, 32, 32, k);
  }

  /** CrcUpdateT8: eight bytes at a time. */
  method CrcUpdateT8(v0: bv32, data: seq<bv8>, address: nat, table: array<bv32>, ghost k: bv32) returns (v: bv32)
    requires TablesOk(WORD, table[..], 8, k)
    ensures v == Crc(WORD, v0, data, k)
  {
    hide TablesOk, Bits, Zeros, Crc, WordAt;
    InTables(WORD, table[..], 8, k);
    assert data[0..] == data;
    var p;
    v, p := UpdateBytes(v0, data, 0, address, 8, table, k);
    while |data| - p >= 8
      invariant p <= |data| && Crc(WORD, v, data[p..], k) == Crc(WORD, v0, data, k)
    {
      EightBytes(v, data, p, k);
      v := FourLookups(Xor(v, WordAt(data, p)), 4, table, k);
      var d := FourLookups(WordAt(data, p + 4), 0, table, k);
      v := Xor(v, d);
      p := p + 8;
    }
    v, p := UpdateBytes(v, data, p, address, 0, table, k);
    CrcOfNothing(WORD, v, data[p..], k);
  }

  // ---------- Byte-swapped ----------

  /** The tables behind the first 256 entries, every entry with its bytes in the other order. */
  ghost predicate SwappedOk(t: seq<bv32>, n: nat, k: bv32) {
    256 * (n + 1) <= |t| && forall i | 0 <= i < 256 * n :: t[256 + i] == Swap(Entry(WORD, i, k))
  }

  /** The tables move up by 256 entries and are swapped, from the last one down. */
  method SwapTables(table: array<bv32>, n: nat, k: bv32)
    requires table.Length == 256 * (n + 1) && TablesOk(WORD, table[..], n + 1, k)
    modifies table
    ensures SwappedOk(table[..], n, k)
  {
    hide Entry, Swap;
    var i := 256 * (n + 1);
    while i > 256
      invariant 256 <= i <= 256 * (n + 1)
      invariant forall j | 0 <= j < i :: table[j] == Entry(WORD, j, k)
      invariant forall j | i <= j < 256 * (n + 1) :: table[j] == Swap(Entry(WORD, j - 256, k))
    {
      i := i - 1;
      var x := table[i - 256];
      table[i] := Swap(x);
    }
  }

  lemma InSwapped(t: seq<bv32>, n: nat, k: bv32)
    requires SwappedOk(t, n, k)
    ensures 256 * (n + 1) <= |t| && forall m: nat | m <= n :: SwappedOk(t, m, k)
  {
  }

  /** CRC_UPDATE_BYTE_2_BE: the register u is kept swapped. */
  method UpdateByteBe(v: bv32, b: bv8, table: array<bv32>, ghost u: bv32, ghost k: bv32) returns (r: bv32)
    requires SwappedOk(table[..], 1, k) && v == Swap(u)
    ensures r == Swap(Bits(WORD, u, Wide(b), 8, k))
  {
    hide Bits, Byte, Xor, Down8, At, Wide, Swap, Up8, Entry, Low, Down, Meets;
    ghost var e := Entry(WORD, At(0, Meets(Low(u), b)), k);
    ByteStep(u, b, k);
    SwapBytes(u);
    BytesLow(u);
    SwapXor(e, Down8(u));
    SwapDown(u);
    r := Xor(table[256 + At(0, Meets(Byte(v, 3), b))], Up8(v));
  }

  method UpdateBytesBe(v0: bv32, data: seq<bv8>, p0: nat, address: nat, unit: nat, table: array<bv32>, ghost u0: bv32, ghost k: bv32)
    returns (v: bv32, p: nat, ghost u: bv32)
    requires SwappedOk(table[..], 1, k) && p0 <= |data| && v0 == Swap(u0)
    ensures p0 <= p <= |data| && v == Swap(u) && Crc(WORD, u, data[p..], k) == Crc(WORD, u0, data[p0..], k)
    ensures p == |data| || (unit > 0 && (address + p) % unit == 0)
  {
    hide SwappedOk, Bits, Swap;
    v, p, u := v0, p0, u0;
    while p < |data| && (unit == 0 || (address + p) % unit != 0)
      invariant p0 <= p <= |data| && v == Swap(u) && Crc(WORD, u, data[p..], k) == Crc(WORD, u0, data[p0..], k)
    {
      assert data[p..][1..] == data[p + 1..];
      v := UpdateByteBe(v, data[p], table, u, k);
      u := Bits(WORD, u, Wide(data[p]), 8, k);
      p := p + 1;
    }
  }

  lemma SwapFour(a: bv32, b: bv32, c: bv32, d: bv32)
    ensures Swap(Xor(Xor(Xor(a, b), c), d)) == Xor(Xor(Xor(Swap(d), Swap(c)), Swap(b)), Swap(a))
  {
    hide Xor, Swap;
    WordLaws();
    SwapXor(Xor(Xor(a, b), c), d);
    SwapXor(Xor(a, b), c);
    SwapXor(a, b);
    Reversed(WORD, Swap(a), Swap(b), Swap(c), Swap(d));
  }

  /** One swapped word through the swapped tables. */
  method FourLookupsBe(y: bv32, n: nat, table: array<bv32>, ghost x: bv32, ghost k: bv32) returns (r: bv32)
    requires SwappedOk(table[..], n + 4, k) && y == Swap(x)
    ensures r == Swap(Zeros(WORD, x, 8 * n + 32, k))
  {
    hide Zeros, Byte, Xor, At, Swap, Entry;
    SwapBytes(x);
    WordThrough(x, n, k);
    SwapFour(Entry(WORD, At(n + 3, Byte(x, 0)), k), Entry(WORD, At(n + 2, Byte(x, 1)), k), Entry(WORD, At(n + 1, Byte(x, 2)), k),
             Entry(WORD, At(n, Byte(x, 3)), k));
    r := Xor(Xor(Xor(table[256 + At(n, Byte(y, 0))], table[256 + At(n + 1, Byte(y, 1))]), table[256 + At(n + 2, Byte(y, 2))]),
             table[256 + At(n + 3, Byte(y, 3))]);
  }

  /** The four bytes read as one big-endian word. */
  function WordAtBe(data: seq<bv8>, p: nat): bv32
    requires p + 4 <= |data|
  {
    WordOf(data[p + 3], data[p + 2], data[p + 1], data[p])
  }

  lemma SwappedSum(u: bv32, data: seq<bv8>, p: nat)
    requires p + 4 <= |data|
    ensures WordAtBe(data, p) == Swap(WordAt(data, p)) && Xor(Swap(u), WordAtBe(data, p)) == Swap(Xor(u, WordAt(data, p)))
  {
    hide Xor, Swap, WordOf;
    SwapWord(data[p], data[p + 1], data[p + 2], data[p + 3]);
    SwapXor(u, WordAt(data, p));
  }

  /** CrcUpdateT1_BeT4. */
  method CrcUpdateBeT4(v0: bv32, data: seq<bv8>, address: nat, table: array<bv32>, ghost k: bv32) returns (v: bv32)
    requires SwappedOk(table[..], 4, k)
    ensures v == Crc(WORD, v0, data, k)
  {
    hide SwappedOk, Bits, Zeros, Crc, WordAt, WordAtBe, Swap, Xor;
    InSwapped(table[..], 4, k);
    assert data[0..] == data;
    v := Swap(v0);
    ghost var u := v0;
    var p;
    v, p, u := UpdateBytesBe(v, data, 0, address, 4, table, u, k);
    while |data| - p >= 4
      invariant p <= |data| && v == Swap(u) && Crc(WORD, u, data[p..], k) == Crc(WORD, v0, data, k)
    {
      FourBytes(u, data, p, k);
      SwappedSum(u, data, p);
      ghost var x := Xor(u, WordAt(data, p));
      v := FourLookupsBe(Xor(v, WordAtBe(data, p)), 0, table, x, k);
      u := Zeros(WORD, x, 32, k);
      p := p + 4;
    }
    v, p, u := UpdateBytesBe(v, data, p, address, 0, table, u, k);
    CrcOfNothing(WORD, u, data[p..], k);
    SwapTwice(u);
    v := Swap(v);
  }

  /** CrcUpdateT1_BeT8. */
  method CrcUpdateBeT8(v0: bv32, data: seq<bv8>, address: nat, table: array<bv32>, ghost k: bv32) returns (v: bv32)
    requires SwappedOk(table[..], 8, k)
    ensures v == Crc(WORD, v0, data, k)
  {
    hide SwappedOk, Bits, Zeros, Crc, WordAt, WordAtBe, Swap, Xor;
    InSwapped(table[..], 8, k);
    assert data[0..] == data;
    v := Swap(v0);
    ghost var u := v0;
    var p;
    v, p, u := UpdateBytesBe(v, data, 0, address, 8, table, u, k);
    while |data| - p >= 8
      invariant p <= |data| && v == Swap(u) && Crc(WORD, u, data[p..], k) == Crc(WORD, v0, data, k)
    {
      EightBytes(u, data, p, k);
      SwappedSum(u, data, p);
      SwappedSum(u, data, p + 4);
      ghost var x1, x2 := Xor(u, WordAt(data, p)), WordAt(data, p + 4);
      v := FourLookupsBe(Xor(v, WordAtBe(data, p)), 4, table, x1, k);
      var d := FourLookupsBe(WordAtBe(data, p + 4), 0, table, x2, k);
      v := Xor(v, d);
      SwapXor(Zeros(WORD, x1, 64, k), Zeros(WORD, x2, 32, k));
      u := Xor(Zeros(WORD, x1, 64, k), Zeros(WORD, x2, 32, k));
      p := p + 8;
    }
    v, p, u := UpdateBytesBe(v, data, p, address, 0, table, u, k);
    CrcOfNothing(WORD, u, data[p..], k);
    SwapTwice(u);
    v := Swap(v);
  }
}
