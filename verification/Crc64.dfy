/** CRC-64: four bytes at a time through a register of eight, little-endian and byte-swapped. */
module Crc64 {
  import opened Registers
  import opened LongWords
  import W = Words

  const POLY: bv64 := 0xC96C_5795_D787_0F42

  // ---------- The table ----------

  /** Crc64GenerateTable. */
  method GenerateTable(numTables: nat) returns (table: array<bv64>)
    requires numTables > 0
    ensures fresh(table) && table.Length == 256 * numTables && TablesOk(LONG, table[..], numTables, POLY)
  {
    hide Entry, Xor, Down8, Low, Down;
    table := new bv64[256 * numTables];
    LongLaws();
    var i := 0;
    while i < 256
      invariant 0 <= i <= 256 && forall j | 0 <= j < i :: table[j] == Entry(LONG, j, POLY)
    {
      table[i] := ByteEntry(i, POLY);
      i := i + 1;
    }
    while i < 256 * numTables
      invariant 256 <= i <= 256 * numTables && forall j | 0 <= j < i :: table[j] == Entry(LONG, j, POLY)
    {
      var r := table[i - 256];
      NextEntry(LONG, i, POLY);
      DownByte(r);
      table[i] := Xor(table[At(0, Low(r))], Down8(r));
      i := i + 1;
    }
  }

  method ByteEntry(i: nat, k: bv64) returns (r: bv64)
    requires i < 256
    ensures r == Entry(LONG, i, k)
  {
    hide Zeros, Xor, Half, Odd, Wide;
    r := Wide(i as bv8);
    var j := 0;
    while j < 8
      invariant 0 <= j <= 8 && Zeros(LONG, r, 8 - j, k) == Zeros(LONG, Wide(i as bv8), 8, k)
    {
      ZerosStep(LONG, r, 8 - j, k);
      Branchless(r, k);
      r := (r >> 1) ^ (k & !((r & 1) - 1));
      j := j + 1;
    }
    NoBits(LONG, r, r, k);
  }

  // ---------- Little-endian ----------

  lemma ByteStep(v: bv64, b: bv8, k: bv64)
    ensures Xor(Entry(LONG, At(0, Meets(Low(v), b)), k), Down8(v)) == Bits(LONG, v, Wide(b), 8, k)
  {
    hide Bits, Xor, Down8, At, Wide, Low, Entry, Down, Meets;
    LongLaws();
    ByteThrough(LONG, v, b, k);
    DownByte(v);
  }

  method UpdateByte(v: bv64, b: bv8, table: array<bv64>, ghost k: bv64) returns (r: bv64)
    requires TablesOk(LONG, table[..], 1, k)
    ensures r == Bits(LONG, v, Wide(b), 8, k)
  {
    hide Bits, Xor, Down8, At, Wide, Low, Entry, Down, Meets;
    ByteStep(v, b, k);
    r := Xor(table[At(0, Meets(Low(v), b))], Down8(v));
  }

  /** Single bytes, up to an address that is a multiple of four, or to the end. */
  method UpdateBytes(v0: bv64, data: seq<bv8>, p0: nat, address: nat, toTheEnd: bool, table: array<bv64>, ghost k: bv64)
    returns (v: bv64, p: nat)
    requires TablesOk(LONG, table[..], 1, k) && p0 <= |data|
    ensures p0 <= p <= |data| && Crc(LONG, v, data[p..], k) == Crc(LONG, v0, data[p0..], k)
    ensures p == |data| || (!toTheEnd && (address + p) % 4 == 0)
  {
    hide TablesOk, Bits;
    v, p := v0, p0;
    while p < |data| && (toTheEnd || (address + p) % 4 != 0)
      invariant p0 <= p <= |data| && Crc(LONG, v, data[p..], k) == Crc(LONG, v0, data[p0..], k)
    {
      assert data[p..][1..] == data[p + 1..];
      v := UpdateByte(v, data[p], table, k);
      p := p + 1;
    }
  }

  function WordAt(data: seq<bv8>, p: nat): bv32
    requires p + 4 <= |data|
  {
    W.WordOf(data[p], data[p + 1], data[p + 2], data[p + 3])
  }

  /** A word spells its bytes in the longer register too. */
  lemma WordSpells(b0: bv8, b1: bv8, b2: bv8, b3: bv8)
    ensures var w := Widened(W.WordOf(b0, b1, b2, b3)); Spells(LONG, w, [b0, b1, b2, b3]) && Down(LONG, w, 32) == 0
  {
    hide Down8, Down32, Low, Down, Narrow, Widened, W.WordOf, W.Byte, W.Low, W.Down8;
    var w := W.WordOf(b0, b1, b2, b3);
    BytesDown(Widened(w));
    NarrowBytes(Widened(w));
    OnlyLowHalf(w);
    W.BytesLow(w);
    W.WordBytes(b0, b1, b2, b3);
  }

  lemma FourBytes(v: bv64, data: seq<bv8>, p: nat, k: bv64)
    requires p + 4 <= |data|
    ensures Crc(LONG, v, data[p..], k) == Crc(LONG, Zeros(LONG, Xor(v, Widened(WordAt(data, p))), 32, k), data[p + 4..], k)
  {
    hide Zeros, Crc, Xor, Widened, W.WordOf, Down, Spells;
    LongLaws();
    WordSpells(data[p], data[p + 1], data[p + 2], data[p + 3]);
    assert data[p..][..4] == [data[p], data[p + 1], data[p + 2], data[p + 3]] && data[p..][4..] == data[p + 4..];
    WordAtOnce(LONG, v, Widened(WordAt(data, p)), data[p..], 4, k);
  }

  /** The upper half moves down, the lower half goes through four tables with the word. */
  lemma WordThrough(v: bv64, w: bv32, k: bv64)
    ensures var d := W.Xor(Narrow(v), w);
            Zeros(LONG, Xor(v, Widened(w)), 32, k) ==
            Xor(Xor(Xor(Xor(Down32(v), Entry(LONG, At(3, W.Byte(d, 0)), k)), Entry(LONG, At(2, W.Byte(d, 1)), k)),
                    Entry(LONG, At(1, W.Byte(d, 2)), k)),
                Entry(LONG, At(0, W.Byte(d, 3)), k))
  {
    hide Zeros, Xor, Low, Down8, Down32, Narrow, Widened, Entry, At, Down, W.Xor, W.Byte;
    var x := Xor(v, Widened(w));
    var d := W.Xor(Narrow(v), w);
    LongLaws();
    FourThrough(LONG, x, 0, k);
    BytesDown(x);
    NarrowBytes(x);
    WidenedHalves(v, w);
    NoBits(LONG, Down32(x), x, k);
    Carried(LONG, Entry(LONG, At(3, W.Byte(d, 0)), k), Entry(LONG, At(2, W.Byte(d, 1)), k), Entry(LONG, At(1, W.Byte(d, 2)), k),
            Entry(LONG, At(0, W.Byte(d, 3)), k), Down32(v));
  }

  /** XzCrc64UpdateT4. */
  method XzCrc64UpdateT4(v0: bv64, data: seq<bv8>, address: nat, table: array<bv64>, ghost k: bv64) returns (v: bv64)
    requires TablesOk(LONG, table[..], 4, k)
    ensures v == Crc(LONG, v0, data, k)
  {
    hide TablesOk, Bits, Zeros, Crc, WordAt;
    InTables(LONG, table[..], 4, k);
    assert data[0..] == data;
    var p;
    v, p := UpdateBytes(v0, data, 0, address, false, table, k);
    while |data| - p >= 4
      invariant p <= |data| && Crc(LONG, v, data[p..], k) == Crc(LONG, v0, data, k)
    {
      FourBytes(v, data, p, k);
      v := FourLookups(v, WordAt(data, p), table, k);
      p := p + 4;
    }
    v, p := UpdateBytes(v, data, p, address, true, table, k);
    CrcOfNothing(LONG, v, data[p..], k);
  }

  /** One unrolled step. */
  method FourLookups(v: bv64, w: bv32, table: array<bv64>, ghost k: bv64) returns (r: bv64)
    requires TablesOk(LONG, table[..], 4, k)
    ensures r == Zeros(LONG, Xor(v, Widened(w)), 32, k)
  {
    hide Zeros, Xor, Down32, Narrow, Widened, Entry, At, W.Xor, W.Byte;
    WordThrough(v, w, k);
    var d := W.Xor(Narrow(v), w);
    r := Xor(Xor(Xor(Xor(Down32(v), table[At(3, W.Byte(d, 0))]), table[At(2, W.Byte(d, 1))]), table[At(1, W.Byte(d, 2))]),
             table[At(0, W.Byte(d, 3))]);
  }

  // ---------- Byte-swapped ----------

  /** The tables behind the first 256 entries, every entry with its bytes in the other order. */
  ghost predicate SwappedOk(t: seq<bv64>, n: nat, k: bv64) {
    256 * (n + 1) <= |t| && forall i | 0 <= i < 256 * n :: t[256 + i] == Swap(Entry(LONG, i, k))
  }

  method SwapTables(table: array<bv64>, n: nat, k: bv64)
    requires table.Length == 256 * (n + 1) && TablesOk(LONG, table[..], n + 1, k)
    modifies table
    ensures SwappedOk(table[..], n, k)
  {
    hide Entry, Swap;
    var i := 256 * (n + 1);
    while i > 256
      invariant 256 <= i <= 256 * (n + 1)
      invariant forall j | 0 <= j < i :: table[j] == Entry(LONG, j, k)
      invariant forall j | i <= j < 256 * (n + 1) :: table[j] == Swap(Entry(LONG, j - 256, k))
    {
      i := i - 1;
      var x := table[i - 256];
      table[i] := Swap(x);
    }
  }

  lemma InSwapped(t: seq<bv64>, n: nat, k: bv64)
    requires SwappedOk(t, n, k)
    ensures 256 * (n + 1) <= |t| && forall m: nat | m <= n :: SwappedOk(t, m, k)
  {
  }

  method UpdateByteBe(v: bv64, b: bv8, table: array<bv64>, ghost u: bv64, ghost k: bv64) returns (r: bv64)
    requires SwappedOk(table[..], 1, k) && v == Swap(u)
    ensures r == Swap(Bits(LONG, u, Wide(b), 8, k))
  {
    hide Bits, Byte, Xor, Down8, At, Wide, Swap, Up8, Entry, Low, Down, Meets;
    ghost var e := Entry(LONG, At(0, Meets(Low(u), b)), k);
    ByteStep(u, b, k);
    SwapTop(u);
    SwapXor(e, Down8(u));
    SwapDown(u);
    r := Xor(table[256 + At(0, Meets(Byte(v, 7), b))], Up8(v));
  }

  method UpdateBytesBe(v0: bv64, data: seq<bv8>, p0: nat, address: nat, toTheEnd: bool, table: array<bv64>, ghost u0: bv64, ghost k: bv64)
    returns (v: bv64, p: nat, ghost u: bv64)
    requires SwappedOk(table[..], 1, k) && p0 <= |data| && v0 == Swap(u0)
    ensures p0 <= p <= |data| && v == Swap(u) && Crc(LONG, u, data[p..], k) == Crc(LONG, u0, data[p0..], k)
    ensures p == |data| || (!toTheEnd && (address + p) % 4 == 0)
  {
    hide SwappedOk, Bits, Swap;
    v, p, u := v0, p0, u0;
    while p < |data| && (toTheEnd || (address + p) % 4 != 0)
      invariant p0 <= p <= |data| && v == Swap(u) && Crc(LONG, u, data[p..], k) == Crc(LONG, u0, data[p0..], k)
    {
      assert data[p..][1..] == data[p + 1..];
      v := UpdateByteBe(v, data[p], table, u, k);
      u := Bits(LONG, u, Wide(data[p]), 8, k);
      p := p + 1;
    }
  }

  lemma SwapFive(e: bv64, a: bv64, b: bv64, c: bv64, d: bv64)
    ensures Swap(Xor(Xor(Xor(Xor(e, a), b), c), d)) == Xor(Xor(Xor(Xor(Swap(e), Swap(d)), Swap(c)), Swap(b)), Swap(a))
  {
    hide Xor, Swap;
    LongLaws();
    SwapXor(Xor(Xor(Xor(e, a), b), c), d);
    SwapXor(Xor(Xor(e, a), b), c);
    SwapXor(Xor(e, a), b);
    SwapXor(e, a);
    CarriedReversed(LONG, Swap(a), Swap(b), Swap(c), Swap(d), Swap(e));
  }

  /** What the word meets in a swapped register. */
  lemma SwappedWord(u: bv64, w: bv32)
    ensures var d := W.Xor(Narrow(u), w);
            var d' := W.Xor(Narrow(Down32(Swap(u))), W.Swap(w));
            W.Byte(d', 0) == W.Byte(d, 3) && W.Byte(d', 1) == W.Byte(d, 2) && W.Byte(d', 2) == W.Byte(d, 1) && W.Byte(d', 3) == W.Byte(d, 0)
  {
    hide Narrow, Down32, Swap, W.Xor, W.Swap, W.Byte;
    SwapHalves(u);
    W.SwapXor(Narrow(u), w);
    W.SwapBytes(W.Xor(Narrow(u), w));
  }

  /** One unrolled step; w is the word in little-endian order. */
  method FourLookupsBe(v: bv64, y: bv32, table: array<bv64>, ghost u: bv64, ghost w: bv32, ghost k: bv64) returns (r: bv64)
    requires SwappedOk(table[..], 4, k) && v == Swap(u) && y == W.Swap(w)
    ensures r == Swap(Zeros(LONG, Xor(u, Widened(w)), 32, k))
  {
    hide Zeros, Xor, Down32, Up32, Narrow, Widened, Entry, At, Swap, W.Xor, W.Byte, W.Swap;
    ghost var c := W.Xor(Narrow(u), w);
    WordThrough(u, w, k);
    SwappedWord(u, w);
    SwapHalves(u);
    SwapFive(Down32(u), Entry(LONG, At(3, W.Byte(c, 0)), k), Entry(LONG, At(2, W.Byte(c, 1)), k), Entry(LONG, At(1, W.Byte(c, 2)), k),
             Entry(LONG, At(0, W.Byte(c, 3)), k));
    var d := W.Xor(Narrow(Down32(v)), y);
    r := Xor(Xor(Xor(Xor(Up32(v), table[256 + At(0, W.Byte(d, 0))]), table[256 + At(1, W.Byte(d, 1))]), table[256 + At(2, W.Byte(d, 2))]),
             table[256 + At(3, W.Byte(d, 3))]);
  }

  /** XzCrc64UpdateT1_BeT4. */
  method XzCrc64UpdateBeT4(v0: bv64, data: seq<bv8>, address: nat, table: array<bv64>, ghost k: bv64) returns (v: bv64)
    requires SwappedOk(table[..], 4, k)
    ensures v == Crc(LONG, v0, data, k)
  {
    hide SwappedOk, Bits, Zeros, Crc, WordAt, Swap, Xor, Widened, W.Swap, W.WordOf;
    InSwapped(table[..], 4, k);
    assert data[0..] == data;
    v := Swap(v0);
    ghost var u := v0;
    var p;
    v, p, u := UpdateBytesBe(v, data, 0, address, false, table, u, k);
    while |data| - p >= 4
      invariant p <= |data| && v == Swap(u) && Crc(LONG, u, data[p..], k) == Crc(LONG, v0, data, k)
    {
      FourBytes(u, data, p, k);
      W.SwapWord(data[p], data[p + 1], data[p + 2], data[p + 3]);
      ghost var w := WordAt(data, p);
      assert w == W.WordOf(data[p], data[p + 1], data[p + 2], data[p + 3]) by {
        WordIs(data, p);
      }
      v := FourLookupsBe(v, W.WordOf(data[p + 3], data[p + 2], data[p + 1], data[p]), table, u, w, k);
      u := Zeros(LONG, Xor(u, Widened(w)), 32, k);
      p := p + 4;
    }
    v, p, u := UpdateBytesBe(v, data, p, address, true, table, u, k);
    CrcOfNothing(LONG, u, data[p..], k);
    SwapTwice(u);
    v := Swap(v);
  }

  lemma WordIs(data: seq<bv8>, p: nat)
    requires p + 4 <= |data|
    ensures WordAt(data, p) == W.WordOf(data[p], data[p + 1], data[p + 2], data[p + 3])
  {
  }
}
