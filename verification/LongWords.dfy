/** Registers of 64 bits. */
module LongWords {
  import opened Registers
  import W = Words

  function Xor(a: bv64, b: bv64): bv64 {
    a ^ b
  }

  function Half(v: bv64): bv64 {
    v >> 1
  }

  predicate Odd(v: bv64) {
    v & 1 == 1
  }

  function Lowest(v: bv64): bv64 {
    v & 1
  }

  function Wide(b: bv8): bv64 {
    b as bv64
  }

  function Low(v: bv64): bv8 {
    (v & 0xFF) as bv8
  }

  const LONG: Register<bv64> := Register(Xor, 0, Half, Odd, Lowest, Wide, Low)

  function Up8(v: bv64): bv64 {
    v << 8
  }

  function Down8(v: bv64): bv64 {
    v >> 8
  }

  /** The low half as a word, and a word as a register. */
  function Narrow(v: bv64): bv32 {
    (v & 0xFFFF_FFFF) as bv32
  }

  function Widened(w: bv32): bv64 {
    w as bv64
  }

  function Down32(v: bv64): bv64 {
    v >> 32
  }

  function Up32(v: bv64): bv64 {
    v << 32
  }

  // ---------- Algebra ----------

  lemma LongLaws()
    ensures Lawful(LONG)
  {
    forall a: bv64, b: bv64, c: bv64 ensures SumLaw(LONG, a, b, c) {
      XorSums(a, b, c);
    }
    forall a: bv64, b: bv64 ensures BitLaw(LONG, a, b) {
      XorBits(a, b);
    }
    forall v: bv64, b: bv8 ensures ByteLaw(LONG, v, b) {
      XorBytes(v, b);
    }
  }

  lemma XorSums(a: bv64, b: bv64, c: bv64)
    ensures SumLaw(LONG, a, b, c)
  {
    hide Xor;
    XorOrder(a, b);
    XorGroups(a, b, c);
    XorSelf(a);
  }

  lemma XorOrder(a: bv64, b: bv64)
    ensures Xor(a, b) == Xor(b, a)
  {
  }

  lemma XorGroups(a: bv64, b: bv64, c: bv64)
    ensures Xor(Xor(a, b), c) == Xor(a, Xor(b, c))
  {
    hide Xor;
    var x, y := Xor(a, b), Xor(b, c);
    XorIs(a, b);
    XorIs(b, c);
    XorIs(x, c);
    XorIs(a, y);
    Groups(a, b, c, x, y, Xor(x, c), Xor(a, y));
  }

  lemma XorIs(a: bv64, b: bv64)
    ensures Xor(a, b) == a ^ b
  {
  }

  lemma Groups(a: bv64, b: bv64, c: bv64, x: bv64, y: bv64, u: bv64, v: bv64)
    requires x == a ^ b && y == b ^ c && u == x ^ c && v == a ^ y
    ensures u == v
  {
  }

  lemma XorSelf(a: bv64)
    ensures Xor(a, 0) == a && Xor(a, a) == 0
  {
  }

  lemma XorBits(a: bv64, b: bv64)
    ensures BitLaw(LONG, a, b)
  {
    hide Xor, Half, Odd, Lowest;
    XorOdd(a, b);
    XorHalf(a, b);
    LowestPart(a);
  }

  lemma XorOdd(a: bv64, b: bv64)
    ensures Odd(Xor(a, b)) <==> (Odd(a) != Odd(b))
  {
  }

  lemma XorHalf(a: bv64, b: bv64)
    ensures Half(Xor(a, b)) == Xor(Half(a), Half(b))
  {
  }

  lemma LowestPart(v: bv64)
    ensures !Odd(Xor(v, Lowest(v))) && Half(Lowest(v)) == 0
  {
  }

  lemma XorBytes(v: bv64, b: bv8)
    ensures ByteLaw(LONG, v, b)
  {
    hide Xor, Wide, Low, Down, LowEmpty, Up8, Down8;
    LowApart(v);
    UpEmpty(Down8(v));
    WideDown(b);
    LowXor(v, b);
  }

  lemma LowApart(v: bv64)
    ensures Xor(v, Wide(Low(v))) == Up8(Down8(v))
  {
    hide Xor, Wide, Low, Up8, Down8;
    var b, rest := Wide(Low(v)), Up8(Down8(v));
    LowAndRest(v);
    XorGroups(rest, b, b);
    XorOrder(rest, b);
    XorSelf(b);
    XorSelf(rest);
  }

  lemma LowAndRest(v: bv64)
    ensures v == Xor(Wide(Low(v)), Up8(Down8(v)))
  {
  }

  lemma UpEmpty(v: bv64)
    ensures LowEmpty(LONG, Up8(v), 8)
  {
  }

  lemma WideDown(b: bv8)
    ensures Down(LONG, Wide(b), 8) == 0
  {
  }

  lemma LowXor(v: bv64, b: bv8)
    ensures Low(Xor(v, Wide(b))) == Low(v) ^ b
  {
  }

  lemma DownByte(v: bv64)
    ensures Down(LONG, v, 8) == Down8(v)
  {
  }

  /** The condition of the table generator without its branch: k & ~((r & 1) - 1). */
  lemma Branchless(r: bv64, k: bv64)
    ensures (r >> 1) ^ (k & !((r & 1) - 1)) == if Odd(r) then Xor(Half(r), k) else Half(r)
  {
  }

  /** Bytes and what is above them. */
  lemma BytesDown(v: bv64)
    ensures Down(LONG, v, 0) == v && Down(LONG, v, 8) == Down8(v) && Down(LONG, v, 16) == Down8(Down8(v)) &&
            Down(LONG, v, 24) == Down8(Down8(Down8(v))) && Down(LONG, v, 32) == Down32(v)
  {
    hide Down8, Xor, Half, Odd, Lowest, Wide, Low, Down, Down32;
    DownSum(LONG, v, 8, 8);
    DownSum(LONG, v, 16, 8);
    DownSum(LONG, v, 24, 8);
    DownByte(v);
    DownByte(Down8(v));
    DownByte(Down8(Down8(v)));
    DownByte(Down8(Down8(Down8(v))));
    NoBits(LONG, v, v, v);
    FourDown(v);
  }

  lemma FourDown(v: bv64)
    ensures Down8(Down8(Down8(Down8(v)))) == Down32(v)
  {
  }

  // ---------- Words in a register ----------

  /** The low bytes of a register are those of its low half. */
  lemma NarrowBytes(v: bv64)
    ensures var w := Narrow(v);
            Low(v) == W.Byte(w, 0) && Low(Down8(v)) == W.Byte(w, 1) && Low(Down8(Down8(v))) == W.Byte(w, 2) &&
            Low(Down8(Down8(Down8(v)))) == W.Byte(w, 3)
  {
  }

  lemma WidenedHalves(v: bv64, w: bv32)
    ensures Narrow(Xor(v, Widened(w))) == W.Xor(Narrow(v), w) && Down32(Xor(v, Widened(w))) == Down32(v)
    ensures Narrow(Widened(w)) == w && Down32(Widened(w)) == 0
  {
    hide Narrow, Widened, Xor, Down32, W.Xor;
    LowHalf(v, w);
    HighHalf(v, w);
    OnlyLowHalf(w);
  }

  lemma LowHalf(v: bv64, w: bv32)
    ensures Narrow(Xor(v, Widened(w))) == W.Xor(Narrow(v), w)
  {
  }

  lemma HighHalf(v: bv64, w: bv32)
    ensures Down32(Xor(v, Widened(w))) == Down32(v)
  {
  }

  lemma OnlyLowHalf(w: bv32)
    ensures Narrow(Widened(w)) == w && Down32(Widened(w)) == 0
  {
  }

  // ---------- The other byte order ----------

  /** CRC_UINT64_SWAP. */
  function Swap(v: bv64): bv64 {
    (v >> 56) | ((v >> 40) & (0xFF << 8)) | ((v >> 24) & (0xFF << 16)) | ((v >> 8) & (0xFF << 24)) |
    ((v << 8) & (0xFF << 32)) | ((v << 24) & (0xFF << 40)) | ((v << 40) & (0xFF << 48)) | (v << 56)
  }

  /** Byte j of a register, 0 the lowest. */
  function Byte(v: bv64, j: nat): bv8
    requires j < 8
  {
    if j == 0 then (v & 0xFF) as bv8
    else if j == 1 then ((v >> 8) & 0xFF) as bv8
    else if j == 2 then ((v >> 16) & 0xFF) as bv8
    else if j == 3 then ((v >> 24) & 0xFF) as bv8
    else if j == 4 then ((v >> 32) & 0xFF) as bv8
    else if j == 5 then ((v >> 40) & 0xFF) as bv8
    else if j == 6 then ((v >> 48) & 0xFF) as bv8
    else (v >> 56) as bv8
  }

  function LongOf(b0: bv8, b1: bv8, b2: bv8, b3: bv8, b4: bv8, b5: bv8, b6: bv8, b7: bv8): bv64 {
    (b7 as bv64 << 56) | (b6 as bv64 << 48) | (b5 as bv64 << 40) | (b4 as bv64 << 32) |
    (b3 as bv64 << 24) | (b2 as bv64 << 16) | (b1 as bv64 << 8) | b0 as bv64
  }

  lemma SwappedLong(v: bv64)
    ensures Swap(v) == LongOf(Byte(v, 7), Byte(v, 6), Byte(v, 5), Byte(v, 4), Byte(v, 3), Byte(v, 2), Byte(v, 1), Byte(v, 0))
  {
  }

  lemma SwapXor(a: bv64, b: bv64)
    ensures Swap(Xor(a, b)) == Xor(Swap(a), Swap(b))
  {
  }

  lemma SwapTwice(v: bv64)
    ensures Swap(Swap(v)) == v
  {
  }

  lemma SwapTop(v: bv64)
    ensures Byte(Swap(v), 7) == Low(v)
  {
  }

  lemma SwapDown(v: bv64)
    ensures Up8(Swap(v)) == Swap(Down8(v))
  {
    hide Swap, Up8, Down8, Byte, LongOf;
    SwappedLong(v);
    SwappedLong(Down8(v));
    BytesDownOne(v);
    LongUp(Byte(v, 7), Byte(v, 6), Byte(v, 5), Byte(v, 4), Byte(v, 3), Byte(v, 2), Byte(v, 1), Byte(v, 0));
  }

  lemma BytesDownOne(v: bv64)
    ensures var d := Down8(v);
            Byte(d, 0) == Byte(v, 1) && Byte(d, 1) == Byte(v, 2) && Byte(d, 2) == Byte(v, 3) && Byte(d, 3) == Byte(v, 4) &&
            Byte(d, 4) == Byte(v, 5) && Byte(d, 5) == Byte(v, 6) && Byte(d, 6) == Byte(v, 7) && Byte(d, 7) == 0
  {
  }

  lemma LongUp(b0: bv8, b1: bv8, b2: bv8, b3: bv8, b4: bv8, b5: bv8, b6: bv8, b7: bv8)
    ensures Up8(LongOf(b0, b1, b2, b3, b4, b5, b6, b7)) == LongOf(0, b0, b1, b2, b3, b4, b5, b6)
  {
  }

  lemma SwapHalves(v: bv64)
    ensures Up32(Swap(v)) == Swap(Down32(v)) && Narrow(Down32(Swap(v))) == W.Swap(Narrow(v))
  {
    hide Swap, Up32, Down32, Byte, LongOf, W.Swap, W.WordOf, W.Byte, Narrow, Low, Down8;
    SwappedLong(v);
    SwappedLong(Down32(v));
    BytesDownFour(v);
    LongHalves(Byte(v, 7), Byte(v, 6), Byte(v, 5), Byte(v, 4), Byte(v, 3), Byte(v, 2), Byte(v, 1), Byte(v, 0));
    W.SwappedWord(Narrow(v));
    NarrowBytes(v);
    LowBytes(v);
  }

  lemma BytesDownFour(v: bv64)
    ensures var d := Down32(v);
            Byte(d, 0) == Byte(v, 4) && Byte(d, 1) == Byte(v, 5) && Byte(d, 2) == Byte(v, 6) && Byte(d, 3) == Byte(v, 7) &&
            Byte(d, 4) == 0 && Byte(d, 5) == 0 && Byte(d, 6) == 0 && Byte(d, 7) == 0
  {
  }

  lemma LongHalves(b0: bv8, b1: bv8, b2: bv8, b3: bv8, b4: bv8, b5: bv8, b6: bv8, b7: bv8)
    ensures var v := LongOf(b0, b1, b2, b3, b4, b5, b6, b7);
            Up32(v) == LongOf(0, 0, 0, 0, b0, b1, b2, b3) && Narrow(Down32(v)) == W.WordOf(b4, b5, b6, b7)
  {
  }

  lemma LowBytes(v: bv64)
    ensures Byte(v, 0) == Low(v) && Byte(v, 1) == Low(Down8(v)) && Byte(v, 2) == Low(Down8(Down8(v))) && Byte(v, 3) == Low(Down8(Down8(Down8(v))))
  {
  }
}
