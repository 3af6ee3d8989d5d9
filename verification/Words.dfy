/** Registers of 32 bits: the operations of the source and their algebra. */
module Words {
  import opened Registers

  function Xor(a: bv32, b: bv32): bv32 {
    a ^ b
  }

  function Half(v: bv32): bv32 {
    v >> 1
  }

  predicate Odd(v: bv32) {
    v & 1 == 1
  }

  function Lowest(v: bv32): bv32 {
    v & 1
  }

  function Wide(b: bv8): bv32 {
    b as bv32
  }

  function Low(v: bv32): bv8 {
    (v & 0xFF) as bv8
  }

  const WORD: Register<bv32> := Register(Xor, 0, Half, Odd, Lowest, Wide, Low)

  function Up8(v: bv32): bv32 {
    v << 8
  }

  function Down8(v: bv32): bv32 {
    v >> 8
  }

  /** Byte j of a word, 0 the lowest. */
  function Byte(v: bv32, j: nat): bv8
    requires j < 4
  {
    if j == 0 then (v & 0xFF) as bv8
    else if j == 1 then ((v >> 8) & 0xFF) as bv8
    else if j == 2 then ((v >> 16) & 0xFF) as bv8
    else (v >> 24) as bv8
  }

  /** The four bytes as they stand in memory, read as one little-endian word. */
  function WordOf(b0: bv8, b1: bv8, b2: bv8, b3: bv8): bv32 {
    (b3 as bv32 << 24) | (b2 as bv32 << 16) | (b1 as bv32 << 8) | (b0 as bv32)
  }

  // ---------- Algebra ----------

  lemma WordLaws()
    ensures Lawful(WORD)
  {
    forall a: bv32, b: bv32, c: bv32 ensures SumLaw(WORD, a, b, c) {
      XorSums(a, b, c);
    }
    forall a: bv32, b: bv32 ensures BitLaw(WORD, a, b) {
      XorBits(a, b);
    }
    forall v: bv32, b: bv8 ensures ByteLaw(WORD, v, b) {
      XorBytes(v, b);
    }
  }

  lemma XorSums(a: bv32, b: bv32, c: bv32)
    ensures SumLaw(WORD, a, b, c)
  {
    hide Xor;
    XorOrder(a, b);
    XorGroups(a, b, c);
    XorSelf(a);
  }

  lemma XorOrder(a: bv32, b: bv32)
    ensures Xor(a, b) == Xor(b, a)
  {
  }

  lemma XorGroups(a: bv32, b: bv32, c: bv32)
    ensures Xor(Xor(a, b), c) == Xor(a, Xor(b, c))
  {
  }

  lemma XorSelf(a: bv32)
    ensures Xor(a, 0) == a && Xor(a, a) == 0
  {
  }

  lemma XorBits(a: bv32, b: bv32)
    ensures BitLaw(WORD, a, b)
  {
    hide Xor, Half, Odd, Lowest;
    XorOdd(a, b);
    XorHalf(a, b);
    LowestPart(a);
  }

  lemma XorOdd(a: bv32, b: bv32)
    ensures Odd(Xor(a, b)) <==> (Odd(a) != Odd(b))
  {
  }

  lemma XorHalf(a: bv32, b: bv32)
    ensures Half(Xor(a, b)) == Xor(Half(a), Half(b))
  {
  }

  lemma LowestPart(v: bv32)
    ensures !Odd(Xor(v, Lowest(v))) && Half(Lowest(v)) == 0
  {
  }

  lemma XorBytes(v: bv32, b: bv8)
    ensures ByteLaw(WORD, v, b)
  {
    hide Xor, Wide, Low, Down, LowEmpty, Up8, Down8;
    LowApart(v);
    UpEmpty(Down8(v));
    WideDown(b);
    LowXor(v, b);
  }

  lemma LowApart(v: bv32)
    ensures Xor(v, Wide(Low(v))) == Up8(Down8(v))
  {
    hide Xor, Wide, Low, Up8, Down8;
    var b, rest := Wide(Low(v)), Up8(Down8(v));
    LowAndRest(v);
    XorGroups(rest, b, b);
    XorOrder(rest, b);
    XorSelf(b);
    XorSelf(rest);
  }

  lemma LowAndRest(v: bv32)
    ensures v == Xor(Wide(Low(v)), Up8(Down8(v)))
  {
  }

  lemma UpEmpty(v: bv32)
    ensures LowEmpty(WORD, Up8(v), 8)
  {
  }

  lemma WideDown(b: bv8)
    ensures Down(WORD, Wide(b), 8) == 0
  {
  }

  lemma LowXor(v: bv32, b: bv8)
    ensures Low(Xor(v, Wide(b))) == Low(v) ^ b
  {
  }

  lemma DownByte(v: bv32)
    ensures Down(WORD, v, 8) == Down8(v)
  {
  }

  /** The condition of the table generator without its branch: k & ~((r & 1) - 1). */
  lemma Branchless(r: bv32, k: bv32)
    ensures (r >> 1) ^ (k & !((r & 1) - 1)) == if Odd(r) then Xor(Half(r), k) else Half(r)
  {
  }

  /** Bytes and what is above them. */
  lemma BytesDown(v: bv32)
    ensures Down(WORD, v, 0) == v && Down(WORD, v, 8) == Down8(v) && Down(WORD, v, 16) == Down8(Down8(v)) &&
            Down(WORD, v, 24) == Down8(Down8(Down8(v))) && Down(WORD, v, 32) == 0
  {
    hide Down8, Xor, Half, Odd, Lowest, Wide, Low, Down;
    DownSum(WORD, v, 8, 8);
    DownSum(WORD, v, 16, 8);
    DownSum(WORD, v, 24, 8);
    DownByte(v);
    DownByte(Down8(v));
    DownByte(Down8(Down8(v)));
    DownByte(Down8(Down8(Down8(v))));
    NoBits(WORD, v, v, v);
    AllDown(v);
  }

  lemma BytesLow(v: bv32)
    ensures Byte(v, 0) == Low(v) && Byte(v, 1) == Low(Down8(v)) && Byte(v, 2) == Low(Down8(Down8(v))) && Byte(v, 3) == Low(Down8(Down8(Down8(v))))
  {
  }

  lemma AllDown(v: bv32)
    ensures Down8(Down8(Down8(Down8(v)))) == 0
  {
  }

  /** A little-endian word spells its bytes. */
  lemma WordSpells(b0: bv8, b1: bv8, b2: bv8, b3: bv8)
    ensures Spells(WORD, WordOf(b0, b1, b2, b3), [b0, b1, b2, b3]) && Down(WORD, WordOf(b0, b1, b2, b3), 32) == 0
  {
    hide Down8, Xor, Half, Odd, Lowest, Wide, Low, Down, WordOf;
    BytesDown(WordOf(b0, b1, b2, b3));
    WordBytes(b0, b1, b2, b3);
  }

  lemma WordBytes(b0: bv8, b1: bv8, b2: bv8, b3: bv8)
    ensures var v := WordOf(b0, b1, b2, b3);
            Low(v) == b0 && Low(Down8(v)) == b1 && Low(Down8(Down8(v))) == b2 && Low(Down8(Down8(Down8(v)))) == b3
  {
  }

  // ---------- The other byte order ----------

  /** CRC_UINT32_SWAP. */
  function Swap(v: bv32): bv32 {
    (v >> 24) | ((v >> 8) & 0xFF00) | ((v << 8) & 0xFF0000) | (v << 24)
  }

  lemma SwapXor(a: bv32, b: bv32)
    ensures Swap(Xor(a, b)) == Xor(Swap(a), Swap(b))
  {
  }

  lemma SwapTwice(v: bv32)
    ensures Swap(Swap(v)) == v
  {
  }

  lemma SwapBytes(v: bv32)
    ensures Byte(Swap(v), 0) == Byte(v, 3) && Byte(Swap(v), 1) == Byte(v, 2) && Byte(Swap(v), 2) == Byte(v, 1) && Byte(Swap(v), 3) == Byte(v, 0)
  {
  }

  lemma SwapDown(v: bv32)
    ensures Up8(Swap(v)) == Swap(Down8(v))
  {
    hide Swap, Up8, Down8, Byte, WordOf;
    SwappedWord(v);
    SwappedWord(Down8(v));
    DownBytes(v);
    UpWord(Byte(v, 3), Byte(v, 2), Byte(v, 1), Byte(v, 0));
  }

  lemma SwappedWord(v: bv32)
    ensures Swap(v) == WordOf(Byte(v, 3), Byte(v, 2), Byte(v, 1), Byte(v, 0))
  {
  }

  lemma DownBytes(v: bv32)
    ensures Byte(Down8(v), 0) == Byte(v, 1) && Byte(Down8(v), 1) == Byte(v, 2) && Byte(Down8(v), 2) == Byte(v, 3) && Byte(Down8(v), 3) == 0
  {
  }

  lemma UpWord(b0: bv8, b1: bv8, b2: bv8, b3: bv8)
    ensures Up8(WordOf(b0, b1, b2, b3)) == WordOf(0, b0, b1, b2)
  {
  }

  lemma SwapWord(b0: bv8, b1: bv8, b2: bv8, b3: bv8)
    ensures WordOf(b3, b2, b1, b0) == Swap(WordOf(b0, b1, b2, b3))
  {
  }
}
