/** Division by a polynomial over two elements, in a register of any width: one bit after the other,
    and in larger steps through tables (section 8 of RFC 1952). */
module Registers {

  /** A register: its sums, what a shift to the right leaves and what it pushes out, and its low byte. */
  datatype Register<!R> = Register(xor: (R, R) -> R, zero: R, half: R -> R, odd: R -> bool, lowest: R -> R, wide: bv8 -> R, low: R -> bv8)

  ghost predicate SumLaw<R>(g: Register<R>, a: R, b: R, c: R) {
    g.xor(a, b) == g.xor(b, a) && g.xor(g.xor(a, b), c) == g.xor(a, g.xor(b, c)) && g.xor(a, g.zero) == a && g.xor(a, a) == g.zero
  }

  ghost predicate BitLaw<R>(g: Register<R>, a: R, b: R) {
    (g.odd(g.xor(a, b)) <==> g.odd(a) != g.odd(b)) && g.half(g.xor(a, b)) == g.xor(g.half(a), g.half(b)) &&
    !g.odd(g.xor(a, g.lowest(a))) && g.half(g.lowest(a)) == g.zero
  }

  ghost predicate ByteLaw<R>(g: Register<R>, v: R, b: bv8) {
    LowEmpty(g, g.xor(v, g.wide(g.low(v))), 8) && Down(g, g.wide(b), 8) == g.zero && g.low(g.xor(v, g.wide(b))) == g.low(v) ^ b
  }

  ghost predicate Lawful<R(!new)>(g: Register<R>) {
    (forall a: R, b: R, c: R :: SumLaw(g, a, b, c)) && (forall a: R, b: R :: BitLaw(g, a, b)) && (forall v: R, b: bv8 :: ByteLaw(g, v, b))
  }

  // ---------- Bit by bit ----------

  /** One zero bit through the register: division by the polynomial k. */
  function Shift<R>(g: Register<R>, v: R, k: R): R {
    if g.odd(v) then g.xor(g.half(v), k) else g.half(v)
  }

  /** n message bits, the lowest of b first. */
  function Bits<R>(g: Register<R>, v: R, b: R, n: nat, k: R): R
    decreases n
  {
    if n == 0 then v else Bits(g, Shift(g, g.xor(v, g.lowest(b)), k), g.half(b), n - 1, k)
  }

  /** The register after the bytes of data, taken bit by bit. */
  function Crc<R>(g: Register<R>, v: R, data: seq<bv8>, k: R): R
    decreases |data|
  {
    if data == [] then v else Crc(g, Bits(g, v, g.wide(data[0]), 8, k), data[1..], k)
  }

  /** n zero bits. */
  function Zeros<R>(g: Register<R>, v: R, n: nat, k: R): R
    decreases n
  {
    if n == 0 then v else Zeros(g, Shift(g, v, k), n - 1, k)
  }

  function Down<R>(g: Register<R>, v: R, n: nat): R
    decreases n
  {
    if n == 0 then v else Down(g, g.half(v), n - 1)
  }

  /** The low n bits are empty. */
  predicate LowEmpty<R>(g: Register<R>, v: R, n: nat)
    decreases n
  {
    n == 0 || (!g.odd(v) && LowEmpty(g, g.half(v), n - 1))
  }

  // ---------- Sums ----------

  lemma Sums<R(!new)>(g: Register<R>, a: R, b: R, c: R)
    requires Lawful(g)
    ensures SumLaw(g, a, b, c)
  {
  }

  lemma HalfOf<R(!new)>(g: Register<R>, a: R, b: R)
    requires Lawful(g)
    ensures BitLaw(g, a, b)
  {
  }

  lemma LowByte<R(!new)>(g: Register<R>, v: R, b: bv8)
    requires Lawful(g)
    ensures ByteLaw(g, v, b)
  {
  }

  /** What was added once more is gone. */
  lemma Cancelled<R(!new)>(g: Register<R>, a: R, b: R)
    requires Lawful(g)
    ensures g.xor(g.xor(a, b), b) == a && g.xor(g.zero, a) == a
  {
    hide Lawful;
    Sums(g, a, b, b);
    Sums(g, b, b, b);
    Sums(g, g.zero, a, a);
    Sums(g, a, a, a);
  }

  /** The inner two change places. */
  lemma Crossed<R(!new)>(g: Register<R>, a: R, b: R, c: R, d: R)
    requires Lawful(g)
    ensures g.xor(g.xor(a, b), g.xor(c, d)) == g.xor(g.xor(a, c), g.xor(b, d))
  {
    hide Lawful;
    Sums(g, a, b, g.xor(c, d));
    Sums(g, b, c, d);
    Sums(g, c, b, d);
    Sums(g, a, c, g.xor(b, d));
  }

  lemma ShiftLinear<R(!new)>(g: Register<R>, a: R, b: R, k: R)
    requires Lawful(g)
    ensures Shift(g, g.xor(a, b), k) == g.xor(Shift(g, a, k), Shift(g, b, k))
  {
    hide Lawful;
    HalfOf(g, a, b);
    var x, y := g.half(a), g.half(b);
    Crossed(g, x, k, y, k);
    Sums(g, k, k, k);
    Sums(g, g.xor(x, y), k, k);
    Sums(g, x, y, k);
    Sums(g, y, k, k);
    Sums(g, x, k, y);
  }

  /** The register is a linear function of what goes in. */
  lemma {:induction false} ZerosLinear<R(!new)>(g: Register<R>, a: R, b: R, n: nat, k: R)
    requires Lawful(g)
    ensures Zeros(g, g.xor(a, b), n, k) == g.xor(Zeros(g, a, n, k), Zeros(g, b, n, k))
    decreases n
  {
    hide Shift, Lawful;
    if n > 0 {
      ShiftLinear(g, a, b, k);
      ZerosLinear(g, Shift(g, a, k), Shift(g, b, k), n - 1, k);
    }
  }

  lemma {:induction false} ZerosSum<R>(g: Register<R>, v: R, m: nat, n: nat, k: R)
    ensures Zeros(g, v, m + n, k) == Zeros(g, Zeros(g, v, m, k), n, k)
    decreases m
  {
    hide Shift;
    if m > 0 {
      ZerosSum(g, Shift(g, v, k), m - 1, n, k);
    }
  }

  lemma {:induction false} DownLinear<R(!new)>(g: Register<R>, a: R, b: R, n: nat)
    requires Lawful(g)
    ensures Down(g, g.xor(a, b), n) == g.xor(Down(g, a, n), Down(g, b, n))
    decreases n
  {
    hide Lawful;
    if n > 0 {
      HalfOf(g, a, b);
      DownLinear(g, g.half(a), g.half(b), n - 1);
    }
  }

  lemma {:induction false} DownSum<R>(g: Register<R>, v: R, m: nat, n: nat)
    ensures Down(g, v, m + n) == Down(g, Down(g, v, m), n)
    decreases m
  {
    if m > 0 {
      DownSum(g, g.half(v), m - 1, n);
    }
  }

  lemma {:induction false} EmptyBits<R>(g: Register<R>, v: R, n: nat, k: R)
    requires LowEmpty(g, v, n)
    ensures Zeros(g, v, n, k) == Down(g, v, n)
    decreases n
  {
    if n > 0 {
      EmptyBits(g, g.half(v), n - 1, k);
    }
  }

  // ---------- Many bits at once ----------

  /** The bits of b above the lowest may be added after the shift. */
  lemma LowBit<R(!new)>(g: Register<R>, v: R, b: R, k: R)
    requires Lawful(g)
    ensures Shift(g, g.xor(v, b), k) == g.xor(Shift(g, g.xor(v, g.lowest(b)), k), g.half(b))
  {
    hide Lawful;
    var low := g.lowest(b);
    var rest := g.xor(b, low);
    HalfOf(g, b, low);
    Sums(g, g.half(b), low, low);
    Sums(g, b, low, low);
    Cancelled(g, b, low);
    Sums(g, v, low, rest);
    Sums(g, rest, low, low);
    ShiftLinear(g, g.xor(v, low), rest, k);
  }

  /** Message bits may be put into the register all at once. */
  lemma {:induction false} BitsAtOnce<R(!new)>(g: Register<R>, v: R, b: R, n: nat, k: R)
    requires Lawful(g)
    ensures Zeros(g, g.xor(v, b), n, k) == g.xor(Bits(g, v, b, n, k), Down(g, b, n))
    decreases n
  {
    hide Shift, Lawful;
    if n > 0 {
      LowBit(g, v, b, k);
      BitsAtOnce(g, Shift(g, g.xor(v, g.lowest(b)), k), g.half(b), n - 1, k);
    }
  }

  lemma {:induction false} BitsSum<R>(g: Register<R>, v: R, b: R, m: nat, n: nat, k: R)
    ensures Bits(g, v, b, m + n, k) == Bits(g, Bits(g, v, b, m, k), Down(g, b, m), n, k)
    decreases m
  {
    hide Shift;
    if m > 0 {
      BitsSum(g, Shift(g, g.xor(v, g.lowest(b)), k), g.half(b), m - 1, n, k);
    }
  }

  /** What is above the low byte waits for its bits to pass. */
  lemma LowByteFirst<R(!new)>(g: Register<R>, x: R, n: nat, k: R)
    requires Lawful(g)
    ensures Zeros(g, x, 8 + n, k) == g.xor(Zeros(g, g.wide(g.low(x)), 8 + n, k), Zeros(g, Down(g, x, 8), n, k))
  {
    hide Lawful, Zeros, Down, LowEmpty;
    var b := g.wide(g.low(x));
    var rest := g.xor(x, b);
    LowByte(g, x, g.low(x));
    Cancelled(g, x, b);
    Sums(g, rest, b, b);
    ZerosLinear(g, b, rest, 8 + n, k);
    ZerosSum(g, rest, 8, n, k);
    EmptyBits(g, rest, 8, k);
    DownLinear(g, x, b, 8);
    Sums(g, Down(g, x, 8), b, b);
  }

  /** Eight bits at once. */
  lemma ByteAtOnce<R(!new)>(g: Register<R>, v: R, b: bv8, k: R)
    requires Lawful(g)
    ensures Bits(g, v, g.wide(b), 8, k) == Zeros(g, g.xor(v, g.wide(b)), 8, k)
  {
    hide Lawful, Zeros, Down, Bits, LowEmpty;
    BitsAtOnce(g, v, g.wide(b), 8, k);
    LowByte(g, v, b);
    Sums(g, Bits(g, v, g.wide(b), 8, k), v, v);
  }

  /** Of a word the first eight message bits are its low byte. */
  lemma FirstByte<R(!new)>(g: Register<R>, v: R, w: R, k: R)
    requires Lawful(g)
    ensures Bits(g, v, w, 8, k) == Bits(g, v, g.wide(g.low(w)), 8, k)
  {
    hide Lawful, Zeros, Down, Bits, LowEmpty;
    var b := g.wide(g.low(w));
    var rest := g.xor(w, b);
    var down := Down(g, w, 8);
    LowByte(g, w, g.low(w));
    Cancelled(g, w, b);
    Sums(g, rest, b, b);
    Sums(g, v, b, rest);
    ZerosLinear(g, g.xor(v, b), rest, 8, k);
    EmptyBits(g, rest, 8, k);
    DownLinear(g, w, b, 8);
    Sums(g, down, b, b);
    BitsAtOnce(g, v, w, 8, k);
    ByteAtOnce(g, v, g.low(w), k);
    Cancelled(g, Bits(g, v, w, 8, k), down);
    Cancelled(g, Bits(g, v, b, 8, k), down);
  }

  /** The bytes of a word, the lowest first. */
  ghost predicate Spells<R>(g: Register<R>, w: R, bytes: seq<bv8>) {
    forall i | 0 <= i < |bytes| :: g.low(Down(g, w, 8 * i)) == bytes[i]
  }

  lemma {:induction false} WordBits<R(!new)>(g: Register<R>, v: R, w: R, bytes: seq<bv8>, k: R)
    requires Lawful(g) && Spells(g, w, bytes)
    ensures Bits(g, v, w, 8 * |bytes|, k) == Crc(g, v, bytes, k)
    decreases |bytes|
  {
    hide Lawful, Bits, Down;
    if bytes == [] {
      NoBits(g, v, w, k);
    } else {
      var rest := bytes[1..];
      forall i | 0 <= i < |rest| ensures g.low(Down(g, Down(g, w, 8), 8 * i)) == rest[i] {
        DownSum(g, w, 8, 8 * i);
        assert bytes[i + 1] == rest[i];
      }
      NoBits(g, w, w, k);
      assert g.low(Down(g, w, 8 * 0)) == bytes[0];
      FirstByte(g, v, w, k);
      BitsSum(g, v, w, 8, 8 * |rest|, k);
      WordBits(g, Bits(g, v, w, 8, k), Down(g, w, 8), rest, k);
    }
  }

  lemma ZerosStep<R>(g: Register<R>, v: R, n: nat, k: R)
    requires n > 0
    ensures Zeros(g, v, n, k) == Zeros(g, Shift(g, v, k), n - 1, k)
  {
  }

  lemma NoBits<R>(g: Register<R>, v: R, w: R, k: R)
    ensures Bits(g, v, w, 0, k) == v && Down(g, w, 0) == w && Zeros(g, v, 0, k) == v
  {
  }

  lemma CrcOfNothing<R>(g: Register<R>, v: R, data: seq<bv8>, k: R)
    ensures data == [] ==> Crc(g, v, data, k) == v
  {
  }

  lemma {:induction false} CrcConcat<R>(g: Register<R>, v: R, a: seq<bv8>, b: seq<bv8>, k: R)
    ensures Crc(g, v, a + b, k) == Crc(g, Crc(g, v, a, k), b, k)
    decreases |a|
  {
    hide Bits;
    if a == [] {
      assert a + b == b;
    } else {
      assert (a + b)[1..] == a[1..] + b;
      CrcConcat(g, Bits(g, v, g.wide(a[0]), 8, k), a[1..], b, k);
    }
  }

  /** The bytes of a word are added to the register, then come as many zero bits. */
  lemma WordAtOnce<R(!new)>(g: Register<R>, v: R, w: R, data: seq<bv8>, n: nat, k: R)
    requires Lawful(g) && n <= |data| && Spells(g, w, data[..n]) && Down(g, w, 8 * n) == g.zero
    ensures Crc(g, v, data, k) == Crc(g, Zeros(g, g.xor(v, w), 8 * n, k), data[n..], k)
  {
    hide Lawful, Bits, Down, Crc, Zeros, Spells;
    assert data == data[..n] + data[n..];
    CrcConcat(g, v, data[..n], data[n..], k);
    WordBits(g, v, w, data[..n], k);
    BitsAtOnce(g, v, w, 8 * n, k);
    Sums(g, Bits(g, v, w, 8 * n, k), v, v);
  }

  // ---------- Tables ----------

  /** Entry i of the tables: a byte with 8, 16, 24, ... zero bits behind it. */
  function Entry<R>(g: Register<R>, i: nat, k: R): R {
    Zeros(g, g.wide(Numbered(i % 256)), 8 * (i / 256 + 1), k)
  }

  function Numbered(i: nat): bv8
    requires i < 256
  {
    i as bv8
  }

  function At(m: nat, c: bv8): (i: nat)
    ensures 256 * m <= i < 256 * (m + 1)
  {
    256 * m + c as int
  }

  lemma EntryAt<R>(g: Register<R>, m: nat, c: bv8, k: R)
    ensures Entry(g, At(m, c), k) == Zeros(g, g.wide(c), 8 * (m + 1), k)
  {
    hide Zeros;
    Digits(m, c as int);
    SameByte(c);
  }

  lemma SameByte(c: bv8)
    ensures (c as int) as bv8 == c
  {
  }

  lemma Digits(m: nat, c: nat)
    requires c < 256
    ensures (256 * m + c) % 256 == c && (256 * m + c) / 256 == m
  {
  }

  ghost predicate TablesOk<R(!new)>(g: Register<R>, t: seq<R>, n: nat, k: R) {
    256 * n <= |t| && forall i | 0 <= i < 256 * n :: t[i] == Entry(g, i, k)
  }

  lemma InTables<R(!new)>(g: Register<R>, t: seq<R>, n: nat, k: R)
    requires TablesOk(g, t, n, k)
    ensures 256 * n <= |t| && forall m: nat | m <= n :: TablesOk(g, t, m, k)
  {
  }

  /** m bytes of x, each looked up in a table of its own, with n more bytes to come. */
  function Lookups<R>(g: Register<R>, x: R, m: nat, n: nat, k: R): R
    decreases m
  {
    if m == 0 then g.zero
    else g.xor(Entry(g, At(m - 1 + n, g.low(x)), k), Lookups(g, Down(g, x, 8), m - 1, n, k))
  }

  lemma Lookup<R>(g: Register<R>, x: R, m: nat, n: nat, k: R)
    requires m > 0
    ensures Lookups(g, x, m, n, k) == g.xor(Entry(g, At(m - 1 + n, g.low(x)), k), Lookups(g, Down(g, x, 8), m - 1, n, k))
  {
  }

  lemma NoLookup<R>(g: Register<R>, x: R, n: nat, k: R)
    ensures Lookups(g, x, 0, n, k) == g.zero
  {
  }

  /** The low m bytes of a register go through tables, what is above them moves down. */
  lemma {:induction false} ThroughTables<R(!new)>(g: Register<R>, x: R, m: nat, n: nat, k: R)
    requires Lawful(g)
    ensures Zeros(g, x, 8 * m + 8 * n, k) == g.xor(Lookups(g, x, m, n, k), Zeros(g, Down(g, x, 8 * m), 8 * n, k))
    decreases m
  {
    hide Lawful, Zeros, Down, Entry, At, Lookups;
    if m == 0 {
      NoBits(g, x, x, k);
      NoLookup(g, x, n, k);
      Cancelled(g, Zeros(g, x, 8 * n, k), x);
    } else {
      var y, rest := Down(g, x, 8), 8 * (m - 1) + 8 * n;
      assert 8 * m + 8 * n == 8 + rest && 8 + 8 * (m - 1) == 8 * m && 8 * (m - 1 + n + 1) == 8 + rest;
      Lookup(g, x, m, n, k);
      LowByteFirst(g, x, rest, k);
      EntryAt(g, m - 1 + n, g.low(x), k);
      ThroughTables(g, y, m - 1, n, k);
      DownSum(g, x, 8, 8 * (m - 1));
      Sums(g, Entry(g, At(m - 1 + n, g.low(x)), k), Lookups(g, y, m - 1, n, k), Zeros(g, Down(g, x, 8 * m), 8 * n, k));
    }
  }

  /** Four lookups, in the order of the source. */
  function Four<R>(g: Register<R>, x: R, n: nat, k: R): R {
    g.xor(g.xor(g.xor(Entry(g, At(n + 3, g.low(x)), k), Entry(g, At(n + 2, g.low(Down(g, x, 8))), k)),
                Entry(g, At(n + 1, g.low(Down(g, x, 16))), k)),
          Entry(g, At(n, g.low(Down(g, x, 24))), k))
  }

  lemma FourThrough<R(!new)>(g: Register<R>, x: R, n: nat, k: R)
    requires Lawful(g)
    ensures Zeros(g, x, 8 * n + 32, k) == g.xor(Four(g, x, n, k), Zeros(g, Down(g, x, 32), 8 * n, k))
  {
    hide Lawful, Zeros, Down, Four, Lookups;
    ThroughTables(g, x, 4, n, k);
    FourIs(g, x, n, k);
  }

  lemma FourIs<R(!new)>(g: Register<R>, x: R, n: nat, k: R)
    requires Lawful(g)
    ensures Lookups(g, x, 4, n, k) == Four(g, x, n, k)
  {
    hide Lawful, Zeros, Down, Entry, At, Lookups;
    var x1, x2, x3 := Down(g, x, 8), Down(g, x, 16), Down(g, x, 24);
    DownSum(g, x, 8, 8);
    DownSum(g, x, 16, 8);
    Lookup(g, x, 4, n, k);
    Lookup(g, x1, 3, n, k);
    Lookup(g, x2, 2, n, k);
    Lookup(g, x3, 1, n, k);
    NoLookup(g, Down(g, x3, 8), n, k);
    Grouped(g, Entry(g, At(n + 3, g.low(x)), k), Entry(g, At(n + 2, g.low(x1)), k), Entry(g, At(n + 1, g.low(x2)), k), Entry(g, At(n, g.low(x3)), k));
  }

  lemma Grouped<R(!new)>(g: Register<R>, a: R, b: R, c: R, d: R)
    requires Lawful(g)
    ensures g.xor(a, g.xor(b, g.xor(c, g.xor(d, g.zero)))) == g.xor(g.xor(g.xor(a, b), c), d)
  {
    hide Lawful;
    Sums(g, d, d, d);
    Sums(g, a, b, g.xor(c, d));
    Sums(g, g.xor(a, b), c, d);
  }

  /** The other way round. */
  lemma Reversed<R(!new)>(g: Register<R>, a: R, b: R, c: R, d: R)
    requires Lawful(g)
    ensures g.xor(g.xor(g.xor(a, b), c), d) == g.xor(g.xor(g.xor(d, c), b), a)
  {
    hide Lawful;
    Sums(g, g.xor(a, b), c, d);
    Sums(g, c, d, a);
    Sums(g, g.xor(d, c), b, a);
    Sums(g, b, a, a);
    Sums(g, g.xor(a, b), g.xor(c, d), a);
  }

  /** What comes last may come first. */
  lemma Carried<R(!new)>(g: Register<R>, a: R, b: R, c: R, d: R, e: R)
    requires Lawful(g)
    ensures g.xor(g.xor(g.xor(g.xor(a, b), c), d), e) == g.xor(g.xor(g.xor(g.xor(e, a), b), c), d)
  {
    hide Lawful;
    Sums(g, e, a, b);
    Sums(g, e, g.xor(a, b), c);
    Sums(g, e, g.xor(g.xor(a, b), c), d);
    Sums(g, g.xor(g.xor(g.xor(a, b), c), d), e, e);
  }

  lemma CarriedReversed<R(!new)>(g: Register<R>, a: R, b: R, c: R, d: R, e: R)
    requires Lawful(g)
    ensures g.xor(g.xor(g.xor(g.xor(e, a), b), c), d) == g.xor(g.xor(g.xor(g.xor(e, d), c), b), a)
  {
    hide Lawful;
    Carried(g, a, b, c, d, e);
    Carried(g, d, c, b, a, e);
    Reversed(g, a, b, c, d);
  }

  lemma NothingThrough<R(!new)>(g: Register<R>, n: nat, k: R)
    requires Lawful(g)
    ensures Zeros(g, g.zero, n, k) == g.zero
  {
    hide Lawful, Zeros;
    Sums(g, g.zero, g.zero, g.zero);
    ZerosLinear(g, g.zero, g.zero, n, k);
    Sums(g, Zeros(g, g.zero, n, k), g.zero, g.zero);
  }

  /** The low byte of the register and the message byte. */
  function Meets(low: bv8, b: bv8): bv8 {
    low ^ b
  }

  /** One byte through the first table. */
  lemma ByteThrough<R(!new)>(g: Register<R>, v: R, b: bv8, k: R)
    requires Lawful(g)
    ensures g.xor(Entry(g, At(0, Meets(g.low(v), b)), k), Down(g, v, 8)) == Bits(g, v, g.wide(b), 8, k)
  {
    hide Lawful, Zeros, Down, Entry, Bits, LowEmpty;
    var x := g.xor(v, g.wide(b));
    ByteAtOnce(g, v, b, k);
    LowByte(g, v, b);
    LowByteFirst(g, x, 0, k);
    DownLinear(g, v, g.wide(b), 8);
    Sums(g, Down(g, v, 8), v, v);
    NoBits(g, Down(g, x, 8), x, k);
    EntryAt(g, 0, g.low(x), k);
  }

  /** The next table from the one before it. */
  lemma NextEntry<R(!new)>(g: Register<R>, i: nat, k: R)
    requires Lawful(g) && i >= 256
    ensures var r := Entry(g, i - 256, k); Entry(g, i, k) == g.xor(Entry(g, At(0, g.low(r)), k), Down(g, r, 8))
  {
    hide Lawful, Zeros, Down;
    var r := Entry(g, i - 256, k);
    assert (i - 256) % 256 == i % 256 && (i - 256) / 256 == i / 256 - 1;
    ZerosSum(g, g.wide(Numbered(i % 256)), 8 * (i / 256), 8, k);
    LowByteFirst(g, r, 0, k);
    NoBits(g, Down(g, r, 8), r, k);
    EntryAt(g, 0, g.low(r), k);
  }
}
