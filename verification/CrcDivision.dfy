/** What a CRC is: the remainder of the message, as a polynomial over two elements, on division by another one. The
    register holds it lowest bit first (section 8 of RFC 1952). */
module CrcDivision {
  import opened Registers

  // ---------- Long division ----------

  /** Coefficients, that of the highest power first. */
  type Coefficients = seq<bool>

  /** The difference of a and b, which begin at the same power. */
  function Minus(a: Coefficients, b: Coefficients): (r: Coefficients)
    ensures |r| == |a|
  {
    seq(|a|, i requires 0 <= i < |a| => a[i] != (i < |b| && b[i]))
  }

  /** Division of s, n steps of it, by the polynomial with a leading coefficient 1 and the others in k. */
  function Remainder(s: Coefficients, n: nat, k: Coefficients): (r: Coefficients)
    requires n <= |s|
    ensures |r| == |s| - n
    decreases n
  {
    if n == 0 then s else Remainder(if s[0] then Minus(s[1..], k) else s[1..], n - 1, k)
  }

  function Zeroes(n: nat): (r: Coefficients)
    ensures |r| == n
  {
    seq(n, _ => false)
  }

  /** The bits of a byte as they are sent: the lowest first. */
  function ByteBits(b: bv8): (r: Coefficients)
    ensures |r| == 8
  {
    [b & 1 != 0, b & 2 != 0, b & 4 != 0, b & 8 != 0, b & 0x10 != 0, b & 0x20 != 0, b & 0x40 != 0, b & 0x80 != 0]
  }

  function MessageBits(data: seq<bv8>): (r: Coefficients)
    ensures |r| == 8 * |data|
  {
    if data == [] then [] else ByteBits(data[0]) + MessageBits(data[1..])
  }

  // ---------- The bits of a register ----------

  /** Bit i of v, 0 the lowest. */
  function Bit<R>(g: Register<R>, v: R, i: nat): bool {
    g.odd(Down(g, v, i))
  }

  /** The lowest n bits: the coefficients, that of the highest power first. */
  function Held<R>(g: Register<R>, v: R, n: nat): (r: Coefficients)
    ensures |r| == n
  {
    seq(n, i requires 0 <= i < n => Bit(g, v, i))
  }

  /** No register has more than n bits, and those of a byte are where they should be. */
  ghost predicate Sized<R(!new)>(g: Register<R>, n: nat) {
    (forall v: R :: !Bit(g, v, n)) && forall b: bv8 :: Held(g, g.wide(b), 8) == ByteBits(b)
  }

  lemma BitOfSum<R(!new)>(g: Register<R>, a: R, b: R, i: nat)
    requires Lawful(g)
    ensures Bit(g, g.xor(a, b), i) == (Bit(g, a, i) != Bit(g, b, i))
  {
    hide Lawful;
    DownLinear(g, a, b, i);
    HalfOf(g, Down(g, a, i), Down(g, b, i));
  }

  lemma ZeroBits<R(!new)>(g: Register<R>, i: nat)
    requires Lawful(g)
    ensures !Bit(g, g.zero, i)
  {
    hide Lawful;
    Sums(g, g.zero, g.zero, g.zero);
    BitOfSum(g, g.zero, g.zero, i);
  }

  /** Only the lowest bit is in lowest(b). */
  lemma LowestBits<R(!new)>(g: Register<R>, b: R, i: nat)
    requires Lawful(g)
    ensures Bit(g, g.lowest(b), i) == (i == 0 && Bit(g, b, 0))
  {
    hide Lawful;
    HalfOf(g, b, g.lowest(b));
    if i > 0 {
      ZeroBits(g, i - 1);
    }
  }

  // ---------- The register divides ----------

  /** What is left of the division: the message that is still to come, with the register added to its beginning. */
  function Dividend<R>(g: Register<R>, v: R, message: Coefficients, n: nat): (r: Coefficients)
    ensures |r| == |message| + n
  {
    Minus(message + Zeroes(n), Held(g, v, n))
  }

  lemma DividendAt<R>(g: Register<R>, v: R, message: Coefficients, n: nat, i: nat)
    requires i < |message| + n
    ensures Dividend(g, v, message, n)[i] == ((i < |message| && message[i]) != (i < n && Bit(g, v, i)))
  {
    hide Bit;
  }

  /** One step of the division. */
  function Divided(s: Coefficients, k: Coefficients): Coefficients
    requires s != []
  {
    if s[0] then Minus(s[1..], k) else s[1..]
  }

  /** A bit through the register is one step of the division. */
  lemma OneBit<R(!new)>(g: Register<R>, v: R, b: R, rest: Coefficients, n: nat, k: R)
    requires Lawful(g) && Sized(g, n) && n > 0
    ensures var s := Dividend(g, v, [g.odd(b)] + rest, n);
            Divided(s, Held(g, k, n)) == Dividend(g, Shift(g, g.xor(v, g.lowest(b)), k), rest, n)
  {
    hide Lawful, Bit, Dividend;
    var message := [g.odd(b)] + rest;
    var s, x := Dividend(g, v, message, n), g.xor(v, g.lowest(b));
    var v' := Shift(g, x, k);
    DividendAt(g, v, message, n, 0);
    FirstBit(g, v, b);
    forall i: nat | i < |rest| + n
      ensures Divided(s, Held(g, k, n))[i] == Dividend(g, v', rest, n)[i]
    {
      DividendAt(g, v, message, n, i + 1);
      DividendAt(g, v', rest, n, i);
      if i < n {
        ShiftedBit(g, v, b, n, k, i);
      }
    }
  }

  lemma FirstBit<R(!new)>(g: Register<R>, v: R, b: R)
    requires Lawful(g)
    ensures g.odd(g.xor(v, g.lowest(b))) == (g.odd(b) != Bit(g, v, 0))
  {
    hide Lawful;
    HalfOf(g, v, g.lowest(b));
    LowestBits(g, b, 0);
  }

  lemma ShiftedBit<R(!new)>(g: Register<R>, v: R, b: R, n: nat, k: R, i: nat)
    requires Lawful(g) && Sized(g, n) && i < n
    ensures var x := g.xor(v, g.lowest(b));
            Bit(g, Shift(g, x, k), i) == ((i + 1 < n && Bit(g, v, i + 1)) != (g.odd(x) && Bit(g, k, i)))
  {
    hide Lawful;
    var x := g.xor(v, g.lowest(b));
    BitOfSum(g, v, g.lowest(b), i + 1);
    LowestBits(g, b, i + 1);
    BitOfSum(g, g.half(x), k, i);
  }

  lemma {:induction false} BitsDivide<R(!new)>(g: Register<R>, v: R, b: R, m: nat, rest: Coefficients, n: nat, k: R, steps: nat)
    requires Lawful(g) && Sized(g, n) && n > 0 && steps == m + |rest|
    ensures Remainder(Dividend(g, v, Held(g, b, m) + rest, n), steps, Held(g, k, n)) ==
            Remainder(Dividend(g, Bits(g, v, b, m, k), rest, n), steps - m, Held(g, k, n))
    decreases m
  {
    hide Lawful, Sized, Dividend, Shift, Remainder;
    if m == 0 {
      assert Held(g, b, 0) + rest == rest;
    } else {
      var more := Held(g, g.half(b), m - 1) + rest;
      HeldStep(g, b, m);
      assert Held(g, b, m) + rest == [g.odd(b)] + more;
      var s := Dividend(g, v, [g.odd(b)] + more, n);
      OneBit(g, v, b, more, n, k);
      RemainderStep(s, steps, Held(g, k, n));
      BitsDivide(g, Shift(g, g.xor(v, g.lowest(b)), k), g.half(b), m - 1, rest, n, k, steps - 1);
    }
  }

  lemma HeldStep<R>(g: Register<R>, b: R, m: nat)
    requires m > 0
    ensures Held(g, b, m) == [g.odd(b)] + Held(g, g.half(b), m - 1)
  {
    assert Bit(g, b, 0) == g.odd(b);
    assert forall i | 1 <= i < m :: Held(g, b, m)[i] == Held(g, g.half(b), m - 1)[i - 1];
  }

  lemma RemainderStep(s: Coefficients, steps: nat, k: Coefficients)
    requires 0 < steps <= |s|
    ensures Remainder(s, steps, k) == Remainder(Divided(s, k), steps - 1, k)
  {
  }

  /** The register after the data, bit by bit, holds the remainder of the message followed by n zeros, with the register
      as it was before added to its beginning. */
  lemma {:induction false} CrcDivides<R(!new)>(g: Register<R>, v: R, data: seq<bv8>, n: nat, k: R)
    requires Lawful(g) && Sized(g, n) && n > 0
    ensures Held(g, Crc(g, v, data, k), n) == Remainder(Minus(MessageBits(data) + Zeroes(n), Held(g, v, n)), 8 * |data|, Held(g, k, n))
    decreases |data|
  {
    hide Lawful, Bits, Remainder, Bit;
    if data == [] {
      assert Minus(Zeroes(n), Held(g, v, n)) == Held(g, v, n) && [] + Zeroes(n) == Zeroes(n);
      NoSteps(Held(g, v, n), Held(g, k, n));
    } else {
      var b, rest := g.wide(data[0]), MessageBits(data[1..]);
      assert Held(g, b, 8) == ByteBits(data[0]);
      BitsDivide(g, v, b, 8, rest, n, k, 8 * |data|);
      CrcDivides(g, Bits(g, v, b, 8, k), data[1..], n, k);
    }
  }

  lemma NoSteps(s: Coefficients, k: Coefficients)
    ensures Remainder(s, 0, k) == s
  {
  }
}
