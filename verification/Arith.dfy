/** Powers of two, binary digits and the facts about div and mod that they need. */
module Arith {

  function Pow2(n: nat): (r: nat)
    ensures r >= 1
  {
    if n == 0 then 1 else 2 * Pow2(n - 1)
  }

  /** Binary digit n of value. */
  function BitOf(value: nat, n: nat): bool {
    value / Pow2(n) % 2 == 1
  }

  /** Child bit of node m in a binary tree. */
  function Child(m: nat, bit: bool): nat {
    2 * m + (if bit then 1 else 0)
  }

  lemma ChildScaled(m: nat, bit: bool, h: nat)
    ensures Child(m, bit) * h == m * (2 * h) + (if bit then h else 0)
  {
    assert (2 * m) * h == m * (2 * h);
    assert (2 * m + 1) * h == (2 * m) * h + h;
  }

  lemma MulStep(x: nat, y: nat, unit: nat)
    ensures x < y ==> x * unit + unit <= y * unit
    ensures x <= y ==> x * unit <= y * unit
  {
    if x < y {
      assert (x + 1) * unit <= y * unit;
    }
  }

  function Min(a: int, b: int): int {
    if a < b then a else b
  }

  lemma Distribute(c: int, x: int, y: int)
    ensures c * (x + y) == c * x + c * y
  {
  }

  lemma ScaledLess(c: nat, x: int, y: int)
    requires c > 0 && x < y
    ensures c * x < c * y
  {
    Distribute(c, x, y - x);
    assert c * (y - x) > 0;
    assert x + (y - x) == y;
  }

  lemma Cancel(c: nat, x: int, y: int)
    requires c > 0
    ensures c * x <= c * y <==> x <= y
  {
    if x < y {
      ScaledLess(c, x, y);
    } else if y < x {
      ScaledLess(c, y, x);
    }
  }

  lemma DivMod(x: nat, m: nat)
    requires m > 0
    ensures x == x / m * m + x % m && x % m < m
  {
  }

  lemma ModUnique(x: nat, m: nat, q: nat, r: nat)
    requires r < m && x == q * m + r
    ensures x % m == r && x / m == q
  {
    DivMod(x, m);
    MulStep(x / m, q, m);
    MulStep(q, x / m, m);
  }

  lemma SplitTopBit(symbol: nat, n: nat)
    requires n > 0
    ensures symbol % Pow2(n) == (if BitOf(symbol, n - 1) then Pow2(n - 1) else 0) + symbol % Pow2(n - 1)
  {
    TopBitOf(symbol, Pow2(n - 1));
  }

  lemma TopBitOf(x: nat, h: nat)
    requires h > 0
    ensures x % (2 * h) == (if x / h % 2 == 1 then h else 0) + x % h
  {
    DivMod(x, h);
    HalfOf(x / h, h);
    ModUnique(x, 2 * h, x / h / 2, (if x / h % 2 == 1 then h else 0) + x % h);
  }

  lemma HalfOf(q: nat, h: nat)
    ensures q * h == q / 2 * (2 * h) + (if q % 2 == 1 then h else 0)
  {
    var k := q / 2;
    assert (2 * k) * h == k * (2 * h);
    assert (2 * k + 1) * h == (2 * k) * h + h;
  }

  lemma SplitLowBit(symbol: nat, n: nat)
    requires n > 0
    ensures symbol % Pow2(n) == symbol % 2 + 2 * (symbol / 2 % Pow2(n - 1))
  {
    LowBitOf(symbol, Pow2(n - 1));
  }

  lemma LowBitOf(x: nat, h: nat)
    requires h > 0
    ensures x % (2 * h) == x % 2 + 2 * (x / 2 % h)
  {
    var q, r := x / 2 / h, x / 2 % h;
    DivMod(x / 2, h);
    TwiceProduct(q, h);
    ModUnique(x, 2 * h, q, 2 * r + x % 2);
  }

  lemma TwiceProduct(q: nat, h: nat)
    ensures q * (2 * h) == 2 * (q * h)
  {
  }

  lemma ModOfMod(x: nat, m: nat, k: nat)
    requires m > 0 && k > 0 && m * k > 0
    ensures x % (m * k) % m == x % m
  {
    var q, r := x / (m * k), x % (m * k);
    DivMod(x, m * k);
    DivMod(r, m);
    Regroup(q, m, k, r / m);
    ModUnique(x, m, q * k + r / m, r % m);
  }

  lemma Regroup(q: nat, m: nat, k: nat, s: nat)
    ensures q * (m * k) + s * m == (q * k + s) * m
  {
  }

  lemma QuotientBelow(x: nat, m: nat, k: nat)
    requires m > 0 && x < m * k
    ensures x / m < k
  {
    DivMod(x, m);
    MulStep(k, x / m, m);
  }

  lemma TwoDigits(a: nat, b: nat, m: nat, k: nat)
    requires a < m && b < k
    ensures a * k + b < m * k
  {
    MulStep(a, m, k);
  }

  lemma ScaledQuotient(x: nat, h: nat, p: nat)
    requires h > 0 && p > 0
    ensures x * p / (h * p) == x / h
  {
    DivMod(x, h);
    assert (x / h * h + x % h) * p == x / h * (h * p) + x % h * p;
    MulStep(x % h, h, p);
    ModUnique(x * p, h * p, x / h, x % h * p);
  }

  lemma {:induction false} Pow2Sum(m: nat, n: nat)
    ensures Pow2(m + n) == Pow2(m) * Pow2(n)
  {
    if m > 0 {
      Pow2Sum(m - 1, n);
      assert 2 * (Pow2(m - 1) * Pow2(n)) == (2 * Pow2(m - 1)) * Pow2(n);
    }
  }

  lemma PowNext(n: nat)
    ensures Pow2(n + 1) == 2 * Pow2(n)
  {
  }

  lemma {:induction false} Pow2Grows(a: nat, b: nat)
    requires a <= b
    ensures Pow2(a) <= Pow2(b)
    decreases b - a
  {
    if a < b {
      Pow2Grows(a + 1, b);
    }
  }

  lemma Pow2Order(a: nat, b: nat)
    ensures a <= b ==> Pow2(a) <= Pow2(b)
  {
    if a <= b {
      Pow2Grows(a, b);
    }
  }
}
