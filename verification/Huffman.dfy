/** Code lengths of least total weight: Huffman's cost of a sorted list of weights, and
    the proof that no code lengths do better. */
module Huffman {
  import opened Arith

  function Sum(s: seq<nat>): nat {
    if s == [] then 0 else s[0] + Sum(s[1..])
  }

  lemma {:induction false} SumUpdate(s: seq<nat>, k: nat, v: nat)
    requires k < |s|
    ensures Sum(s[k := v]) + s[k] == Sum(s) + v
  {
    if k == 0 {
      assert s[0 := v][1..] == s[1..];
    } else {
      assert s[k := v][1..] == s[1..][k - 1 := v];
      SumUpdate(s[1..], k - 1, v);
    }
  }

  lemma {:induction false} SumConcat(s: seq<nat>, t: seq<nat>)
    ensures Sum(s + t) == Sum(s) + Sum(t)
  {
    if s == [] {
      assert s + t == t;
    } else {
      assert (s + t)[1..] == s[1..] + t;
      SumConcat(s[1..], t);
    }
  }

  // ---------- Code lengths and their cost ----------

  ghost predicate AtMost(l: seq<nat>, m: nat) {
    forall k | 0 <= k < |l| :: l[k] <= m
  }

  /** How many of the 2^m longest codes each code uses up. */
  function Shares(l: seq<nat>, m: nat): (r: seq<nat>)
    requires AtMost(l, m)
    ensures |r| == |l| && forall k | 0 <= k < |l| :: r[k] == Pow2(m - l[k])
  {
    seq(|l|, k requires 0 <= k < |l| => Pow2(m - l[k]))
  }

  /** Kraft's inequality: there is a prefix code with these lengths. */
  ghost predicate Codable(l: seq<nat>, m: nat) {
    AtMost(l, m) && Sum(Shares(l, m)) <= Pow2(m)
  }

  function Weighted(q: seq<nat>, l: seq<nat>): (r: seq<nat>)
    requires |q| == |l|
    ensures |r| == |q| && forall k | 0 <= k < |q| :: r[k] == q[k] * l[k]
  {
    seq(|q|, k requires 0 <= k < |q| => q[k] * l[k])
  }

  function Cost(q: seq<nat>, l: seq<nat>): nat
    requires |q| == |l|
  {
    Sum(Weighted(q, l))
  }

  lemma CostUpdate(q: seq<nat>, l: seq<nat>, k: nat, v: nat)
    requires |q| == |l| && k < |q|
    ensures Cost(q, l[k := v]) + q[k] * l[k] == Cost(q, l) + q[k] * v
  {
    assert Weighted(q, l[k := v]) == Weighted(q, l)[k := q[k] * v];
    SumUpdate(Weighted(q, l), k, q[k] * v);
  }

  lemma SharesUpdate(l: seq<nat>, m: nat, k: nat, v: nat)
    requires AtMost(l, m) && k < |l| && v <= m
    ensures AtMost(l[k := v], m)
    ensures Sum(Shares(l[k := v], m)) + Pow2(m - l[k]) == Sum(Shares(l, m)) + Pow2(m - v)
  {
    assert Shares(l[k := v], m) == Shares(l, m)[k := Pow2(m - v)];
    SumUpdate(Shares(l, m), k, Pow2(m - v));
  }

  // ---------- Huffman's cost ----------

  ghost predicate Sorted(q: seq<nat>) {
    forall i, j | 0 <= i < j < |q| :: q[i] <= q[j]
  }

  /** The place of x behind all that is not larger. */
  function Place(x: nat, q: seq<nat>): (p: nat)
    ensures p <= |q| && (forall k | 0 <= k < p :: q[k] <= x) && (p < |q| ==> x < q[p])
  {
    if q == [] || x < q[0] then 0 else 1 + Place(x, q[1..])
  }

  function Insert(x: nat, q: seq<nat>): (r: seq<nat>)
    ensures |r| == |q| + 1 && (Sorted(q) ==> Sorted(r))
  {
    var p := Place(x, q);
    q[..p] + [x] + q[p..]
  }

  /** Join the two lightest and go on with their sum in their place. */
  function Huff(q: seq<nat>): nat
    decreases |q|
  {
    if |q| < 2 then 0 else q[0] + q[1] + Huff(Insert(q[0] + q[1], q[2..]))
  }

  // ---------- No lengths are better ----------

  lemma Swapped(q: seq<nat>, l: seq<nat>, m: nat, a: nat, b: nat) returns (l': seq<nat>)
    requires |q| == |l| && Sorted(q) && Codable(l, m) && a <= b < |q| && l[a] <= l[b]
    ensures l' == l[a := l[b]][b := l[a]]
    ensures Codable(l', m) && Cost(q, l') <= Cost(q, l) && Sum(l') == Sum(l)
  {
    l' := l[a := l[b]][b := l[a]];
    CostUpdate(q, l, a, l[b]);
    CostUpdate(q, l[a := l[b]], b, l[a]);
    SharesUpdate(l, m, a, l[b]);
    SharesUpdate(l[a := l[b]], m, b, l[a]);
    SumUpdate(l, a, l[b]);
    SumUpdate(l[a := l[b]], b, l[a]);
    if a < b {
      Exchange(q[a], q[b], l[a], l[b]);
    }
  }

  lemma Exchange(x: nat, y: nat, u: nat, v: nat)
    requires x <= y && u <= v
    ensures x * v + y * u <= x * u + y * v
  {
    assert (y - x) * (v - u) >= 0;
  }

  lemma {:induction false} LongestFrom(l: seq<nat>, from: nat) returns (a: nat)
    requires from < |l|
    ensures from <= a < |l| && forall k | from <= k < |l| :: l[k] <= l[a]
    decreases |l| - from
  {
    a := from;
    if from + 1 < |l| {
      var b := LongestFrom(l, from + 1);
      if l[from] < l[b] {
        a := b;
      }
    }
  }

  lemma {:induction false} Rescaled(l: seq<nat>, m: nat, d: nat)
    requires AtMost(l, m)
    ensures Sum(Shares(l, m + d)) == Pow2(d) * Sum(Shares(l, m))
    decreases |l|
  {
    hide Pow2;
    if l != [] {
      assert Shares(l, m)[1..] == Shares(l[1..], m) && Shares(l, m + d)[1..] == Shares(l[1..], m + d);
      Rescaled(l[1..], m, d);
      Pow2Sum(d, m - l[0]);
      Distribute(Pow2(d), Pow2(m - l[0]), Sum(Shares(l[1..], m)));
    }
  }

  lemma SameCode(l: seq<nat>, n: nat, m: nat)
    requires AtMost(l, n) && n <= m
    ensures Codable(l, m) <==> Codable(l, n)
  {
    hide Pow2, Sum, Shares;
    Rescaled(l, n, m - n);
    Pow2Sum(m - n, n);
    Cancel(Pow2(m - n), Sum(Shares(l, n)), Pow2(n));
  }

  lemma {:induction false} EvenShares(l: seq<nat>, m: nat)
    requires AtMost(l, m) && forall k | 0 <= k < |l| :: l[k] < m
    ensures Sum(Shares(l, m)) % 2 == 0
  {
    if l != [] {
      assert Shares(l, m)[1..] == Shares(l[1..], m);
      EvenShares(l[1..], m);
    }
  }

  /** One code that is longer than all others can lose a bit. */
  lemma Shortened(q: seq<nat>, l: seq<nat>, m: nat) returns (l': seq<nat>)
    requires |q| == |l| >= 1 && Codable(l, m) && forall k | 1 <= k < |l| :: l[k] < l[0]
    requires l[0] > 0
    ensures l' == l[0 := l[0] - 1] && Codable(l', m) && Cost(q, l') <= Cost(q, l) && Sum(l') < Sum(l)
  {
    l' := l[0 := l[0] - 1];
    hide Pow2, Cost, Sum, Shares;
    ShortenedCode(l);
    SameCode(l, l[0], m);
    SameCode(l', l[0], m);
    CostUpdate(q, l, 0, l[0] - 1);
    MulStep(l[0] - 1, l[0], q[0]);
    SumUpdate(l, 0, l[0] - 1);
  }

  lemma OddBelowEven(x: nat, h: nat)
    requires x % 2 == 1
    ensures x <= 2 * h ==> x + 1 <= 2 * h
  {
  }

  lemma ShortenedCode(l: seq<nat>)
    requires |l| >= 1 && l[0] > 0 && forall k | 1 <= k < |l| :: l[k] < l[0]
    ensures AtMost(l, l[0]) && AtMost(l[0 := l[0] - 1], l[0])
    ensures Codable(l, l[0]) ==> Codable(l[0 := l[0] - 1], l[0])
  {
    var n := l[0];
    assert Shares(l, n)[1..] == Shares(l[1..], n);
    EvenShares(l[1..], n);
    assert Pow2(0) == 1 && Pow2(1) == 2;
    hide Pow2;
    PowNext(n - 1);
    assert Shares(l, n)[0] == Pow2(0);
    SharesUpdate(l, n, 0, n - 1);
    OddBelowEven(Sum(Shares(l, n)), Pow2(n - 1));
  }

  lemma {:induction false} NoBetter(q: seq<nat>, l: seq<nat>, m: nat)
    requires |q| == |l| >= 1 && Sorted(q) && Codable(l, m)
    ensures Huff(q) <= Cost(q, l)
    decreases |q|, Sum(l), 1
  {
    if |q| >= 2 {
      var a := LongestFrom(l, 0);
      var l1 := Swapped(q, l, m, 0, a);
      var b := LongestFrom(l1, 1);
      var l2 := Swapped(q, l1, m, 1, b);
      LongestTwoFirst(q, l2, m);
    }
  }

  lemma {:induction false} LongestTwoFirst(q: seq<nat>, l: seq<nat>, m: nat)
    requires |q| == |l| >= 2 && Sorted(q) && Codable(l, m)
    requires l[1] <= l[0] && forall k | 2 <= k < |l| :: l[k] <= l[1]
    ensures Huff(q) <= Cost(q, l)
    decreases |q|, Sum(l), 0
  {
    if l[1] < l[0] {
      var l' := Shortened(q, l, m);
      NoBetter(q, l', m);
    } else {
      Joined(q, l, m);
      var rest, p := q[2..], Place(q[0] + q[1], q[2..]);
      NoBetter(Insert(q[0] + q[1], rest), l[2..][..p] + [l[0] - 1] + l[2..][p..], m);
    }
  }

  /** Two codes of the same length, joined to one that is a bit shorter. */
  lemma Joined(q: seq<nat>, l: seq<nat>, m: nat)
    requires |q| == |l| >= 2 && Codable(l, m) && l[0] == l[1]
    ensures l[0] > 0
    ensures var p := Place(q[0] + q[1], q[2..]);
      var l' := l[2..][..p] + [l[0] - 1] + l[2..][p..];
      Codable(l', m) && Cost(Insert(q[0] + q[1], q[2..]), l') + q[0] + q[1] == Cost(q, l)
  {
    JoinedCode(l, m, Place(q[0] + q[1], q[2..]));
    JoinedCost(q, l);
  }

  lemma JoinedCode(l: seq<nat>, m: nat, p: nat)
    requires |l| >= 2 && Codable(l, m) && l[0] == l[1] && p <= |l| - 2
    ensures l[0] > 0 && Codable(l[2..][..p] + [l[0] - 1] + l[2..][p..], m)
  {
    hide Pow2, Sum;
    var s := Shares(l, m);
    TwoApart(s);
    assert s[0] == s[1] == Pow2(m - l[0]);
    assert l[0] > 0;
    var n := l[0] - 1;
    var l' := l[2..][..p] + [n] + l[2..][p..];
    assert AtMost(l', m);
    assert Shares(l', m) == s[2..][..p] + [Pow2(m - n)] + s[2..][p..];
    InMiddle(s[2..], p, Pow2(m - n));
    PowNext(m - l[0]);
  }

  lemma JoinedCost(q: seq<nat>, l: seq<nat>)
    requires |q| == |l| >= 2 && 0 < l[0] == l[1]
    ensures var p := Place(q[0] + q[1], q[2..]);
      Cost(Insert(q[0] + q[1], q[2..]), l[2..][..p] + [l[0] - 1] + l[2..][p..]) + q[0] + q[1] == Cost(q, l)
  {
    var x, n, w := q[0] + q[1], l[0] - 1, Weighted(q, l);
    var p := Place(x, q[2..]);
    TwoApart(w);
    assert Weighted(Insert(x, q[2..]), l[2..][..p] + [n] + l[2..][p..]) == w[2..][..p] + [x * n] + w[2..][p..];
    InMiddle(w[2..], p, x * n);
    Shares2(q[0], q[1], n);
  }

  lemma Shares2(u: nat, v: nat, n: nat)
    ensures (u + v) * n + (u + v) == u * (n + 1) + v * (n + 1)
  {
  }

  lemma TwoApart(s: seq<nat>)
    requires |s| >= 2
    ensures Sum(s) == s[0] + s[1] + Sum(s[2..])
  {
    assert s[1..][1..] == s[2..];
  }

  lemma InMiddle(s: seq<nat>, p: nat, v: nat)
    requires p <= |s|
    ensures Sum(s[..p] + [v] + s[p..]) == Sum(s) + v
  {
    var a, b := s[..p], s[p..];
    assert a + b == s;
    SumConcat(a + [v], b);
    SumConcat(a, [v]);
    SumConcat(a, b);
    assert Sum([v]) == v;
  }
}
