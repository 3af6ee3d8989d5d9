/** The third phase of Huffman_Generate: from the root down, parents are replaced by depths, and the
    counts of code lengths follow; what would get too long is put below a shorter code instead. */
module HuffmanDepths {
  import opened Arith
  import opened Huffman
  import opened HuffmanHeight
  import opened Sort
  import opened HuffmanList
  import opened HuffmanTree

  const MAX_LEN := 16

  // ---------- Depths ----------

  ghost predicate Falling(s: seq<nat>, from: nat) {
    forall i, j | from <= i < j < |s| :: s[i] >= s[j]
  }

  function Constant(n: nat, v: nat): (r: seq<nat>)
    ensures |r| == n && forall j | 0 <= j < n :: r[j] == v
  {
    seq(n, _ => v)
  }

  function Filled(s: seq<nat>, a: nat, b: nat, v: nat): (r: seq<nat>)
    requires a <= b <= |s|
    ensures |r| == |s| && forall j | 0 <= j < |s| :: r[j] == if a <= j < b then v else s[j]
  {
    s[..a] + Constant(b - a, v) + s[b..]
  }

  ghost predicate Expanded(t: Joins, k: nat, ld: seq<nat>, nd: seq<nat>) {
    Joining(t, k) && |ld| == |t.w| && |nd| == |t.nodes| &&
    (forall j | t.ns[k] <= j < t.ns[k + 1] :: nd[j] == nd[k] + 1) &&
    (forall j | t.ls[k] <= j < t.ls[k + 1] :: ld[j] == nd[k] + 1)
  }

  /** Leaves and nodes below the nodes from e on have their depths, largest first. */
  ghost predicate Deep(t: Joins, e: nat, ld: seq<nat>, nd: seq<nat>) {
    IsTree(t) && e < |t.nodes| && |ld| == |t.w| && |nd| == |t.nodes| && t.ls[|t.nodes|] == |t.w| &&
    (forall k | e <= k < |t.nodes| :: Expanded(t, k, ld, nd)) &&
    Falling(nd, t.ns[e]) && Falling(ld, t.ls[e]) && nd[e] + e < |t.nodes| && nd[|t.nodes| - 1] == 0 &&
    (forall j | t.ns[e] <= j < |nd| :: nd[j] <= nd[e] + 1) && (forall j | t.ls[e] <= j < |ld| :: ld[j] <= nd[e] + 1)
  }

  lemma Monotone(t: Joins, j: nat, k: nat)
    requires IsTree(t) && j <= k <= |t.nodes|
    ensures t.ls[j] <= t.ls[k] <= |t.w| && t.ns[j] <= t.ns[k] && (k > 0 ==> t.ns[k] < k)
    decreases k - j
  {
    if j < k {
      assert Joining(t, j) && Joining(t, k - 1);
      Monotone(t, j + 1, k);
    } else if k > 0 {
      assert Joining(t, k - 1);
    } else {
      assert t.ls[0] == 0;
    }
  }

  function DeeperLeaves(t: Joins, e: nat, ld: seq<nat>, d: nat): seq<nat>
    requires Joining(t, e) && |ld| == |t.w|
  {
    Filled(ld, t.ls[e], t.ls[e + 1], d + 1)
  }

  function DeeperNodes(t: Joins, e: nat, nd: seq<nat>, d: nat): seq<nat>
    requires Joining(t, e) && |nd| == |t.nodes|
  {
    Filled(nd, t.ns[e], t.ns[e + 1], d + 1)
  }

  lemma Deeper(t: Joins, e: nat, ld: seq<nat>, nd: seq<nat>)
    requires e > 0 && Deep(t, e, ld, nd)
    ensures Joining(t, e - 1) && nd[e - 1] <= nd[e] + 1 && nd[e] <= nd[e - 1]
    ensures Deep(t, e - 1, DeeperLeaves(t, e - 1, ld, nd[e - 1]), DeeperNodes(t, e - 1, nd, nd[e - 1]))
  {
    hide Falling, Filled, Expanded, Joining;
    var k := e - 1;
    assert Joining(t, k);
    Monotone(t, k, e);
    Monotone(t, e, e);
    OwnExpanded(t, k, ld, nd);
    FallsAt(nd, t.ns[e], k, e);
    FallingOn(nd, t.ns[k], t.ns[e], nd[k] + 1);
    FallingOn(ld, t.ls[k], t.ls[e], nd[k] + 1);
    forall i | e <= i < |t.nodes|
      ensures Expanded(t, i, DeeperLeaves(t, k, ld, nd[k]), DeeperNodes(t, k, nd, nd[k]))
    {
      assert Expanded(t, i, ld, nd);
      StillExpanded(t, k, i, ld, nd);
    }
  }

  lemma OwnExpanded(t: Joins, k: nat, ld: seq<nat>, nd: seq<nat>)
    requires Joining(t, k) && |ld| == |t.w| && |nd| == |t.nodes|
    ensures Expanded(t, k, DeeperLeaves(t, k, ld, nd[k]), DeeperNodes(t, k, nd, nd[k]))
    ensures DeeperNodes(t, k, nd, nd[k])[k] == nd[k]
  {
  }

  lemma FallsAt(s: seq<nat>, from: nat, i: nat, j: nat)
    requires Falling(s, from) && from <= i <= j < |s|
    ensures s[j] <= s[i]
  {
  }

  lemma FallingOn(s: seq<nat>, a: nat, b: nat, v: nat)
    requires a <= b <= |s| && Falling(s, b) && forall j | b <= j < |s| :: s[j] <= v
    ensures Falling(Filled(s, a, b, v), a) && forall j | a <= j < |s| :: Filled(s, a, b, v)[j] <= v
  {
  }

  lemma StillExpanded(t: Joins, k: nat, i: nat, ld: seq<nat>, nd: seq<nat>)
    requires IsTree(t) && k < i && Expanded(t, i, ld, nd) && Joining(t, k)
    ensures Expanded(t, i, DeeperLeaves(t, k, ld, nd[k]), DeeperNodes(t, k, nd, nd[k]))
  {
    Monotone(t, k + 1, i);
    Monotone(t, k, k + 1);
  }

  lemma RootDeep(t: Joins) returns (ld: seq<nat>, nd: seq<nat>)
    requires IsTree(t) && |t.nodes| + 1 == |t.w| && t.ls[|t.nodes|] == |t.w| && t.nodes != []
    requires t.ns[|t.nodes|] == |t.nodes| - 1
    ensures Joining(t, |t.nodes| - 1)
    ensures ld == DeeperLeaves(t, |t.nodes| - 1, Constant(|t.w|, 0), 0)
    ensures nd == DeeperNodes(t, |t.nodes| - 1, Constant(|t.nodes|, 0), 0) && nd[|nd| - 1] == 0
    ensures Deep(t, |t.nodes| - 1, ld, nd)
  {
    hide Filled, Constant;
    var e := |t.nodes| - 1;
    assert Joining(t, e);
    OwnExpanded(t, e, Constant(|t.w|, 0), Constant(|t.nodes|, 0));
    ld, nd := DeeperLeaves(t, e, Constant(|t.w|, 0), 0), DeeperNodes(t, e, Constant(|t.nodes|, 0), 0);
  }

  // ---------- Cost ----------

  lemma CostConcat(q: seq<nat>, r: seq<nat>, l: seq<nat>, m: seq<nat>)
    requires |q| == |l| && |r| == |m|
    ensures Cost(q + r, l + m) == Cost(q, l) + Cost(r, m)
  {
    assert Weighted(q + r, l + m) == Weighted(q, l) + Weighted(r, m);
    SumConcat(Weighted(q, l), Weighted(r, m));
  }

  lemma {:induction false} CostConstant(q: seq<nat>, v: nat)
    ensures Cost(q, Constant(|q|, v)) == Sum(q) * v
  {
    if q != [] {
      CostConstant(q[1..], v);
      assert Weighted(q, Constant(|q|, v))[1..] == Weighted(q[1..], Constant(|q[1..]|, v));
      Factor(q[0], Sum(q[1..]), v);
    }
  }

  lemma Factor(x: nat, y: nat, v: nat)
    ensures (x + y) * v == x * v + y * v
  {
  }

  /** The weighted depths of all that hangs below the nodes from e on. */
  function OpenCost(t: Joins, e: nat, ld: seq<nat>, nd: seq<nat>): nat
    requires |t.ls| == |t.ns| == |t.nodes| + 1 && e <= |t.nodes| && t.ls[e] <= |t.w| == |ld| && t.ns[e] <= e && |nd| == |t.nodes|
  {
    Cost(t.w[t.ls[e]..], ld[t.ls[e]..]) + Cost(t.nodes[t.ns[e]..e], nd[t.ns[e]..e])
  }

  lemma FilledParts(s: seq<nat>, a: nat, b: nat, c: nat, v: nat)
    requires a <= b <= c <= |s|
    ensures Filled(s, a, b, v)[a..c] == Constant(b - a, v) + s[b..c]
  {
  }

  /** The cost of a part whose first items get depth v. */
  lemma PartCost(q: seq<nat>, s: seq<nat>, a: nat, b: nat, c: nat, v: nat)
    requires |q| == |s| && a <= b <= c <= |s|
    ensures Cost(q[a..c], Filled(s, a, b, v)[a..c]) == Sum(q[a..b]) * v + Cost(q[b..c], s[b..c])
  {
    FilledParts(s, a, b, c, v);
    assert q[a..c] == q[a..b] + q[b..c];
    CostConcat(q[a..b], q[b..c], Constant(b - a, v), s[b..c]);
    CostConstant(q[a..b], v);
  }

  lemma CostStep(t: Joins, e: nat, ld: seq<nat>, nd: seq<nat>)
    requires e > 0 && Deep(t, e, ld, nd) && Joining(t, e - 1) && t.ls[e] <= |t.w| && t.ns[e] < e
    ensures var k, d := e - 1, nd[e - 1];
      OpenCost(t, k, DeeperLeaves(t, k, ld, d), DeeperNodes(t, k, nd, d)) == OpenCost(t, e, ld, nd) + t.nodes[k]
  {
    hide Deep, IsTree, Cost, Filled, Sum;
    Shape(t, e, ld, nd);
    var k, d, n := e - 1, nd[e - 1], |t.w|;
    var ld', nd' := DeeperLeaves(t, k, ld, d), DeeperNodes(t, k, nd, d);
    PartCost(t.w, ld, t.ls[k], t.ls[e], n, d + 1);
    PartCost(t.nodes, nd, t.ns[k], t.ns[e], k, d + 1);
    LastCost(t.nodes, nd, t.ns[e], k);
    assert t.w[t.ls[k]..n] == t.w[t.ls[k]..] && ld'[t.ls[k]..n] == ld'[t.ls[k]..];
    assert t.w[t.ls[e]..n] == t.w[t.ls[e]..] && ld[t.ls[e]..n] == ld[t.ls[e]..];
    Factor(Sum(t.w[t.ls[k]..t.ls[e]]), Sum(t.nodes[t.ns[k]..t.ns[e]]), d + 1);
    OneMore(t.nodes[k], d);
  }

  lemma Shape(t: Joins, e: nat, ld: seq<nat>, nd: seq<nat>)
    requires Deep(t, e, ld, nd)
    ensures |ld| == |t.w| && |nd| == |t.nodes| && |t.ls| == |t.ns| == |t.nodes| + 1 && e < |t.nodes|
  {
  }

  lemma OneMore(x: nat, d: nat)
    ensures x * (d + 1) == x * d + x
  {
  }

  lemma LastCost(q: seq<nat>, s: seq<nat>, a: nat, k: nat)
    requires |q| == |s| && a <= k < |s|
    ensures Cost(q[a..k + 1], s[a..k + 1]) == Cost(q[a..k], s[a..k]) + q[k] * s[k]
  {
    assert q[a..k + 1] == q[a..k] + [q[k]] && s[a..k + 1] == s[a..k] + [s[k]];
    CostConcat(q[a..k], [q[k]], s[a..k], [s[k]]);
    assert Weighted([q[k]], [s[k]]) == [q[k] * s[k]];
    assert Sum([q[k] * s[k]]) == q[k] * s[k];
  }

  lemma RootCost(t: Joins, ld: seq<nat>, nd: seq<nat>)
    requires IsTree(t) && |t.nodes| + 1 == |t.w| && t.ls[|t.nodes|] == |t.w| && t.nodes != []
    requires t.ns[|t.nodes|] == |t.nodes| - 1 && Joining(t, |t.nodes| - 1)
    requires ld == DeeperLeaves(t, |t.nodes| - 1, Constant(|t.w|, 0), 0)
    requires nd == DeeperNodes(t, |t.nodes| - 1, Constant(|t.nodes|, 0), 0)
    ensures OpenCost(t, |t.nodes| - 1, ld, nd) == t.nodes[|t.nodes| - 1]
  {
    hide Cost, Filled, Sum, IsTree;
    var e := |t.nodes| - 1;
    var a, b := t.ls[e], t.ns[e];
    assert ld[a..] == Constant(|t.w| - a, 1) && nd[b..e] == Constant(e - b, 1);
    CostConstant(t.w[a..], 1);
    CostConstant(t.nodes[b..e], 1);
    assert t.w[a..] == t.w[a..t.ls[e + 1]];
  }

  // ---------- Height ----------

  /** What hangs below the nodes from e on reaches down to h, and no deeper. */
  ghost predicate Reaching(t: Joins, e: nat, ld: seq<nat>, nd: seq<nat>, h: nat) {
    |t.hs| == |t.nodes| == |nd| && |t.ls| == |t.ns| == |t.nodes| + 1 && e <= |t.nodes| && |ld| == |t.w| &&
    (forall j | t.ls[e] <= j < |ld| :: ld[j] <= h) && (forall j | t.ns[e] <= j < e :: nd[j] + t.hs[j] <= h) &&
    ((exists j | t.ls[e] <= j < |ld| :: ld[j] == h) || (exists j | t.ns[e] <= j < e :: nd[j] + t.hs[j] == h))
  }

  lemma {:induction false} TallestIs(s: seq<nat>)
    ensures forall j | 0 <= j < |s| :: s[j] <= Tallest(s)
    ensures if s == [] then Tallest(s) == 0 else Tallest(s) in s
  {
    if s != [] {
      TallestIs(s[1..]);
    }
  }

  lemma ReachingStep(t: Joins, e: nat, ld: seq<nat>, nd: seq<nat>, h: nat)
    requires e > 0 && IsTree(t) && Joining(t, e - 1) && Reaching(t, e, ld, nd, h) && t.ls[e] <= |t.w| && t.ns[e] < e
    ensures var k, d := e - 1, nd[e - 1];
      Reaching(t, k, DeeperLeaves(t, k, ld, d), DeeperNodes(t, k, nd, d), h)
  {
    hide Filled, Tallest, Sum, IsTree;
    var k, d := e - 1, nd[e - 1];
    var ld', nd' := DeeperLeaves(t, k, ld, d), DeeperNodes(t, k, nd, d);
    var below := t.hs[t.ns[k]..t.ns[e]];
    TallestIs(below);
    assert forall j | t.ns[k] <= j < t.ns[e] :: t.hs[j] == below[j - t.ns[k]];
    if nd[k] + t.hs[k] == h {
      if j :| t.ns[k] <= j < t.ns[e] && t.hs[j] == Tallest(below) {
        assert nd'[j] + t.hs[j] == h;
      } else {
        assert below == [];
        assert ld'[t.ls[k]] == h;
      }
    } else if j :| t.ls[e] <= j < |ld| && ld[j] == h {
      assert ld'[j] == h;
    } else {
      var j :| t.ns[e] <= j < e && nd[j] + t.hs[j] == h;
      assert nd'[j] + t.hs[j] == h;
    }
  }

  // ---------- Counts ----------

  /** The depths of all that hangs below the nodes from e on. */
  function Open(t: Joins, e: nat, ld: seq<nat>, nd: seq<nat>): multiset<nat>
    requires |t.ls| == |t.ns| == |t.nodes| + 1 && e <= |t.nodes| && t.ls[e] <= |t.w| == |ld| && t.ns[e] <= e && |nd| == |t.nodes|
  {
    multiset(ld[t.ls[e]..]) + multiset(nd[t.ns[e]..e])
  }

  lemma TwoInAll(v: nat, x: nat, y: nat)
    requires x + y == 2
    ensures multiset(Constant(x, v)) + multiset(Constant(y, v)) == multiset{v, v}
  {
    assert Constant(0, v) == [] && Constant(1, v) == [v] && Constant(2, v) == [v, v];
  }

  lemma OpenStep(t: Joins, e: nat, ld: seq<nat>, nd: seq<nat>)
    requires e > 0 && Deep(t, e, ld, nd) && Joining(t, e - 1) && t.ls[e] <= |t.w| && t.ns[e] < e
    ensures var k, d := e - 1, nd[e - 1];
      d in Open(t, e, ld, nd) &&
      Open(t, k, DeeperLeaves(t, k, ld, d), DeeperNodes(t, k, nd, d)) == Open(t, e, ld, nd) - multiset{d} + multiset{d + 1, d + 1}
  {
    hide Deep, IsTree, Filled, DeeperLeaves, DeeperNodes;
    Shape(t, e, ld, nd);
    var k, d := e - 1, nd[e - 1];
    OpenParts(t, e, ld, nd);
    TwoMore(ld[t.ls[e]..], nd[t.ns[e]..k], d, t.ls[e] - t.ls[k], t.ns[e] - t.ns[k]);
    assert d in nd[t.ns[e]..e];
  }

  lemma OpenParts(t: Joins, e: nat, ld: seq<nat>, nd: seq<nat>)
    requires 0 < e <= |t.nodes| && Joining(t, e - 1) && |ld| == |t.w| && |nd| == |t.nodes| && t.ns[e] < e
    ensures var k, d := e - 1, nd[e - 1];
      |DeeperLeaves(t, k, ld, d)| == |ld| && |DeeperNodes(t, k, nd, d)| == |nd| &&
      DeeperLeaves(t, k, ld, d)[t.ls[k]..] == Constant(t.ls[e] - t.ls[k], d + 1) + ld[t.ls[e]..] &&
      DeeperNodes(t, k, nd, d)[t.ns[k]..k] == Constant(t.ns[e] - t.ns[k], d + 1) + nd[t.ns[e]..k] &&
      nd[t.ns[e]..e] == nd[t.ns[e]..k] + [d]
  {
    hide Filled;
    var k, d := e - 1, nd[e - 1];
    FilledParts(ld, t.ls[k], t.ls[e], |ld|, d + 1);
    FilledParts(nd, t.ns[k], t.ns[e], k, d + 1);
  }

  lemma TwoMore(a: seq<nat>, b: seq<nat>, d: nat, x: nat, y: nat)
    requires x + y == 2
    ensures var v: nat := d + 1;
      multiset(Constant(x, v) + a) + multiset(Constant(y, v) + b) == multiset(a) + multiset(b + [d]) - multiset{d} + multiset{v, v}
  {
    TwoInAll(d + 1, x, y);
    assert multiset(b + [d]) == multiset(b) + multiset{d};
    assert multiset(Constant(x, d + 1) + a) == multiset(Constant(x, d + 1)) + multiset(a);
    assert multiset(Constant(y, d + 1) + b) == multiset(Constant(y, d + 1)) + multiset(b);
  }

  lemma RootOpen(t: Joins, ld: seq<nat>, nd: seq<nat>)
    requires IsTree(t) && |t.nodes| + 1 == |t.w| && t.ls[|t.nodes|] == |t.w| && t.nodes != []
    requires t.ns[|t.nodes|] == |t.nodes| - 1 && Joining(t, |t.nodes| - 1)
    requires ld == DeeperLeaves(t, |t.nodes| - 1, Constant(|t.w|, 0), 0)
    requires nd == DeeperNodes(t, |t.nodes| - 1, Constant(|t.nodes|, 0), 0)
    ensures Open(t, |t.nodes| - 1, ld, nd) == multiset{1, 1}
  {
    hide IsTree, Filled;
    var e := |t.nodes| - 1;
    var a, b := t.ls[e], t.ns[e];
    assert ld[a..] == Constant(|t.w| - a, 1) && nd[b..e] == Constant(e - b, 1);
    TwoInAll(1, |t.w| - a, e - b);
  }

  /** What a code of each length uses up. */
  function Pows(): (r: seq<nat>)
    ensures |r| == MAX_LEN + 1 && forall l | 0 <= l <= MAX_LEN :: r[l] == Pow2(MAX_LEN - l)
  {
    seq(MAX_LEN + 1, l requires 0 <= l <= MAX_LEN => Pow2(MAX_LEN - l))
  }

  /** Counts of code lengths that fill the code space: num codes, none longer than maxLen. */
  ghost predicate Full(c: seq<nat>, num: nat, maxLen: nat) {
    |c| == MAX_LEN + 1 && 1 <= maxLen <= MAX_LEN && c[0] == 0 && (forall l | maxLen < l <= MAX_LEN :: c[l] == 0) &&
    Cost(Pows(), c) == Pow2(MAX_LEN) && Sum(c) == num
  }

  /** A code of length l makes room for two of length l + 1. */
  function Split(c: seq<nat>, l: nat): (r: seq<nat>)
    requires l + 1 < |c| && c[l] > 0
    ensures |r| == |c|
  {
    c[l := c[l] - 1][l + 1 := c[l + 1] + 2]
  }

  lemma StaysFull(c: seq<nat>, num: nat, maxLen: nat, l: nat)
    requires Full(c, num, maxLen) && 1 <= l < maxLen && c[l] > 0
    ensures Full(Split(c, l), num + 1, maxLen)
  {
    hide Pow2;
    CostUpdate(Pows(), c, l, c[l] - 1);
    CostUpdate(Pows(), c[l := c[l] - 1], l + 1, c[l + 1] + 2);
    SumUpdate(c, l, c[l] - 1);
    SumUpdate(c[l := c[l] - 1], l + 1, c[l + 1] + 2);
    PowNext(MAX_LEN - l - 1);
    Moved(Pows()[l + 1], c[l], c[l + 1]);
  }

  lemma Moved(h: nat, x: nat, y: nat)
    requires x > 0
    ensures 2 * h * (x - 1) + h * (y + 2) == 2 * h * x + h * y
  {
  }

  lemma {:induction false} Nowhere(s: seq<nat>)
    requires forall j | 0 <= j < |s| :: s[j] == 0
    ensures Sum(s) == 0
  {
    if s != [] {
      Nowhere(s[1..]);
    }
  }

  lemma OneEntry(s: seq<nat>, k: nat)
    requires k < |s| && forall j | 0 <= j < |s| && j != k :: s[j] == 0
    ensures Sum(s) == s[k]
  {
    SumUpdate(s, k, 0);
    Nowhere(s[k := 0]);
  }

  /** Fewer codes than there could be of the greatest length: one of them is shorter. */
  lemma SomeShorter(c: seq<nat>, num: nat, maxLen: nat)
    requires Full(c, num, maxLen) && num < Pow2(maxLen)
    ensures exists l | 1 <= l < maxLen :: c[l] > 0
  {
    hide Pow2;
    if forall l | 1 <= l < maxLen :: c[l] == 0 {
      AllLongest(c, maxLen);
      Pow2Sum(MAX_LEN - maxLen, maxLen);
      Cancel(Pow2(MAX_LEN - maxLen), Pow2(maxLen), num);
    }
  }

  lemma AllLongest(c: seq<nat>, maxLen: nat)
    requires |c| == MAX_LEN + 1 && maxLen <= MAX_LEN && forall l | 0 <= l <= MAX_LEN && l != maxLen :: c[l] == 0
    ensures Sum(c) == c[maxLen] && Cost(Pows(), c) == Pow2(MAX_LEN - maxLen) * c[maxLen]
  {
    hide Pow2, Sum;
    OneEntry(c, maxLen);
    OneEntry(Weighted(Pows(), c), maxLen);
  }

  /** Only the longest codes give way: of all lengths below m there are as many codes as the tree has, and hardly any
      between m and maxLen. */
  ghost predicate Spared(c: seq<nat>, maxLen: nat, m: nat, depths: multiset<nat>) {
    1 <= m < maxLen < |c| && (forall l | 0 <= l < m :: c[l] == depths[l]) && forall l | m < l < maxLen :: c[l] <= 2
  }

  /** Another code of the longest there are gives way to two that are longer. */
  lemma SparedStep(c: seq<nat>, maxLen: nat, d: nat, l: nat, open: multiset<nat>, open': multiset<nat>)
    requires d >= maxLen && Splits(c, maxLen, d, l) && open' == open - multiset{d} + multiset{d + 1, d + 1}
    requires (exists m: nat :: Spared(c, maxLen, m, open)) || forall j | 0 <= j < maxLen :: c[j] == open[j]
    ensures exists m: nat :: Spared(Split(c, l), maxLen, m, open')
  {
    var n := l;
    if m: nat :| Spared(c, maxLen, m, open) && m < l {
      n := m;
    }
    assert Spared(Split(c, l), maxLen, n, open');
  }

  /** As long as nothing got too long, the counts are those of the depths. */
  ghost predicate Tally(c: seq<nat>, maxLen: nat, open: multiset<nat>, deepest: nat, clamped: bool) {
    |c| == MAX_LEN + 1 && maxLen <= MAX_LEN &&
    if clamped then deepest >= maxLen && c[maxLen] > 0 && exists m: nat :: Spared(c, maxLen, m, open)
    else deepest < maxLen && forall l | 0 <= l <= MAX_LEN :: c[l] == open[l]
  }

  lemma TallyStep(c: seq<nat>, maxLen: nat, open: multiset<nat>, open': multiset<nat>, deepest: nat, d: nat, l: nat, clamped: bool)
    requires Tally(c, maxLen, open, deepest, clamped) && deepest <= d <= deepest + 1 && Splits(c, maxLen, d, l) && d in open && c[0] == 0
    requires open' == open - multiset{d} + multiset{d + 1, d + 1}
    ensures 1 <= l < maxLen && l + 1 < |c| && c[l] > 0 && Tally(Split(c, l), maxLen, open', d, clamped || d >= maxLen)
  {
    hide Spared;
    if !clamped && d < maxLen {
      SplitCounts(c, l, open, open');
    } else {
      SparedStep(c, maxLen, d, l, open, open');
    }
  }

  ghost predicate Counting(c: seq<nat>, maxLen: nat, t: Joins, e: nat, ld: seq<nat>, nd: seq<nat>, clamped: bool) {
    Deep(t, e, ld, nd) && e <= |t.w| && Full(c, |t.w| - e, maxLen) && t.ls[e] <= |t.w| && t.ns[e] <= e &&
    Tally(c, maxLen, Open(t, e, ld, nd), nd[e], clamped)
  }

  /** Where the next node's two children are counted: a level below it, or below the longest code that is not too long. */
  ghost predicate Splits(c: seq<nat>, maxLen: nat, d: nat, l: nat) {
    if d < maxLen then l == d else 1 <= l < maxLen < |c| && c[l] > 0 && forall j | l < j < maxLen :: c[j] == 0
  }

  lemma SplitCounts(c: seq<nat>, d: nat, open: multiset<nat>, open': multiset<nat>)
    requires d + 1 < |c| && d in open && (forall j | 0 <= j < |c| :: c[j] == open[j])
    requires open' == open - multiset{d} + multiset{d + 1, d + 1}
    ensures c[d] > 0 && forall j | 0 <= j < |c| :: Split(c, d)[j] == open'[j]
  {
  }

  lemma CountStep(c: seq<nat>, maxLen: nat, t: Joins, e: nat, ld: seq<nat>, nd: seq<nat>, clamped: bool, l: nat)
    requires e > 0 && Counting(c, maxLen, t, e, ld, nd, clamped) && e <= |nd| && Splits(c, maxLen, nd[e - 1], l)
    ensures var k, d := e - 1, nd[e - 1];
      1 <= l < maxLen && l + 1 < |c| && c[l] > 0 && Joining(t, k) && |ld| == |t.w| && |nd| == |t.nodes| &&
      Counting(Split(c, l), maxLen, t, k, DeeperLeaves(t, k, ld, d), DeeperNodes(t, k, nd, d), clamped || d >= maxLen)
  {
    hide Deep, Filled, DeeperLeaves, DeeperNodes, Open, IsTree, Full, Tally, Splits;
    var k, d := e - 1, nd[e - 1];
    Shape(t, e, ld, nd);
    FullShape(c, |t.w| - e, maxLen);
    Deeper(t, e, ld, nd);
    TreeOfDeep(t, e, ld, nd);
    Monotone(t, k, e);
    OpenStep(t, e, ld, nd);
    OwnExpanded(t, k, ld, nd);
    TallyStep(c, maxLen, Open(t, e, ld, nd), Open(t, k, DeeperLeaves(t, k, ld, d), DeeperNodes(t, k, nd, d)), nd[e], d, l, clamped);
    StaysFull(c, |t.w| - e, maxLen, l);
  }

  lemma FullShape(c: seq<nat>, num: nat, maxLen: nat)
    requires Full(c, num, maxLen)
    ensures |c| == MAX_LEN + 1 && maxLen <= MAX_LEN && c[0] == 0
  {
  }

  lemma TreeOfDeep(t: Joins, e: nat, ld: seq<nat>, nd: seq<nat>)
    requires Deep(t, e, ld, nd)
    ensures IsTree(t)
  {
  }

  // ---------- In place ----------

  /** Nodes below e still hold their parents, the others their depths. */
  ghost predicate PlacesDeep(s: seq<word>, s0: seq<word>, t: Joins, e: nat, nd: seq<nat>) {
    |s| == |s0| == |t.nodes| + 1 && |nd| == |t.nodes| && |t.ns| == |t.nodes| + 1 && e <= |t.nodes| &&
    (forall j | 0 <= j < |s| :: Sym(s[j]) == Sym(s0[j])) &&
    (forall j | 0 <= j < e :: High(s[j]) < |t.nodes| && t.ns[High(s[j])] <= j < t.ns[High(s[j]) + 1]) &&
    (forall j | e <= j < |t.nodes| :: High(s[j]) == nd[j])
  }

  lemma ParentsDepth(s: seq<word>, s0: seq<word>, t: Joins, e: nat, ld: seq<nat>, nd: seq<nat>)
    requires 0 < e && Deep(t, e, ld, nd) && PlacesDeep(s, s0, t, e, nd)
    ensures High(s[e - 1]) < |s| && High(s[High(s[e - 1])]) + 1 == nd[e - 1] < |s|
  {
    var k := High(s[e - 1]);
    assert Joining(t, k) && e <= k;
    assert Expanded(t, k, ld, nd);
    Deeper(t, e, ld, nd);
  }

  lemma DepthStored(s: seq<word>, s0: seq<word>, t: Joins, e: nat, nd: seq<nat>)
    requires 0 < e && IsTree(t) && PlacesDeep(s, s0, t, e, nd) && nd[e - 1] < 0x40_0000
    ensures Joining(t, e - 1)
    ensures PlacesDeep(s[e - 1 := Pack(Sym(s[e - 1]), nd[e - 1])], s0, t, e - 1, DeeperNodes(t, e - 1, nd, nd[e - 1]))
  {
    assert Joining(t, e - 1);
  }

  lemma StartDeep(s: seq<word>, s0: seq<word>, t: Joins, maxLen: nat) returns (ld: seq<nat>, nd: seq<nat>)
    requires |s| >= 2 && FullTree(s, s0, t) && 1 <= maxLen <= MAX_LEN
    ensures var e := |s| - 2;
      Descended(s[e := Pack(Sym(s[e]), 0)], s0, t, Constant(MAX_LEN + 1, 0)[1 := 2], maxLen, e, ld, nd, false)
  {
    hide Deep, IsTree, Filled, DeeperLeaves, DeeperNodes, Open, OpenCost, Huff, Height, Reaching;
    var e := |s| - 2;
    ld, nd := RootDeep(t);
    RootReaching(t, ld, nd);
    Shape(t, e, ld, nd);
    RootCost(t, ld, nd);
    RootOpen(t, ld, nd);
    assert t.nodes[e..] == [t.nodes[e]];
    assert Sum([t.nodes[e]]) == t.nodes[e];
    Monotone(t, e, e);
    assert High(Pack(Sym(s[e]), 0)) == 0;
    RootPlaces(s, s0, t, nd);
    TwoShortest(maxLen);
  }

  /** From the root on, the leaves reach as deep as the root is high. */
  lemma RootReaching(t: Joins, ld: seq<nat>, nd: seq<nat>)
    requires IsTree(t) && |t.nodes| + 1 == |t.w| && t.ls[|t.nodes|] == |t.w| && t.nodes != []
    requires t.ns[|t.nodes|] == |t.nodes| - 1 && Joining(t, |t.nodes| - 1)
    requires ld == DeeperLeaves(t, |t.nodes| - 1, Constant(|t.w|, 0), 0)
    requires nd == DeeperNodes(t, |t.nodes| - 1, Constant(|t.nodes|, 0), 0)
    ensures |t.hs| == |t.nodes| && Reaching(t, |t.nodes| - 1, ld, nd, t.hs[|t.nodes| - 1])
  {
    hide Filled, Tallest, Sum;
    var e, zl, zn := |t.nodes|, Constant(|t.w|, 0), Constant(|t.nodes|, 0);
    assert zn[e - 1] + t.hs[e - 1] == t.hs[e - 1];
    assert Reaching(t, e, zl, zn, t.hs[e - 1]);
    ReachingStep(t, e, zl, zn, t.hs[e - 1]);
  }

  lemma RootPlaces(s: seq<word>, s0: seq<word>, t: Joins, nd: seq<nat>)
    requires |s| >= 2 && FullTree(s, s0, t) && |nd| == |t.nodes| && nd[|s| - 2] == 0
    ensures var e := |s| - 2; PlacesDeep(s[e := Pack(Sym(s[e]), 0)], s0, t, e, nd)
  {
    hide Huff, Sum, IsTree, Height, Sym, High, Pack, Leaves;
    var e := |s| - 2;
    var v := Pack(Sym(s[e]), 0);
    assert Sym(v) == Sym(s[e]) && High(v) == 0;
    forall j | 0 <= j < e
      ensures High(s[j]) < |t.nodes| && t.ns[High(s[j])] <= j < t.ns[High(s[j]) + 1]
    {
      assert Highs(s[..e])[j] == High(s[j]);
    }
  }

  lemma TwoShortest(maxLen: nat)
    requires 1 <= maxLen <= MAX_LEN
    ensures Full(Constant(MAX_LEN + 1, 0)[1 := 2], 2, maxLen)
  {
    hide Pow2;
    var c := Constant(MAX_LEN + 1, 0);
    Nowhere(c);
    Nowhere(Weighted(Pows(), c));
    SumUpdate(c, 1, 2);
    CostUpdate(Pows(), c, 1, 2);
    PowNext(MAX_LEN - 1);
  }

  /** What the counts are in the end, and what they have to do with the depths of the leaves. */
  ghost predicate Counted(c: seq<nat>, w: seq<nat>, maxLen: nat, ld: seq<nat>) {
    |ld| == |w| >= 2 && Full(c, |w|, maxLen) && Falling(ld, 0) && Cost(w, ld) == Huff(w) && ld[0] == Height(Leaves(w)) &&
    if Height(Leaves(w)) <= maxLen then forall l | 0 <= l <= MAX_LEN :: c[l] == multiset(ld)[l]
    else c[maxLen] > 0 && exists m: nat :: Spared(c, maxLen, m, multiset(ld))
  }

  lemma AllCounted(c: seq<nat>, maxLen: nat, t: Joins, ld: seq<nat>, nd: seq<nat>, clamped: bool)
    requires Counting(c, maxLen, t, 0, ld, nd, clamped) && OpenCost(t, 0, ld, nd) == Sum(t.nodes) == Huff(t.w)
    requires Reaching(t, 0, ld, nd, Height(Leaves(t.w)))
    ensures Counted(c, t.w, maxLen, ld)
  {
    hide Huff, Full, Height;
    assert Joining(t, 0) && Expanded(t, 0, ld, nd);
    assert t.w[0..] == t.w && ld[0..] == ld && t.nodes[0..0] == [] && nd[0..0] == [];
    assert Cost([], []) == 0;
    assert ld[0] == nd[0] + 1;
    assert Open(t, 0, ld, nd) == multiset(ld);
    assert forall j | 0 <= j < |ld| :: ld[j] <= ld[0];
  }

  /** The longest of the shorter codes: splitting it costs least. */
  method FindShorter(lenCounters: array<nat>, maxLen: nat, ghost num: nat) returns (len: nat)
    requires Full(lenCounters[..], num, maxLen) && num < Pow2(maxLen)
    ensures 1 <= len < maxLen < lenCounters.Length && lenCounters[len] > 0 && forall l | len < l < maxLen :: lenCounters[l] == 0
  {
    hide Full;
    FullShape(lenCounters[..], num, maxLen);
    SomeShorter(lenCounters[..], num, maxLen);
    ghost var k :| 1 <= k < maxLen && lenCounters[..][k] > 0;
    len := maxLen - 1;
    while lenCounters[len] == 0
      invariant k <= len < maxLen && forall l | len < l < maxLen :: lenCounters[l] == 0
      decreases len
    {
      assert len != k;
      len := len - 1;
    }
  }

  /** Everything the loop keeps. */
  ghost predicate Descended(s: seq<word>, s0: seq<word>, t: Joins, c: seq<nat>, maxLen: nat, e: nat, ld: seq<nat>, nd: seq<nat>, clamped: bool) {
    PlacesDeep(s, s0, t, e, nd) && Counting(c, maxLen, t, e, ld, nd, clamped) && OpenCost(t, e, ld, nd) == Sum(t.nodes[e..]) &&
    |t.hs| == |t.nodes| > 0 && Reaching(t, e, ld, nd, t.hs[|t.nodes| - 1])
  }

  lemma DescendOne(s: seq<word>, s0: seq<word>, t: Joins, c: seq<nat>, maxLen: nat, e: nat, ld: seq<nat>, nd: seq<nat>, clamped: bool, l: nat)
    requires 0 < e && Descended(s, s0, t, c, maxLen, e, ld, nd, clamped) && e <= |nd| && Splits(c, maxLen, nd[e - 1], l) && |s| < 0x40_0000
    ensures var k, d := e - 1, nd[e - 1];
      1 <= l < maxLen && l + 1 < |c| && c[l] > 0 && Joining(t, k) && |ld| == |t.w| && |nd| == |t.nodes| && k < |s| && d < 0x40_0000 &&
      Descended(s[k := Pack(Sym(s[k]), d)], s0, t, Split(c, l), maxLen, k, DeeperLeaves(t, k, ld, d), DeeperNodes(t, k, nd, d),
                clamped || d >= maxLen)
  {
    hide Deep, PlacesDeep, Filled, DeeperLeaves, DeeperNodes, OpenCost, Sum, Full, IsTree, Open, Pack, Sym, Reaching;
    Shape(t, e, ld, nd);
    TreeOfDeep(t, e, ld, nd);
    DescendedParts(s, s0, t, c, maxLen, e, ld, nd, clamped);
    DepthStored(s, s0, t, e, nd);
    Monotone(t, e, e);
    CountStep(c, maxLen, t, e, ld, nd, clamped, l);
    CostStep(t, e, ld, nd);
    ReachingStep(t, e, ld, nd, t.hs[|t.nodes| - 1]);
    OneMoreNode(t.nodes, e - 1);
    OwnExpanded(t, e - 1, ld, nd);
  }

  lemma OneMoreNode(s: seq<nat>, k: nat)
    requires k < |s|
    ensures Sum(s[k..]) == s[k] + Sum(s[k + 1..])
  {
    assert s[k..][1..] == s[k + 1..];
  }

  lemma TreeShape(s: seq<word>, s0: seq<word>, t: Joins)
    requires FullTree(s, s0, t)
    ensures |s| == |s0| == |t.w| == |t.nodes| + 1 && t.w == Highs(s0) && Sum(t.nodes) == Huff(t.w) && forall j | 0 <= j < |s| :: Sym(s[j]) == Sym(s0[j])
    ensures |t.hs| == |t.nodes| && t.hs[|t.nodes| - 1] == Height(Leaves(t.w))
  {
  }

  lemma DescendedParts(s: seq<word>, s0: seq<word>, t: Joins, c: seq<nat>, maxLen: nat, e: nat, ld: seq<nat>, nd: seq<nat>, clamped: bool)
    requires 0 < e && Descended(s, s0, t, c, maxLen, e, ld, nd, clamped)
    ensures e <= |nd| < |s| && Full(c, |t.w| - e, maxLen) && |c| == MAX_LEN + 1
    ensures High(s[e - 1]) < |s| && High(s[High(s[e - 1])]) + 1 == nd[e - 1] < |s|
  {
    hide Deep, Open, OpenCost, Sum;
    Shape(t, e, ld, nd);
    ParentsDepth(s, s0, t, e, ld, nd);
  }

  /** One pass of the loop: node e - 1 gets its depth, and its two children are counted. */
  method Descend(p: array<word>, num: nat, maxLen: nat, e: nat, lenCounters: array<nat>, ghost s0: seq<word>, ghost t: Joins,
                 ghost ld: seq<nat>, ghost nd: seq<nat>, ghost clamped: bool)
    returns (ghost ld': seq<nat>, ghost nd': seq<nat>, ghost clamped': bool)
    requires 0 < e < num == |t.w| <= p.Length && num <= MASKED && num <= Pow2(maxLen)
    requires lenCounters.Length == MAX_LEN + 1
    requires Descended(p[..num], s0, t, lenCounters[..], maxLen, e, ld, nd, clamped)
    modifies p, lenCounters
    ensures p[num..] == old(p[num..])
    ensures Descended(p[..num], s0, t, lenCounters[..], maxLen, e - 1, ld', nd', clamped')
  {
    hide Descended, DeeperLeaves, DeeperNodes, Full, Pack, Sym;
    ghost var s, c, k := p[..num], lenCounters[..], e - 1;
    DescendedParts(s, s0, t, c, maxLen, e, ld, nd, clamped);
    var len := High(p[High(p[e - 1])]) + 1;
    p[e - 1] := Pack(Sym(p[e - 1]), len);
    assert p[..num] == s[k := Pack(Sym(s[k]), nd[k])];
    if len >= maxLen {
      len := FindShorter(lenCounters, maxLen, num - e);
    }
    DescendOne(s, s0, t, c, maxLen, e, ld, nd, clamped, len);
    lenCounters[len] := lenCounters[len] - 1;
    lenCounters[len + 1] := lenCounters[len + 1] + 2;
    assert lenCounters[..] == Split(c, len);
    ld', nd' := DeeperLeaves(t, k, ld, nd[k]), DeeperNodes(t, k, nd, nd[k]);
    clamped' := clamped || nd[k] >= maxLen;
  }

  lemma Finished(s: seq<word>, s0: seq<word>, t: Joins, c: seq<nat>, maxLen: nat, ld: seq<nat>, nd: seq<nat>, clamped: bool)
    requires Descended(s, s0, t, c, maxLen, 0, ld, nd, clamped) && Sum(t.nodes) == Huff(t.w) && t.w == Highs(s0)
    requires t.hs[|t.nodes| - 1] == Height(Leaves(t.w))
    ensures Counted(c, Highs(s0), maxLen, ld) && Deep(t, 0, ld, nd) && |s| == |s0| && forall j | 0 <= j < |s| :: Sym(s[j]) == Sym(s0[j])
  {
    assert t.nodes[0..] == t.nodes;
    AllCounted(c, maxLen, t, ld, nd, clamped);
  }

  /** The depths of all nodes and leaves of the tree, and from them the counts of code lengths. */
  method CountLengths(p: array<word>, num: nat, maxLen: nat, ghost s0: seq<word>, ghost t: Joins)
    returns (lenCounters: array<nat>, ghost ld: seq<nat>, ghost nd: seq<nat>)
    requires 2 <= num <= p.Length && num <= MASKED && 1 <= maxLen <= MAX_LEN && num <= Pow2(maxLen) && FullTree(p[..num], s0, t)
    modifies p
    ensures p[num..] == old(p[num..]) && (forall j | 0 <= j < num :: Sym(p[j]) == Sym(s0[j])) && |s0| == num
    ensures fresh(lenCounters) && Deep(t, 0, ld, nd) && Counted(lenCounters[..], Highs(s0), maxLen, ld)
  {
    hide Counted, Descended, FullTree, Pack, Sym, Pow2, Huff, Height, Constant, Sum, Deep;
    lenCounters := new nat[MAX_LEN + 1](_ => 0);
    ghost var s, clamped := p[..num], false;
    TreeShape(s, s0, t);
    ld, nd := StartDeep(s, s0, t, maxLen);
    var e := num - 2;
    p[e] := Pack(Sym(p[e]), 0);
    lenCounters[1] := 2;
    assert p[..num] == s[e := Pack(Sym(s[e]), 0)] && lenCounters[..] == Constant(MAX_LEN + 1, 0)[1 := 2];
    while e > 0
      invariant e < num && p[num..] == old(p[num..]) && lenCounters.Length == MAX_LEN + 1
      invariant Descended(p[..num], s0, t, lenCounters[..], maxLen, e, ld, nd, clamped)
    {
      ld, nd, clamped := Descend(p, num, maxLen, e, lenCounters, s0, t, ld, nd, clamped);
      e := e - 1;
    }
    Finished(p[..num], s0, t, lenCounters[..], maxLen, ld, nd, clamped);
  }
}
