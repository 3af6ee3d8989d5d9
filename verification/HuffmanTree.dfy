/** The second phase of Huffman_Generate: the tree is built inside the list of symbols. A place holds
    the weight of a leaf, later the weight of a node, then the number of that node's parent. */
module HuffmanTree {
  import opened Arith
  import opened Huffman
  import opened HuffmanHeight
  import opened Sort
  import opened HuffmanList

  // ---------- The tree ----------

  /** Weights of leaves and nodes; node k, of height hs[k], joins the leaves from ls[k] and the nodes from ns[k] on. */
  datatype Joins = Joins(w: seq<nat>, nodes: seq<nat>, hs: seq<nat>, ls: seq<nat>, ns: seq<nat>)

  /** The height of the tallest, 0 for leaves alone. */
  function Tallest(s: seq<nat>): nat {
    if s == [] then 0 else Larger(s[0], Tallest(s[1..]))
  }

  ghost predicate Joining(t: Joins, k: nat) {
    k < |t.nodes| == |t.hs| && |t.ls| == |t.ns| == |t.nodes| + 1 &&
    t.ls[k] <= t.ls[k + 1] <= |t.w| && t.ns[k] <= t.ns[k + 1] <= k &&
    t.ls[k + 1] - t.ls[k] + t.ns[k + 1] - t.ns[k] == 2 &&
    t.nodes[k] == Sum(t.w[t.ls[k]..t.ls[k + 1]]) + Sum(t.nodes[t.ns[k]..t.ns[k + 1]]) &&
    t.hs[k] == 1 + Tallest(t.hs[t.ns[k]..t.ns[k + 1]])
  }

  ghost predicate IsTree(t: Joins) {
    |t.hs| == |t.nodes| && |t.ls| == |t.ns| == |t.nodes| + 1 && t.ls[0] == t.ns[0] == 0 && forall k | 0 <= k < |t.nodes| :: Joining(t, k)
  }

  function Nodes(nodes: seq<nat>, hs: seq<nat>): (q: seq<Root>)
    requires |hs| == |nodes|
    ensures |q| == |nodes| && forall k | 0 <= k < |q| :: q[k] == Root(nodes[k], hs[k])
  {
    seq(|nodes|, k requires 0 <= k < |nodes| => Root(nodes[k], hs[k]))
  }

  /** Leaves and nodes that were not joined yet, lightest first. */
  function Rest(w: seq<nat>, nodes: seq<nat>, hs: seq<nat>, i: nat, b: nat): seq<Root>
    requires i <= |w| && b <= |nodes| == |hs|
  {
    Merged(Leaves(w)[i..], Nodes(nodes, hs)[b..])
  }

  // ---------- One join ----------

  /** What is left is in order and not below low, and the last node not above twice that. */
  ghost predicate InQueues(w: seq<nat>, nodes: seq<nat>, i: nat, b: nat, low: nat) {
    i <= |w| && b <= |nodes| && Sorted(w) && Sorted(nodes) &&
    (forall j | i <= j < |w| :: low <= w[j]) && (forall j | b <= j < |nodes| :: low <= nodes[j]) &&
    (nodes != [] ==> nodes[|nodes| - 1] <= 2 * low)
  }

  /** One item of weight f is taken off its queue. */
  ghost predicate Taking(w: seq<nat>, nodes: seq<nat>, i: nat, b: nat, i': nat, b': nat, f: nat) {
    i <= i' <= |w| && b <= b' <= |nodes| && i' + b' == i + b + 1 &&
    f == if i < i' then w[i] else nodes[b]
  }

  /** The item taken, of weight f. */
  function Taken(hs: seq<nat>, i: nat, b: nat, i': nat, f: nat): Root
    requires i < i' || b < |hs|
  {
    Root(f, if i < i' then 0 else hs[b])
  }

  /** The choice of the source: a leaf, unless a node is lighter. */
  predicate LeafFirst(w: seq<nat>, nodes: seq<nat>, i: nat, b: nat) {
    i < |w| && (b >= |nodes| || w[i] <= nodes[b])
  }

  lemma Take(w: seq<nat>, nodes: seq<nat>, hs: seq<nat>, i: nat, b: nat, low: nat)
    requires |hs| == |nodes| && InQueues(w, nodes, i, b, low) && i + b < |w| + |nodes|
    ensures var leaf := LeafFirst(w, nodes, i, b);
      var i', b' := if leaf then i + 1 else i, if leaf then b else b + 1;
      b' <= |nodes| &&
      var f := if leaf then w[i] else nodes[b];
      Taking(w, nodes, i, b, i', b', f) && low <= f &&
      (forall j | i' <= j < |w| :: f <= w[j]) && (forall j | b' <= j < |nodes| :: f <= nodes[j]) &&
      Rest(w, nodes, hs, i, b) == [Taken(hs, i, b, i', f)] + Rest(w, nodes, hs, i', b')
  {
    var a, c := Leaves(w)[i..], Nodes(nodes, hs)[b..];
    if LeafFirst(w, nodes, i, b) {
      assert a[1..] == Leaves(w)[i + 1..];
    } else {
      assert c[1..] == Nodes(nodes, hs)[b + 1..];
    }
  }

  lemma TakenSum(w: seq<nat>, nodes: seq<nat>, i: nat, b: nat, i': nat, b': nat, f: nat)
    requires Taking(w, nodes, i, b, i', b', f)
    ensures f == Sum(w[i..i']) + Sum(nodes[b..b'])
    ensures Sum(w[i..]) + Sum(nodes[b..]) == f + Sum(w[i'..]) + Sum(nodes[b'..])
  {
    if i < i' {
      assert w[i..i'] == [w[i]] && nodes[b..b'] == [] && w[i..][1..] == w[i'..];
    } else {
      assert nodes[b..b'] == [nodes[b]] && w[i..i'] == [] && nodes[b..][1..] == nodes[b'..];
    }
  }

  /** The height of the node that joins two items. */
  function NewHeight(hs: seq<nat>, i: nat, b: nat, i1: nat, b1: nat, i2: nat): nat
    requires (i < i1 || b < |hs|) && (i1 < i2 || b1 < |hs|)
  {
    Join(Taken(hs, i, b, i1, 0), Taken(hs, i1, b1, i2, 0)).height
  }

  /** Two items were taken and their sum is pushed: what is left costs less by it, and is as high. */
  lemma JoinTwo(w: seq<nat>, nodes: seq<nat>, hs: seq<nat>, before: seq<Root>, x: Root, y: Root, i: nat, b: nat)
    requires i <= |w| && b <= |nodes| == |hs| && before == [x, y] + Rest(w, nodes, hs, i, b)
    requires Sorted(w[i..]) && forall k | 0 <= k < |nodes[b..]| :: nodes[b..][k] <= x.weight + y.weight
    ensures var after := Rest(w, nodes + [x.weight + y.weight], hs + [Join(x, y).height], i, b);
      Huff(Weights(before)) == x.weight + y.weight + Huff(Weights(after)) && Height(before) == Height(after)
  {
    hide Huff, Height, Merged, Queue, Weights, Nodes, Leaves;
    Waiting(w, nodes, hs, i, b, Join(x, y));
    Pushed(Leaves(w)[i..], Nodes(nodes, hs)[b..], Join(x, y));
    HeightStep(x, y, Rest(w, nodes, hs, i, b));
  }

  lemma Waiting(w: seq<nat>, nodes: seq<nat>, hs: seq<nat>, i: nat, b: nat, x: Root)
    requires i <= |w| && b <= |nodes| == |hs| && Sorted(w[i..])
    requires forall k | 0 <= k < |nodes[b..]| :: nodes[b..][k] <= x.weight
    ensures Rising(Leaves(w)[i..]) && forall k | 0 <= k < |Nodes(nodes, hs)[b..]| :: Nodes(nodes, hs)[b..][k].weight <= x.weight
    ensures Nodes(nodes + [x.weight], hs + [x.height])[b..] == Nodes(nodes, hs)[b..] + [x]
  {
    var a, c := Leaves(w)[i..], Nodes(nodes, hs)[b..];
    assert forall k | 0 <= k < |a| :: a[k].weight == w[i..][k];
    assert forall k | 0 <= k < |c| :: c[k].weight == nodes[b..][k];
  }

  lemma Queued(w: seq<nat>, nodes: seq<nat>, i: nat, b: nat, low: nat, i2: nat, b2: nat, f: nat, g: nat)
    requires InQueues(w, nodes, i, b, low) && low <= f <= g && i <= i2 <= |w| && b <= b2 <= |nodes|
    requires (forall j | i2 <= j < |w| :: g <= w[j]) && (forall j | b2 <= j < |nodes| :: g <= nodes[j])
    ensures InQueues(w, nodes + [f + g], i2, b2, g)
    ensures Sorted(w[i2..]) && forall k | 0 <= k < |nodes[b2..]| :: nodes[b2..][k] <= f + g
  {
    NoneHeavier(nodes, 2 * low);
    SortedOn(nodes, f + g);
    SortedFrom(w, i2);
  }

  lemma NoneHeavier(nodes: seq<nat>, most: nat)
    requires Sorted(nodes) && (nodes != [] ==> nodes[|nodes| - 1] <= most)
    ensures forall k | 0 <= k < |nodes| :: nodes[k] <= most
  {
    forall k | 0 <= k < |nodes|
      ensures nodes[k] <= most
    {
      assert nodes[k] <= nodes[|nodes| - 1];
    }
  }

  lemma SortedOn(nodes: seq<nat>, x: nat)
    requires Sorted(nodes) && forall k | 0 <= k < |nodes| :: nodes[k] <= x
    ensures Sorted(nodes + [x])
  {
  }

  lemma SortedFrom(w: seq<nat>, i: nat)
    requires Sorted(w) && i <= |w|
    ensures Sorted(w[i..])
  {
  }

  /** The tree with one node more. */
  function Grown(t: Joins, i1: nat, b1: nat, i2: nat, b2: nat, x: nat): Joins
    requires IsTree(t) && var i, b := t.ls[|t.nodes|], t.ns[|t.nodes|]; (i < i1 || b < |t.hs|) && (i1 < i2 || b1 < |t.hs|)
  {
    Joins(t.w, t.nodes + [x], t.hs + [NewHeight(t.hs, t.ls[|t.nodes|], t.ns[|t.nodes|], i1, b1, i2)], t.ls + [i2], t.ns + [b2])
  }

  lemma TallestTaken(w: seq<nat>, nodes: seq<nat>, hs: seq<nat>, i: nat, b: nat, i1: nat, b1: nat, f: nat, i2: nat, b2: nat, g: nat)
    requires |hs| == |nodes| && Taking(w, nodes, i, b, i1, b1, f) && Taking(w, nodes, i1, b1, i2, b2, g)
    ensures NewHeight(hs, i, b, i1, b1, i2) == 1 + Tallest(hs[b..b2])
  {
    hide Tallest, Join;
    JoinHeight(Taken(hs, i, b, i1, 0), Taken(hs, i1, b1, i2, 0));
    if b2 == b + 1 {
      TallestOf(hs, b);
    } else if b2 == b + 2 {
      TallestOfTwo(hs, b);
    } else {
      NoTallest(hs[b..b2]);
    }
  }

  lemma JoinHeight(f: Root, g: Root)
    ensures Join(f, g).height == 1 + Larger(f.height, g.height)
  {
  }

  lemma NoTallest(s: seq<nat>)
    ensures s == [] ==> Tallest(s) == 0
  {
  }

  lemma TallestOf(hs: seq<nat>, b: nat)
    requires b < |hs|
    ensures Tallest(hs[b..b + 1]) == hs[b]
  {
    assert hs[b..b + 1][1..] == [];
  }

  lemma TallestOfTwo(hs: seq<nat>, b: nat)
    requires b + 1 < |hs|
    ensures Tallest(hs[b..b + 2]) == Larger(hs[b], hs[b + 1])
  {
    assert hs[b..b + 2][1..] == hs[b + 1..b + 2];
    TallestOf(hs, b + 1);
  }

  lemma NewNode(t: Joins, i1: nat, b1: nat, f: nat, i2: nat, b2: nat, g: nat) returns (t': Joins)
    requires IsTree(t)
    requires var i, b := t.ls[|t.nodes|], t.ns[|t.nodes|];
      Taking(t.w, t.nodes, i, b, i1, b1, f) && Taking(t.w, t.nodes, i1, b1, i2, b2, g)
    ensures t' == Grown(t, i1, b1, i2, b2, f + g) && IsTree(t')
  {
    hide Sum, Tallest, NewHeight;
    var i, b, e := t.ls[|t.nodes|], t.ns[|t.nodes|], |t.nodes|;
    t' := Grown(t, i1, b1, i2, b2, f + g);
    TwoSum(t.w, t.nodes, i, b, i1, b1, f, i2, b2, g);
    TallestTaken(t.w, t.nodes, t.hs, i, b, i1, b1, f, i2, b2, g);
    assert t'.nodes[b..b2] == t.nodes[b..b2] && t'.hs[b..b2] == t.hs[b..b2];
    assert Joining(t', e);
    forall k | 0 <= k < e
      ensures Joining(t', k)
    {
      assert Joining(t, k);
      assert t'.nodes[t.ns[k]..t.ns[k + 1]] == t.nodes[t.ns[k]..t.ns[k + 1]];
      assert t'.hs[t.ns[k]..t.ns[k + 1]] == t.hs[t.ns[k]..t.ns[k + 1]];
    }
  }

  lemma TwoSum(w: seq<nat>, nodes: seq<nat>, i: nat, b: nat, i1: nat, b1: nat, f: nat, i2: nat, b2: nat, g: nat)
    requires Taking(w, nodes, i, b, i1, b1, f) && Taking(w, nodes, i1, b1, i2, b2, g)
    ensures f + g == Sum(w[i..i2]) + Sum(nodes[b..b2])
    ensures Sum(w[i..]) + Sum(nodes[b..]) == Sum(w[i2..]) + Sum((nodes + [f + g])[b2..])
  {
    TakenSum(w, nodes, i, b, i1, b1, f);
    TakenSum(w, nodes, i1, b1, i2, b2, g);
    Cut(w, i, i1, i2);
    Cut(nodes, b, b1, b2);
    SumConcat(nodes[b2..], [f + g]);
    assert (nodes + [f + g])[b2..] == nodes[b2..] + [f + g];
    assert Sum([f + g]) == f + g;
  }

  lemma Cut(s: seq<nat>, i: nat, j: nat, k: nat)
    requires i <= j <= k <= |s|
    ensures Sum(s[i..k]) == Sum(s[i..j]) + Sum(s[j..k])
  {
    SumConcat(s[i..j], s[j..k]);
    assert s[i..j] + s[j..k] == s[i..k];
  }

  // ---------- Building it in place ----------

  function Highs(s: seq<word>): (w: seq<nat>)
    ensures |w| == |s| && forall j | 0 <= j < |s| :: w[j] == High(s[j])
  {
    seq(|s|, j requires 0 <= j < |s| => High(s[j]))
  }

  /** The places of s, which held the leaves s0: the symbols stay; the leaves from i on wait, the nodes
      from |parents| on wait in the first places, and before them stand the numbers of their parents. */
  ghost predicate InPlace(s: seq<word>, s0: seq<word>, nodes: seq<nat>, parents: seq<nat>, i: nat) {
    |s| == |s0| && |parents| <= |nodes| <= i <= |s| &&
    (forall j | 0 <= j < |s| :: Sym(s[j]) == Sym(s0[j])) &&
    (forall j | i <= j < |s| :: s[j] == s0[j]) &&
    (forall j | |parents| <= j < |nodes| :: High(s[j]) == nodes[j]) &&
    (forall j | 0 <= j < |parents| :: High(s[j]) == parents[j])
  }

  ghost predicate Parents(t: Joins, parents: seq<nat>) {
    |t.ls| == |t.ns| == |t.nodes| + 1 && |parents| == t.ns[|t.nodes|] &&
    forall j | 0 <= j < |parents| :: parents[j] < |t.nodes| && t.ns[parents[j]] <= j < t.ns[parents[j] + 1]
  }

  ghost predicate Small(w: seq<nat>, nodes: seq<nat>, i: nat, b: nat) {
    i <= |w| && b <= |nodes| && Sum(w[i..]) + Sum(nodes[b..]) == Sum(w) < 0x40_0000
  }

  lemma {:induction false} PartOfSum(s: seq<nat>, k: nat)
    requires k < |s|
    ensures s[k] <= Sum(s)
  {
    if k > 0 {
      PartOfSum(s[1..], k - 1);
    }
  }

  lemma Heads(s: seq<word>, s0: seq<word>, nodes: seq<nat>, parents: seq<nat>, i: nat)
    requires InPlace(s, s0, nodes, parents, i)
    ensures |parents| <= |nodes| <= i <= |s| == |s0|
    ensures i < |s| ==> High(s[i]) == Highs(s0)[i]
    ensures |parents| < |nodes| ==> High(s[|parents|]) == nodes[|parents|]
  {
  }

  lemma Marked(s: seq<word>, s0: seq<word>, nodes: seq<nat>, parents: seq<nat>, i: nat)
    requires InPlace(s, s0, nodes, parents, i) && |nodes| < 0x40_0000
    ensures i < |s| ==> InPlace(s[i := Pack(Sym(s[i]), |nodes|)], s0, nodes, parents, i + 1)
    ensures var b := |parents|;
      b < |nodes| ==> InPlace(s[b := Pack(Sym(s[b]), |nodes|)], s0, nodes, parents + [|nodes|], i)
  {
  }

  /** One of the two choices in the loop: the lighter item is taken and its place gets the number of the node to be. */
  method Choose(p: array<word>, num: nat, i: nat, b: nat, e: nat, ghost s0: seq<word>, ghost nodes: seq<nat>,
                ghost hs: seq<nat>, ghost parents: seq<nat>, ghost low: nat)
    returns (i': nat, b': nat, freq: nat, ghost parents': seq<nat>)
    requires num == |s0| <= p.Length && e == |nodes| == |hs| < 0x40_0000 && b == |parents|
    requires InPlace(p[..num], s0, nodes, parents, i) && InQueues(Highs(s0), nodes, i, b, low) && i + b < num + e
    modifies p
    ensures p[num..] == old(p[num..])
    ensures Taking(Highs(s0), nodes, i, b, i', b', freq) && low <= freq
    ensures (forall j | i' <= j < num :: freq <= Highs(s0)[j]) && (forall j | b' <= j < e :: freq <= nodes[j])
    ensures Rest(Highs(s0), nodes, hs, i, b) == [Taken(hs, i, b, i', freq)] + Rest(Highs(s0), nodes, hs, i', b')
    ensures parents' == (if b < b' then parents + [e] else parents) && InPlace(p[..num], s0, nodes, parents', i')
  {
    hide InPlace, InQueues, Pack, Merged, Rest;
    ghost var w, s := Highs(s0), p[..num];
    Take(w, nodes, hs, i, b, low);
    Heads(s, s0, nodes, parents, i);
    Marked(s, s0, nodes, parents, i);
    i', b', parents' := i, b, parents;
    var n;
    if i != num && (b == e || High(p[i]) <= High(p[b])) {
      n := i;
      i' := i + 1;
    } else {
      n := b;
      b' := b + 1;
      parents' := parents + [e];
    }
    freq := High(p[n]);
    p[n] := Pack(Sym(p[n]), e);
    assert p[..num] == s[n := Pack(Sym(s[n]), e)];
  }

  /** So far: the tree and what is left to join, all of it in s, with the whole cost in sight. */
  ghost predicate Building(s: seq<word>, s0: seq<word>, t: Joins, parents: seq<nat>, low: nat) {
    IsTree(t) && t.w == Highs(s0) && |t.nodes| < |s0| && Parents(t, parents) &&
    var i, b := t.ls[|t.nodes|], t.ns[|t.nodes|];
    i + b == 2 * |t.nodes| && InPlace(s, s0, t.nodes, parents, i) && InQueues(t.w, t.nodes, i, b, low) &&
    Small(t.w, t.nodes, i, b) && CostInSight(t, i, b)
  }

  /** What is left to join, with what was joined, makes up the whole cost and the whole height. */
  ghost predicate CostInSight(t: Joins, i: nat, b: nat) {
    i <= |t.w| && b <= |t.nodes| == |t.hs| &&
    var rest := Rest(t.w, t.nodes, t.hs, i, b);
    Huff(Weights(rest)) + Sum(t.nodes) == Huff(t.w) && Height(rest) == Height(Leaves(t.w))
  }

  lemma Bounds(s: seq<word>, s0: seq<word>, t: Joins, parents: seq<nat>, low: nat)
    requires Building(s, s0, t, parents, low)
    ensures var e := |t.nodes|;
      |t.hs| == e && |t.ls| == |t.ns| == e + 1 && t.ls[e] + t.ns[e] == 2 * e && t.ns[e] <= e <= t.ls[e] <= |s| == |s0| && |parents| == t.ns[e]
  {
    var e := |t.nodes|;
    if e > 0 {
      assert Joining(t, e - 1);
    }
  }

  lemma StartBuilding(s0: seq<word>)
    requires s0 != [] && ByWeight(s0) && Sum(Highs(s0)) < 0x40_0000
    ensures Building(s0, s0, Joins(Highs(s0), [], [], [0], [0]), [], 0)
  {
    hide Huff, Height, Sym, High, ByWeight;
    var w := Highs(s0);
    SortedHighs(s0);
    MergedAlone(Leaves(w));
    assert w[0..] == w && Leaves(w)[0..] == Leaves(w) && Weights(Leaves(w)) == w;
    var t := Joins(w, [], [], [0], [0]);
    assert IsTree(t) && Parents(t, []) && InPlace(s0, s0, [], [], 0);
    assert InQueues(w, [], 0, 0, 0) && Small(w, [], 0, 0);
    assert Rest(w, [], [], 0, 0) == Leaves(w);
  }

  lemma SortedHighs(s: seq<word>)
    requires ByWeight(s)
    ensures Sorted(Highs(s))
  {
  }

  lemma SumFits(w: seq<nat>, nodes: seq<nat>, i: nat, b: nat, i1: nat, b1: nat, f: nat, i2: nat, b2: nat, g: nat)
    requires Small(w, nodes, i, b) && Taking(w, nodes, i, b, i1, b1, f) && Taking(w, nodes, i1, b1, i2, b2, g)
    ensures f + g < 0x40_0000 && Small(w, nodes + [f + g], i2, b2)
  {
    TakenSum(w, nodes, i, b, i1, b1, f);
    TakenSum(w, nodes, i1, b1, i2, b2, g);
    TwoSum(w, nodes, i, b, i1, b1, f, i2, b2, g);
  }

  lemma NodeStored(s: seq<word>, s0: seq<word>, nodes: seq<nat>, parents: seq<nat>, i: nat, x: nat)
    requires InPlace(s, s0, nodes, parents, i) && |nodes| < i && x < 0x40_0000
    ensures InPlace(s[|nodes| := Pack(Sym(s[|nodes|]), x)], s0, nodes + [x], parents, i)
  {
  }

  /** Parents of the taken nodes are known: the one that is new. */
  lemma NewParents(t: Joins, t': Joins, parents: seq<nat>, parents': seq<nat>)
    requires IsTree(t) && IsTree(t') && Parents(t, parents) && |t'.nodes| == |t.nodes| + 1
    requires t'.ls == t.ls + [t'.ls[|t.nodes| + 1]] && t'.ns == t.ns + [t'.ns[|t.nodes| + 1]]
    requires |parents'| == t'.ns[|t.nodes| + 1] && parents <= parents'
    requires forall j | |parents| <= j < |parents'| :: parents'[j] == |t.nodes|
    ensures Parents(t', parents')
  {
    forall j | 0 <= j < |parents'|
      ensures parents'[j] < |t'.nodes| && t'.ns[parents'[j]] <= j < t'.ns[parents'[j] + 1]
    {
      if j < |parents| {
        assert parents'[j] == parents[j];
      }
    }
  }

  lemma TwoOff(w: seq<nat>, nodes: seq<nat>, hs: seq<nat>, i: nat, b: nat, i1: nat, b1: nat, f: nat, i2: nat, b2: nat, g: nat)
    requires |hs| == |nodes| && Taking(w, nodes, i, b, i1, b1, f) && Taking(w, nodes, i1, b1, i2, b2, g)
    requires Rest(w, nodes, hs, i, b) == [Taken(hs, i, b, i1, f)] + Rest(w, nodes, hs, i1, b1)
    requires Rest(w, nodes, hs, i1, b1) == [Taken(hs, i1, b1, i2, g)] + Rest(w, nodes, hs, i2, b2)
    ensures Rest(w, nodes, hs, i, b) == [Taken(hs, i, b, i1, f), Taken(hs, i1, b1, i2, g)] + Rest(w, nodes, hs, i2, b2)
  {
  }

  /** The two lightest items, f and g, were taken off the queues. */
  ghost predicate TwoTaken(t: Joins, low: nat, i1: nat, b1: nat, f: nat, i2: nat, b2: nat, g: nat) {
    |t.hs| == |t.nodes| && |t.ls| == |t.ns| == |t.nodes| + 1 &&
    var i, b := t.ls[|t.nodes|], t.ns[|t.nodes|];
    i <= i1 <= i2 <= |t.w| && b <= b1 <= b2 <= |t.nodes| && low <= f <= g &&
    Taking(t.w, t.nodes, i, b, i1, b1, f) && Taking(t.w, t.nodes, i1, b1, i2, b2, g) &&
    Rest(t.w, t.nodes, t.hs, i, b) == [Taken(t.hs, i, b, i1, f), Taken(t.hs, i1, b1, i2, g)] + Rest(t.w, t.nodes, t.hs, i2, b2) &&
    (forall j | i2 <= j < |t.w| :: g <= t.w[j]) && (forall j | b2 <= j < |t.nodes| :: g <= t.nodes[j])
  }

  lemma JoinedOne(t: Joins, low: nat, i1: nat, b1: nat, f: nat, i2: nat, b2: nat, g: nat) returns (t': Joins)
    requires IsTree(t) && TwoTaken(t, low, i1, b1, f, i2, b2, g)
    requires var i, b := t.ls[|t.nodes|], t.ns[|t.nodes|];
      InQueues(t.w, t.nodes, i, b, low) && Small(t.w, t.nodes, i, b) && CostInSight(t, i, b)
    ensures f + g < 0x40_0000
    ensures t' == Grown(t, i1, b1, i2, b2, f + g) && IsTree(t')
    ensures InQueues(t'.w, t'.nodes, i2, b2, g) && Small(t'.w, t'.nodes, i2, b2) && CostInSight(t', i2, b2)
  {
    hide InQueues, Small, CostInSight, Rest, Joining, NewHeight;
    var i, b := t.ls[|t.nodes|], t.ns[|t.nodes|];
    t' := NewNode(t, i1, b1, f, i2, b2, g);
    Queued(t.w, t.nodes, i, b, low, i2, b2, f, g);
    SumFits(t.w, t.nodes, i, b, i1, b1, f, i2, b2, g);
    CostCarried(t, low, i1, b1, f, i2, b2, g);
  }

  lemma CostCarried(t: Joins, low: nat, i1: nat, b1: nat, f: nat, i2: nat, b2: nat, g: nat)
    requires IsTree(t) && TwoTaken(t, low, i1, b1, f, i2, b2, g)
    requires var i, b := t.ls[|t.nodes|], t.ns[|t.nodes|]; InQueues(t.w, t.nodes, i, b, low) && CostInSight(t, i, b)
    ensures CostInSight(Grown(t, i1, b1, i2, b2, f + g), i2, b2)
  {
    hide InQueues, Huff, Height, Weights, Rest, Joining, IsTree, Sum, Join;
    var i, b := t.ls[|t.nodes|], t.ns[|t.nodes|];
    var x, y := Taken(t.hs, i, b, i1, f), Taken(t.hs, i1, b1, i2, g);
    Queued(t.w, t.nodes, i, b, low, i2, b2, f, g);
    JoinHeight(x, y);
    JoinHeight(Taken(t.hs, i, b, i1, 0), Taken(t.hs, i1, b1, i2, 0));
    JoinTwo(t.w, t.nodes, t.hs, Rest(t.w, t.nodes, t.hs, i, b), x, y, i2, b2);
    SumOneMore(t.nodes, f + g);
  }

  lemma SumOneMore(s: seq<nat>, x: nat)
    ensures Sum(s + [x]) == Sum(s) + x
  {
    SumConcat(s, [x]);
    assert Sum([x]) == x;
  }

  lemma LowRaised(w: seq<nat>, nodes: seq<nat>, i: nat, b: nat, low: nat, i1: nat, b1: nat, f: nat)
    requires InQueues(w, nodes, i, b, low) && Taking(w, nodes, i, b, i1, b1, f) && low <= f
    requires (forall j | i1 <= j < |w| :: f <= w[j]) && (forall j | b1 <= j < |nodes| :: f <= nodes[j])
    ensures InQueues(w, nodes, i1, b1, f)
  {
  }

  /** The new node is written over a place that was given up. */
  lemma Closed(was: seq<word>, s: seq<word>, s0: seq<word>, t: Joins, parents: seq<nat>, low: nat, i1: nat, b1: nat, f: nat, i2: nat, b2: nat,
               g: nat, parents': seq<nat>) returns (t': Joins)
    requires |t.nodes| + 1 < |s0| == |s| && Building(was, s0, t, parents, low)
    requires InPlace(s, s0, t.nodes, parents', i2) && TwoTaken(t, low, i1, b1, f, i2, b2, g)
    requires |parents'| == b2 && parents <= parents' && forall j | |parents| <= j < |parents'| :: parents'[j] == |t.nodes|
    ensures f + g < 0x40_0000 && t' == Grown(t, i1, b1, i2, b2, f + g)
    ensures Building(s[|t.nodes| := Pack(Sym(s[|t.nodes|]), f + g)], s0, t', parents', g)
  {
    hide InPlace, InQueues, Small, CostInSight, Rest, Joining, Pack, Sym, NewHeight;
    Bounds(was, s0, t, parents, low);
    t' := JoinedOne(t, low, i1, b1, f, i2, b2, g);
    NodeStored(s, s0, t.nodes, parents', i2, f + g);
    NewParents(t, t', parents, parents');
  }

  /** One pass of the loop. */
  method JoinInPlace(p: array<word>, num: nat, i: nat, b: nat, e: nat, ghost s0: seq<word>, ghost t: Joins,
                     ghost parents: seq<nat>, ghost low: nat)
    returns (i': nat, b': nat, ghost t': Joins, ghost parents': seq<nat>, ghost low': nat)
    requires num == |s0| <= p.Length && num <= MASKED && e == |t.nodes| && e + 1 < num
    requires Building(p[..num], s0, t, parents, low) && i == t.ls[e] && b == t.ns[e]
    modifies p
    ensures p[num..] == old(p[num..])
    ensures Building(p[..num], s0, t', parents', low') && |t'.nodes| == e + 1
    ensures i' == t'.ls[e + 1] && b' == t'.ns[e + 1]
  {
    hide Building, InPlace, InQueues, Rest, Pack, Sym, IsTree, NewHeight;
    ghost var w, was := Highs(s0), p[..num];
    Bounds(was, s0, t, parents, low);
    Opened(was, s0, t, parents, low);
    var i1, b1, freq1, i2, b2, freq2;
    ghost var parents1;
    i1, b1, freq1, parents1 := Choose(p, num, i, b, e, s0, t.nodes, t.hs, parents, low);
    LowRaised(w, t.nodes, i, b, low, i1, b1, freq1);
    i2, b2, freq2, parents' := Choose(p, num, i1, b1, e, s0, t.nodes, t.hs, parents1, freq1);
    ghost var s := p[..num];
    TwoOff(w, t.nodes, t.hs, i, b, i1, b1, freq1, i2, b2, freq2);
    assert TwoTaken(t, low, i1, b1, freq1, i2, b2, freq2);
    t' := Closed(was, s, s0, t, parents, low, i1, b1, freq1, i2, b2, freq2, parents');
    p[e] := Pack(Sym(p[e]), freq1 + freq2);
    assert p[..num] == s[e := Pack(Sym(s[e]), freq1 + freq2)];
    i', b', low' := i2, b2, freq2;
  }

  lemma Opened(s: seq<word>, s0: seq<word>, t: Joins, parents: seq<nat>, low: nat)
    requires Building(s, s0, t, parents, low)
    ensures t.w == Highs(s0)
    ensures InPlace(s, s0, t.nodes, parents, t.ls[|t.nodes|]) && InQueues(t.w, t.nodes, t.ls[|t.nodes|], t.ns[|t.nodes|], low)
  {
  }

  /** All joined: every place but the root's holds the number of the parent. */
  ghost predicate FullTree(s: seq<word>, s0: seq<word>, t: Joins) {
    IsTree(t) && t.w == Highs(s0) && |s| == |s0| == |t.nodes| + 1 >= 2 &&
    t.ls[|t.nodes|] == |s| && t.ns[|t.nodes|] == |s| - 2 && Sum(t.nodes) == Huff(t.w) && t.hs[|t.nodes| - 1] == Height(Leaves(t.w)) &&
    (forall j | 0 <= j < |s| :: Sym(s[j]) == Sym(s0[j])) && Parents(t, Highs(s[..|s| - 2]))
  }

  method BuildTree(p: array<word>, num: nat) returns (ghost t: Joins)
    requires 2 <= num <= p.Length && num <= MASKED && ByWeight(p[..num]) && Sum(Highs(p[..num])) < 0x40_0000
    modifies p
    ensures p[num..] == old(p[num..]) && FullTree(p[..num], old(p[..num]), t)
  {
    hide Building;
    ghost var s0 := p[..num];
    StartBuilding(s0);
    t := Joins(Highs(s0), [], [], [0], [0]);
    ghost var parents: seq<nat>, low: nat := [], 0;
    var i, b, e := 0, 0, 0;
    while num - e > 1
      invariant e < num && e == |t.nodes| && p[num..] == old(p[num..])
      invariant Building(p[..num], s0, t, parents, low) && |t.ls| == |t.ns| == e + 1 && i == t.ls[e] && b == t.ns[e]
    {
      i, b, t, parents, low := JoinInPlace(p, num, i, b, e, s0, t, parents, low);
      e := e + 1;
      Bounds(p[..num], s0, t, parents, low);
    }
    AllJoined(p[..num], s0, t, parents, low);
  }

  lemma AllJoined(s: seq<word>, s0: seq<word>, t: Joins, parents: seq<nat>, low: nat)
    requires Building(s, s0, t, parents, low) && |t.nodes| + 1 == |s0| >= 2
    ensures FullTree(s, s0, t)
  {
    hide Huff, Height, Merged, Tallest, Sum;
    Bounds(s, s0, t, parents, low);
    var e := |t.nodes|;
    assert Joining(t, e - 1);
    assert t.ns[e] <= e - 1;
    assert t.ls[e] == e + 1 && t.ns[e] == e - 1;
    assert Highs(s[..e - 1]) == parents;
    LastNode(t.w, t.nodes, t.hs);
  }

  lemma LastNode(w: seq<nat>, nodes: seq<nat>, hs: seq<nat>)
    requires |hs| == |nodes| > 0
    ensures var rest := Rest(w, nodes, hs, |w|, |nodes| - 1); Huff(Weights(rest)) == 0 && Height(rest) == hs[|nodes| - 1]
  {
    hide Huff, Height;
    var x := Root(nodes[|nodes| - 1], hs[|nodes| - 1]);
    assert Leaves(w)[|w|..] == [] && Nodes(nodes, hs)[|nodes| - 1..] == [x];
    assert [x][1..] == [];
    assert Merged([], [x]) == [x];
    OneLeft(x);
  }
}
