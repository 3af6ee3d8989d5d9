/** How deep Huffman's tree is: the two queues, a leaf before a node of the same weight, and the proof
    that every code of the same cost has a code word at least as long. */
module HuffmanHeight {
  import opened Arith
  import opened Huffman

  // ---------- Items ----------

  /** A leaf or a node: its weight, and how far below it the deepest leaf is. */
  datatype Root = Root(weight: nat, height: nat)

  function Weights(q: seq<Root>): (w: seq<nat>)
    ensures |w| == |q| && forall k | 0 <= k < |q| :: w[k] == q[k].weight
  {
    seq(|q|, k requires 0 <= k < |q| => q[k].weight)
  }

  function Leaves(w: seq<nat>): (q: seq<Root>)
    ensures |q| == |w| && forall k | 0 <= k < |w| :: q[k] == Root(w[k], 0)
  {
    seq(|w|, k requires 0 <= k < |w| => Root(w[k], 0))
  }

  function Larger(a: nat, b: nat): nat {
    if a < b then b else a
  }

  function Join(f: Root, g: Root): Root {
    Root(f.weight + g.weight, 1 + Larger(f.height, g.height))
  }

  /** An item goes behind all that are not heavier. */
  function Queue(x: Root, q: seq<Root>): (r: seq<Root>)
    ensures |r| == |q| + 1 && Weights(r) == Insert(x.weight, Weights(q))
  {
    var p := Place(x.weight, Weights(q));
    var r := q[..p] + [x] + q[p..];
    assert Weights(r) == Weights(q)[..p] + [x.weight] + Weights(q)[p..];
    r
  }

  /** Join the two lightest and go on with their sum in its place: the height of what is left. */
  function Height(q: seq<Root>): nat
    decreases |q|
  {
    if q == [] then 0 else if |q| == 1 then q[0].height else Height(Queue(Join(q[0], q[1]), q[2..]))
  }

  lemma HeightStep(f: Root, g: Root, q: seq<Root>)
    ensures Height([f, g] + q) == Height(Queue(Join(f, g), q))
    ensures Huff(Weights([f, g] + q)) == f.weight + g.weight + Huff(Weights(Queue(Join(f, g), q)))
  {
    hide Queue, Huff, Weights;
    var all := [f, g] + q;
    assert all[2..] == q;
    HuffStep(all);
  }

  lemma HuffStep(q: seq<Root>)
    requires |q| >= 2
    ensures Huff(Weights(q)) == q[0].weight + q[1].weight + Huff(Weights(Queue(Join(q[0], q[1]), q[2..])))
  {
    hide Queue, Insert, Weights;
    WeightsBehind(q);
  }

  lemma WeightsBehind(q: seq<Root>)
    requires |q| >= 2
    ensures Weights(q)[2..] == Weights(q[2..])
  {
  }

  lemma OneLeft(x: Root)
    ensures Height([x]) == x.height && Huff(Weights([x])) == 0
  {
  }

  // ---------- Two queues ----------

  /** What waits in two sorted queues, as one; a leaf goes before a node of the same weight. */
  function Merged(a: seq<Root>, b: seq<Root>): (r: seq<Root>)
    ensures |r| == |a| + |b|
    decreases |a| + |b|
  {
    if b == [] || (a != [] && a[0].weight <= b[0].weight) then
      if a == [] then [] else [a[0]] + Merged(a[1..], b)
    else [b[0]] + Merged(a, b[1..])
  }

  lemma {:induction false} MergedAlone(a: seq<Root>)
    ensures Merged(a, []) == a
  {
    if a != [] {
      MergedAlone(a[1..]);
    }
  }

  ghost predicate Rising(q: seq<Root>) {
    forall i, j | 0 <= i < j < |q| :: q[i].weight <= q[j].weight
  }

  /** A node that is pushed behind all nodes is queued with all that wait. */
  lemma {:induction false} Pushed(a: seq<Root>, b: seq<Root>, x: Root)
    requires Rising(a) && forall k | 0 <= k < |b| :: b[k].weight <= x.weight
    ensures Merged(a, b + [x]) == Queue(x, Merged(a, b))
    decreases |a| + |b|
  {
    hide Queue;
    var c := b + [x];
    if b == [] && (a == [] || x.weight < a[0].weight) {
      MergedAlone(a);
      assert c[1..] == [];
      QueueFirst(x, a);
    } else if b == [] || (a != [] && a[0].weight <= b[0].weight) {
      assert a[0].weight <= c[0].weight;
      Pushed(a[1..], b, x);
      QueueBehind(x, a[0], Merged(a[1..], b));
    } else {
      assert c[1..] == b[1..] + [x] && c[0] == b[0];
      Pushed(a, b[1..], x);
      QueueBehind(x, b[0], Merged(a, b[1..]));
    }
  }

  lemma QueueFirst(x: Root, q: seq<Root>)
    requires q == [] || x.weight < q[0].weight
    ensures Queue(x, q) == [x] + q
  {
  }

  lemma QueueBehind(x: Root, y: Root, q: seq<Root>)
    requires y.weight <= x.weight
    ensures Queue(x, [y] + q) == [y] + Queue(x, q)
  {
    hide Weights, Place;
    FirstWeight(y, q);
    PlaceBehind(x.weight, y.weight, Weights(q));
    Shifted(x, y, q, Place(x.weight, Weights(q)));
  }

  lemma FirstWeight(y: Root, q: seq<Root>)
    ensures Weights([y] + q) == [y.weight] + Weights(q)
  {
  }

  lemma Shifted(x: Root, y: Root, q: seq<Root>, p: nat)
    requires p <= |q|
    ensures ([y] + q)[..p + 1] + [x] + ([y] + q)[p + 1..] == [y] + (q[..p] + [x] + q[p..])
  {
    assert ([y] + q)[..p + 1] == [y] + q[..p] && ([y] + q)[p + 1..] == q[p..];
  }

  lemma PlaceBehind(x: nat, y: nat, q: seq<nat>)
    requires y <= x
    ensures Place(x, [y] + q) == 1 + Place(x, q)
  {
    assert ([y] + q)[1..] == q;
  }

  // ---------- No code of this cost is shorter ----------

  /** First by weight, then by height. */
  predicate Before(x: Root, y: Root) {
    x.weight < y.weight || (x.weight == y.weight && x.height <= y.height)
  }

  /** Items as they come up while a tree is built: in order, and no node is later than the next join may be. */
  ghost predicate Ordered(q: seq<Root>) {
    (forall i, j | 0 <= i < j < |q| :: Before(q[i], q[j])) &&
    forall k | 0 <= k < |q| && q[k].height > 0 :: Before(q[k], Join(q[0], q[0]))
  }

  lemma LeavesOrdered(w: seq<nat>)
    requires Sorted(w)
    ensures Ordered(Leaves(w)) && Weights(Leaves(w)) == w
  {
  }

  lemma LightBefore(f: Root, g: Root, y: Root)
    requires Before(f, g) && y.weight <= f.weight + g.weight && (y.height > 0 ==> Before(y, Join(f, f)))
    ensures Before(y, Join(f, g))
  {
  }

  lemma LaterJoin(f: Root, r: Root, y: Root)
    requires Before(f, r) && Before(y, Join(f, f))
    ensures Before(y, Join(r, r))
  {
  }

  lemma NewJoin(f: Root, g: Root, r: Root)
    requires Before(f, g) && (Before(g, r) || r == Join(f, g))
    ensures Before(Join(f, g), Join(r, r)) && Before(f, r)
  {
  }

  lemma OrderedStep(q: seq<Root>)
    requires |q| >= 2 && Ordered(q)
    ensures Ordered(Queue(Join(q[0], q[1]), q[2..]))
  {
    hide Weights, Join;
    var f, g, rest := q[0], q[1], q[2..];
    var x, w := Join(f, g), Weights(rest);
    var p := Place(f.weight + g.weight, w);
    var r := rest[..p] + [x] + rest[p..];
    JoinWeight(f, g);
    assert Queue(x, rest) == r;
    assert Before(f, g);
    NewJoin(f, g, r[0]) by {
      assert p > 0 ==> r[0] == q[2];
    }
    forall k | 0 <= k < |rest|
      ensures if k < p then Before(rest[k], x) else Before(x, rest[k])
      ensures rest[k].height > 0 ==> Before(rest[k], Join(r[0], r[0]))
    {
      assert rest[k] == q[k + 2] && w[k] == rest[k].weight;
      if k < p {
        LightBefore(f, g, rest[k]);
      } else {
        assert rest[p] == q[p + 2] && w[p] <= w[k];
      }
      if rest[k].height > 0 {
        LaterJoin(f, r[0], rest[k]);
      }
    }
    InOrderStill(rest, x, p, Join(r[0], r[0]));
  }

  lemma JoinWeight(f: Root, g: Root)
    ensures Join(f, g).weight == f.weight + g.weight
  {
  }

  lemma InOrderStill(rest: seq<Root>, x: Root, p: nat, last: Root)
    requires p <= |rest| && (forall i, j | 0 <= i < j < |rest| :: Before(rest[i], rest[j]))
    requires forall k | 0 <= k < |rest| :: if k < p then Before(rest[k], x) else Before(x, rest[k])
    requires Before(x, last) && forall k | 0 <= k < |rest| && rest[k].height > 0 :: Before(rest[k], last)
    ensures var r := rest[..p] + [x] + rest[p..];
      (forall i, j | 0 <= i < j < |r| :: Before(r[i], r[j])) && forall k | 0 <= k < |r| && r[k].height > 0 :: Before(r[k], last)
  {
    hide Before;
    var r := rest[..p] + [x] + rest[p..];
    assert forall k | 0 <= k < |r| :: r[k] == if k < p then rest[k] else if k == p then x else rest[k - 1];
  }

  /** Some leaf below item k is that deep in a code with these lengths. */
  ghost predicate Reaches(q: seq<Root>, l: seq<nat>, h: nat)
    requires |q| == |l|
  {
    exists k | 0 <= k < |q| :: l[k] + q[k].height >= h
  }

  lemma {:induction false} NoShorter(q: seq<Root>, l: seq<nat>, m: nat)
    requires |q| == |l| >= 1 && Ordered(q) && Codable(l, m) && Cost(Weights(q), l) == Huff(Weights(q))
    ensures Reaches(q, l, Height(q))
    decreases |q|, Sum(l), 1
  {
    hide Height, Huff, Cost, Sum, Codable;
    if |q| == 1 {
      OneLeft(q[0]);
      assert q == [q[0]];
      assert l[0] + q[0].height >= Height(q);
    } else {
      var a := LongestFrom(l, 0);
      var l1 := SwappedBack(q, l, m, 0, a);
      var b := LongestFrom(l1, 1);
      var l2 := SwappedBack(q, l1, m, 1, b);
      LongestFirst(q, l2, m);
    }
  }

  /** A longer code for a lighter item costs no less, so it costs the same, and reaches no deeper. */
  lemma SwappedBack(q: seq<Root>, l: seq<nat>, m: nat, a: nat, b: nat) returns (l': seq<nat>)
    requires |q| == |l| && Ordered(q) && Codable(l, m) && a <= b < |q| && l[a] <= l[b] && Cost(Weights(q), l) == Huff(Weights(q))
    ensures l' == l[a := l[b]][b := l[a]]
    ensures Codable(l', m) && Cost(Weights(q), l') == Huff(Weights(q)) && Sum(l') == Sum(l)
    ensures forall h :: Reaches(q, l', h) ==> Reaches(q, l, h)
  {
    hide Huff, Sum, Codable;
    var w := Weights(q);
    OrderedWeights(q);
    l' := Swapped(w, l, m, a, b);
    NoBetter(w, l', m);
    if a < b && l[a] < l[b] {
      CostUpdate(w, l, a, l[b]);
      CostUpdate(w, l[a := l[b]], b, l[a]);
      SameWeight(w[a], w[b], l[a], l[b]);
    }
    forall h | Reaches(q, l', h)
      ensures Reaches(q, l, h)
    {
      var k :| 0 <= k < |q| && l'[k] + q[k].height >= h;
      if k == a || k == b {
        assert l[b] + q[b].height >= h || l[k] + q[k].height >= h;
      } else {
        assert l[k] + q[k].height >= h;
      }
    }
  }

  lemma OrderedWeights(q: seq<Root>)
    requires Ordered(q)
    ensures Sorted(Weights(q))
  {
  }

  lemma SameWeight(x: nat, y: nat, u: nat, v: nat)
    requires x <= y && u < v && x * u + y * v <= x * v + y * u
    ensures x == y
  {
    if x < y {
      MulStep(0, v - u, y - x);
    }
  }

  lemma {:induction false} LongestFirst(q: seq<Root>, l: seq<nat>, m: nat)
    requires |q| == |l| >= 2 && Ordered(q) && Codable(l, m) && Cost(Weights(q), l) == Huff(Weights(q))
    requires l[1] <= l[0] && forall k | 2 <= k < |l| :: l[k] <= l[1]
    ensures Reaches(q, l, Height(q))
    decreases |q|, Sum(l), 0
  {
    hide Height, Huff, Cost, Sum, Codable;
    var w := Weights(q);
    OrderedWeights(q);
    if l[1] < l[0] {
      var l' := Shortened(w, l, m);
      NoBetter(w, l', m);
      NoShorter(q, l', m);
      var k :| 0 <= k < |q| && l'[k] + q[k].height >= Height(q);
      assert l[k] + q[k].height >= Height(q);
    } else {
      var l' := JoinedBack(q, l, m);
      OrderedStep(q);
      NoShorter(Queue(Join(q[0], q[1]), q[2..]), l', m);
    }
  }

  /** Two of the longest code words are joined into one: the same height is reached. */
  lemma JoinedBack(q: seq<Root>, l: seq<nat>, m: nat) returns (l': seq<nat>)
    requires |q| == |l| >= 2 && Codable(l, m) && Cost(Weights(q), l) == Huff(Weights(q)) && l[0] == l[1]
    ensures var q' := Queue(Join(q[0], q[1]), q[2..]);
      |l'| == |q'| && Codable(l', m) && Cost(Weights(q'), l') == Huff(Weights(q')) && Height(q') == Height(q) &&
      forall h :: Reaches(q', l', h) ==> Reaches(q, l, h)
  {
    hide Height, Huff, Cost, Sum, Codable, Reaches, Queue, Weights, Place, Insert;
    var w := Weights(q);
    var p := Place(w[0] + w[1], w[2..]);
    Joined(w, l, m);
    WeightsBehind(q);
    l' := l[2..][..p] + [l[0] - 1] + l[2..][p..];
    HeightStep(q[0], q[1], q[2..]);
    assert [q[0], q[1]] + q[2..] == q;
    forall h | Reaches(Queue(Join(q[0], q[1]), q[2..]), l', h)
      ensures Reaches(q, l, h)
    {
      ReachesThrough(q, l, p, h);
    }
  }

  /** What hangs below a join hangs below one of the two. */
  lemma ReachesThrough(q: seq<Root>, l: seq<nat>, p: nat, h: nat)
    requires |q| == |l| >= 2 && 0 < l[0] == l[1] && p == Place(q[0].weight + q[1].weight, Weights(q[2..]))
    requires Reaches(Queue(Join(q[0], q[1]), q[2..]), l[2..][..p] + [l[0] - 1] + l[2..][p..], h)
    ensures Reaches(q, l, h)
  {
    hide Weights, Place;
    var x, rest, tail := Join(q[0], q[1]), q[2..], l[2..];
    var q', l' := rest[..p] + [x] + rest[p..], tail[..p] + [l[0] - 1] + tail[p..];
    assert Queue(x, rest) == q';
    var k :| 0 <= k < |q'| && l'[k] + q'[k].height >= h;
    if k == p {
      assert l[if q[0].height < q[1].height then 1 else 0] + Larger(q[0].height, q[1].height) >= h;
    } else {
      var j := if k < p then k + 2 else k + 1;
      assert q'[k] == q[j] && l'[k] == l[j];
    }
  }

  /** Leaves alone: the longest code is no shorter than Huffman's tree is high. */
  lemma LongEnough(w: seq<nat>, l: seq<nat>, m: nat)
    requires |w| == |l| >= 1 && Sorted(w) && Codable(l, m) && Cost(w, l) == Huff(w)
    ensures exists k | 0 <= k < |l| :: l[k] >= Height(Leaves(w))
  {
    hide Height, Huff, Cost, Codable;
    LeavesOrdered(w);
    NoShorter(Leaves(w), l, m);
    var k :| 0 <= k < |l| && l[k] + Leaves(w)[k].height >= Height(Leaves(w));
    assert l[k] >= Height(Leaves(w));
  }

  // ---------- A code of this cost ----------

  /** Lengths that cost what Huffman's algorithm says. */
  lemma {:induction false} CostReached(w: seq<nat>) returns (l: seq<nat>, m: nat)
    requires |w| >= 1
    ensures |l| == |w| && Codable(l, m) && Cost(w, l) == Huff(w) && (|w| >= 2 ==> forall k | 0 <= k < |l| :: l[k] > 0)
    decreases |w|
  {
    hide Cost, Codable, Huff, Unjoin, Insert;
    if |w| == 1 {
      l, m := [0], 0;
      NoCode(w);
    } else {
      CostSplit(w);
      var x, p := w[0] + w[1], Place(w[0] + w[1], w[2..]);
      var l', m' := CostReached(Insert(x, w[2..]));
      l, m := Unjoin(l', p), m' + 1;
      UnjoinedCost(w, l', p);
      UnjoinedCode(l', m', p);
    }
  }

  lemma NoCode(w: seq<nat>)
    requires |w| == 1
    ensures Codable([0], 0) && Cost(w, [0]) == Huff(w)
  {
    assert Shares([0], 0) == [1] && Weighted(w, [0]) == [0];
  }

  lemma CostSplit(w: seq<nat>)
    requires |w| >= 2
    ensures Huff(w) == w[0] + w[1] + Huff(Insert(w[0] + w[1], w[2..]))
  {
    hide Insert;
  }

  /** The code word at p is made two longer ones, which go to the front. */
  function Unjoin(l: seq<nat>, p: nat): (r: seq<nat>)
    requires p < |l|
    ensures |r| == |l| + 1 && r[0] == r[1] == l[p] + 1 && r[2..] == l[..p] + l[p + 1..]
    ensures forall k | 2 <= k < |r| :: r[k] == if k - 2 < p then l[k - 2] else l[k - 1]
  {
    [l[p] + 1, l[p] + 1] + l[..p] + l[p + 1..]
  }

  lemma UnjoinedCost(w: seq<nat>, l': seq<nat>, p: nat)
    requires |w| >= 2 && |l'| + 1 == |w| && p == Place(w[0] + w[1], w[2..])
    ensures Cost(w, Unjoin(l', p)) == w[0] + w[1] + Cost(Insert(w[0] + w[1], w[2..]), l')
  {
    hide Cost, Insert, Unjoin;
    var l := Unjoin(l', p);
    JoinedCost(w, l);
    assert l'[..p] + [l'[p]] + l'[p + 1..] == l';
    assert (l'[..p] + l'[p + 1..])[..p] == l'[..p] && (l'[..p] + l'[p + 1..])[p..] == l'[p + 1..];
  }

  lemma UnjoinedCode(l': seq<nat>, m: nat, p: nat)
    requires p < |l'| && Codable(l', m)
    ensures Codable(Unjoin(l', p), m + 1)
  {
    hide Pow2, Sum, Unjoin, Shares;
    UnjoinedShares(l', m, p);
    var s, s' := Shares(Unjoin(l', p), m + 1), Shares(l', m + 1);
    TwoApart(s);
    InMiddle(s[2..], p, s'[p]);
    PartsOf(s', p);
    PowNext(m - l'[p]);
    Rescaled(l', m, 1);
    PowNext(m);
    PowZero();
  }

  lemma UnjoinedShares(l': seq<nat>, m: nat, p: nat)
    requires p < |l'| && AtMost(l', m)
    ensures AtMost(Unjoin(l', p), m + 1) && AtMost(l', m + 1)
    ensures var s, s' := Shares(Unjoin(l', p), m + 1), Shares(l', m + 1);
      |s| == |l'| + 1 && |s'| == |l'| && s[0] == s[1] == Pow2(m - l'[p]) && s'[p] == Pow2(m - l'[p] + 1) && s[2..] == s'[..p] + s'[p + 1..]
  {
    hide Pow2, Unjoin;
    var s, s' := Shares(Unjoin(l', p), m + 1), Shares(l', m + 1);
    assert forall k | 2 <= k < |s| :: s[k] == if k - 2 < p then s'[k - 2] else s'[k - 1];
  }

  lemma PartsOf(s: seq<nat>, p: nat)
    requires p < |s|
    ensures var rest := s[..p] + s[p + 1..]; rest[..p] + [s[p]] + rest[p..] == s
  {
  }

  lemma PowZero()
    ensures Pow2(0) == 1 && Pow2(1) == 2
  {
  }
}
