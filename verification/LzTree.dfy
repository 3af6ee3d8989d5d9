/** The binary search trees of the match finder: sons of the last cyclicBufferSize positions,
    kept in a cyclic array and relinked in place while a new position is inserted at the root. */
module LzTree {
  import opened Bytes
  import opened Arith
  import opened LzRank

  /** A search at position at of the text. Positions are kept as references relative to pos,
      and strings are compared up to limit. */
  datatype View = View(text: seq<octet>, at: nat, pos: nat, size: nat, limit: nat)

  ghost predicate ValidView(w: View) {
    0 < w.size <= w.pos && w.at + w.limit <= |w.text|
  }

  /** The range of strings that the subtree of each position was inserted for. */
  datatype Bounds = Bounds(lo: seq<int>, hi: seq<int>)

  function R(w: View, p: nat): nat {
    Rank(w.text, p, w.limit)
  }

  /** References that far back are empty. */
  predicate Dead(w: View, v: nat) {
    w.pos - v >= w.size
  }

  function Idx(w: View, v: nat): int {
    w.at - (w.pos - v)
  }

  function Slot(p: nat, size: nat): (s: nat)
    requires size > 0
    ensures s < size
  {
    p % size
  }

  predicate Recent(w: View, p: nat) {
    p <= w.at < p + w.size
  }

  /** A reference from the node at p to a subtree whose strings lie between x and y. */
  ghost predicate ChildOk(w: View, v: nat, p: nat, x: int, y: int, b: Bounds) {
    v < w.pos &&
    (Dead(w, v) || (0 <= Idx(w, v) < p && Idx(w, v) < |b.lo| == |b.hi| && x <= b.lo[Idx(w, v)] && b.hi[Idx(w, v)] <= y))
  }

  /** The node at p is in order, and so are its sons but for those in the slots hole0 and hole1. */
  ghost predicate NodeOk(w: View, son: seq<nat>, b: Bounds, p: nat, hole0: nat, hole1: nat)
    requires w.size > 0 && |son| == 2 * w.size && p < |b.lo| == |b.hi|
  {
    var s := 2 * Slot(p, w.size);
    0 <= b.lo[p] <= R(w, p) <= b.hi[p] <= Pow256(w.limit) &&
    (s != hole0 && s != hole1 ==> ChildOk(w, son[s], p, b.lo[p], R(w, p), b)) &&
    (s + 1 != hole0 && s + 1 != hole1 ==> ChildOk(w, son[s + 1], p, R(w, p), b.hi[p], b))
  }

  /** All recent nodes below top are in order. */
  ghost predicate TreeOk(w: View, son: seq<nat>, b: Bounds, top: nat, hole0: nat, hole1: nat) {
    w.size > 0 && |son| == 2 * w.size && |b.lo| == |b.hi| == top &&
    forall p: nat | p < top && Recent(w, p) :: NodeOk(w, son, b, p, hole0, hole1)
  }

  // ---------- Slots ----------

  /** The slot delta positions back, as the finder computes it from the current slot. */
  lemma SlotBack(at: nat, delta: nat, size: nat)
    requires 0 < delta < size && delta <= at
    ensures var s := Slot(at, size);
            Slot(at - delta, size) == (if delta > s then s - delta + size else s - delta)
  {
    var s := Slot(at, size);
    DivMod(at, size);
    if delta > s {
      var q := at / size - 1;
      assert (q + 1) * size == q * size + size;
      ModUnique(at - delta, size, q, s - delta + size);
    } else {
      ModUnique(at - delta, size, at / size, s - delta);
    }
  }

  lemma SlotsDiffer(p: nat, q: nat, size: nat)
    requires p < q < p + size
    ensures Slot(p, size) != Slot(q, size)
  {
    SlotBack(q, q - p, size);
  }

  // ---------- The way down ----------

  /** The slot that waits for the next larger string: right of the new node, or left of the
      last larger one. */
  function Ptr0(w: View, w0: nat): (s: nat)
    requires w.size > 0
    ensures s < 2 * w.size
  {
    if w0 == w.at then 2 * Slot(w.at, w.size) + 1 else 2 * Slot(w0, w.size)
  }

  /** The slot that waits for the next smaller string. */
  function Ptr1(w: View, w1: nat): (s: nat)
    requires w.size > 0
    ensures s < 2 * w.size
  {
    if w1 == w.at then 2 * Slot(w.at, w.size) else 2 * Slot(w1, w.size) + 1
  }

  function Lower(a: int, b: int): int {
    if a < b then a else b
  }

  function Upper(a: int, b: int): int {
    if a < b then b else a
  }

  // The ranges that the two holes leave for what will be put there.
  function A1(w: View, w1: nat): int {
    if w1 == w.at then 0 else R(w, w1)
  }

  function B1(w: View, b: Bounds, w1: nat): int
    requires w1 < |b.hi|
  {
    if w1 == w.at then R(w, w.at) else b.hi[w1]
  }

  function A0(w: View, b: Bounds, w0: nat): int
    requires w0 < |b.lo|
  {
    if w0 == w.at then R(w, w.at) else b.lo[w0]
  }

  function B0(w: View, w0: nat): int {
    if w0 == w.at then Pow256(w.limit) else R(w, w0)
  }

  /** On the way down w0 is the last larger and w1 the last smaller node (at itself, when there
      is none), last the last node seen, and v the reference to the next one. */
  ghost predicate Descending(w: View, son: seq<nat>, b: Bounds, w0: nat, w1: nat, last: nat, v: nat) {
    w.size > 0 && |son| == 2 * w.size && Recent(w, last) && last <= w0 <= w.at && last <= w1 <= w.at &&
    TreeOk(w, son, b, w.at + 1, Ptr0(w, w0), Ptr1(w, w1)) &&
    b.lo[w.at] == 0 && b.hi[w.at] == Pow256(w.limit) &&
    (w1 != w.at ==> R(w, w1) < R(w, w.at)) && (w0 != w.at ==> R(w, w.at) < R(w, w0)) &&
    B1(w, b, w1) <= R(w, w.at) <= A0(w, b, w0) &&
    v < w.pos && (Dead(w, v) || (0 <= Idx(w, v) < last && Fits(w, b, w0, w1, Idx(w, v))))
  }

  /** The subtree of c fits in the holes once it is cut at the new string. */
  ghost predicate Fits(w: View, b: Bounds, w0: nat, w1: nat, c: nat)
    requires w0 < |b.lo| && w1 < |b.hi| && c < |b.lo| && c < |b.hi|
  {
    A1(w, w1) <= b.lo[c] && b.hi[c] <= B0(w, w0) &&
    Lower(b.hi[c], R(w, w.at)) <= B1(w, b, w1) && A0(w, b, w0) <= Upper(b.lo[c], R(w, w.at))
  }

  /** A search starts with both holes at the new node. */
  lemma StartDown(w: View, son: seq<nat>, b: Bounds, v: nat) returns (b': Bounds)
    requires ValidView(w) && TreeOk(w, son, b, w.at, 2 * w.size, 2 * w.size)
    requires v < w.pos && (Dead(w, v) || 0 <= Idx(w, v))
    ensures b' == Bounds(b.lo + [0], b.hi + [Pow256(w.limit)])
    ensures Descending(w, son, b', w.at, w.at, w.at, v)
  {
    hide Rank, Slot, Pow256;
    b' := Bounds(b.lo + [0], b.hi + [Pow256(w.limit)]);
    RankBound(w.text, w.at, w.limit);
    forall p: nat | p < w.at + 1 && Recent(w, p) ensures NodeOk(w, son, b', p, Ptr0(w, w.at), Ptr1(w, w.at)) {
      if p < w.at {
        assert NodeOk(w, son, b, p, 2 * w.size, 2 * w.size);
      }
    }
    if !Dead(w, v) {
      assert NodeOk(w, son, b, Idx(w, v), 2 * w.size, 2 * w.size);
    }
  }

  /** The node found is smaller than the new string: it goes into the hole for smaller strings,
      and its right son becomes that hole. */
  lemma GoSmaller(w: View, son: seq<nat>, b: Bounds, w0: nat, w1: nat, last: nat, v: nat) returns (b': Bounds)
    requires ValidView(w) && Descending(w, son, b, w0, w1, last, v) && !Dead(w, v) && R(w, Idx(w, v)) < R(w, w.at)
    ensures var c := Idx(w, v);
            var son' := son[Ptr1(w, w1) := v];
            b' == CutAbove(w, b, c) && son'[2 * Slot(c, w.size) + 1] == son[2 * Slot(c, w.size) + 1] &&
            Descending(w, son', b', w0, c, c, son'[2 * Slot(c, w.size) + 1])
  {
    hide Rank, Slot, Pow256;
    var c: nat := Idx(w, v);
    var s := 2 * Slot(c, w.size);
    var son' := son[Ptr1(w, w1) := v];
    b' := CutAbove(w, b, c);
    Apart(w, c, w0);
    Apart(w, c, w1);
    assert NodeOk(w, son, b, c, Ptr0(w, w0), Ptr1(w, w1));
    forall p: nat | p < w.at + 1 && Recent(w, p) ensures NodeOk(w, son', b', p, Ptr0(w, w0), Ptr1(w, c)) {
      SmallerKeepsNode(w, son, b, w0, w1, last, v, p);
    }
    if !Dead(w, son[s + 1]) {
      assert NodeOk(w, son, b, Idx(w, son[s + 1]), Ptr0(w, w0), Ptr1(w, w1));
    }
  }

  /** The strings under c now lie below the new one. */
  function CutAbove(w: View, b: Bounds, c: nat): Bounds
    requires c < |b.hi|
  {
    b.(hi := b.hi[c := Lower(b.hi[c], R(w, w.at))])
  }

  lemma SmallerKeepsNode(w: View, son: seq<nat>, b: Bounds, w0: nat, w1: nat, last: nat, v: nat, p: nat)
    requires ValidView(w) && Descending(w, son, b, w0, w1, last, v) && !Dead(w, v) && R(w, Idx(w, v)) < R(w, w.at)
    requires p <= w.at && Recent(w, p)
    ensures var c := Idx(w, v);
            NodeOk(w, son[Ptr1(w, w1) := v], CutAbove(w, b, c), p, Ptr0(w, w0), Ptr1(w, c))
  {
    hide Rank, Slot, Pow256;
    assert NodeOk(w, son, b, Idx(w, v), Ptr0(w, w0), Ptr1(w, w1));
    assert NodeOk(w, son, b, p, Ptr0(w, w0), Ptr1(w, w1));
    Apart(w, p, w1);
    Apart(w, p, Idx(w, v));
  }

  /** The node found is larger than the new string: it goes into the hole for larger strings,
      and its left son becomes that hole. */
  lemma GoLarger(w: View, son: seq<nat>, b: Bounds, w0: nat, w1: nat, last: nat, v: nat) returns (b': Bounds)
    requires ValidView(w) && Descending(w, son, b, w0, w1, last, v) && !Dead(w, v) && R(w, w.at) < R(w, Idx(w, v))
    ensures var c := Idx(w, v);
            var son' := son[Ptr0(w, w0) := v];
            b' == CutBelow(w, b, c) && son'[2 * Slot(c, w.size)] == son[2 * Slot(c, w.size)] &&
            Descending(w, son', b', c, w1, c, son'[2 * Slot(c, w.size)])
  {
    hide Rank, Slot, Pow256;
    var c: nat := Idx(w, v);
    var s := 2 * Slot(c, w.size);
    var son' := son[Ptr0(w, w0) := v];
    b' := CutBelow(w, b, c);
    Apart(w, c, w0);
    Apart(w, c, w1);
    assert NodeOk(w, son, b, c, Ptr0(w, w0), Ptr1(w, w1));
    forall p: nat | p < w.at + 1 && Recent(w, p) ensures NodeOk(w, son', b', p, Ptr0(w, c), Ptr1(w, w1)) {
      LargerKeepsNode(w, son, b, w0, w1, last, v, p);
    }
    if !Dead(w, son[s]) {
      assert NodeOk(w, son, b, Idx(w, son[s]), Ptr0(w, w0), Ptr1(w, w1));
    }
  }

  /** The strings under c now lie above the new one. */
  function CutBelow(w: View, b: Bounds, c: nat): Bounds
    requires c < |b.lo|
  {
    b.(lo := b.lo[c := Upper(b.lo[c], R(w, w.at))])
  }

  lemma LargerKeepsNode(w: View, son: seq<nat>, b: Bounds, w0: nat, w1: nat, last: nat, v: nat, p: nat)
    requires ValidView(w) && Descending(w, son, b, w0, w1, last, v) && !Dead(w, v) && R(w, w.at) < R(w, Idx(w, v))
    requires p <= w.at && Recent(w, p)
    ensures var c := Idx(w, v);
            NodeOk(w, son[Ptr0(w, w0) := v], CutBelow(w, b, c), p, Ptr0(w, c), Ptr1(w, w1))
  {
    hide Rank, Slot, Pow256;
    assert NodeOk(w, son, b, Idx(w, v), Ptr0(w, w0), Ptr1(w, w1));
    assert NodeOk(w, son, b, p, Ptr0(w, w0), Ptr1(w, w1));
    Apart(w, p, w0);
    Apart(w, p, Idx(w, v));
  }

  /** The next node is older than all those seen, and at most size - 1 positions back. */
  lemma NextNode(w: View, son: seq<nat>, b: Bounds, w0: nat, w1: nat, last: nat, v: nat)
    requires Descending(w, son, b, w0, w1, last, v)
    ensures v < w.pos
    ensures w.pos - v < w.size ==> 0 <= Idx(w, v) < last <= w.at && Recent(w, Idx(w, v)) && !Dead(w, v)
  {
  }

  /** Nothing is left to compare with: both holes are filled with the empty reference. */
  lemma FillEmpty(w: View, son: seq<nat>, b: Bounds, w0: nat, w1: nat, last: nat, v: nat)
    requires ValidView(w) && Descending(w, son, b, w0, w1, last, v)
    ensures TreeOk(w, son[Ptr0(w, w0) := 0][Ptr1(w, w1) := 0], b, w.at + 1, 2 * w.size, 2 * w.size)
  {
    hide Rank, Slot, Pow256;
    var son' := son[Ptr0(w, w0) := 0][Ptr1(w, w1) := 0];
    forall p: nat | p < w.at + 1 && Recent(w, p) ensures NodeOk(w, son', b, p, 2 * w.size, 2 * w.size) {
      assert NodeOk(w, son, b, p, Ptr0(w, w0), Ptr1(w, w1));
    }
  }

  /** The node found cannot be told from the new one: the new node takes its place and its sons. */
  lemma TakePlace(w: View, son: seq<nat>, b: Bounds, w0: nat, w1: nat, last: nat, v: nat)
    requires ValidView(w) && Descending(w, son, b, w0, w1, last, v) && !Dead(w, v) && R(w, Idx(w, v)) == R(w, w.at)
    ensures var s := 2 * Slot(Idx(w, v), w.size);
            TreeOk(w, son[Ptr1(w, w1) := son[s]][Ptr0(w, w0) := son[s + 1]], b, w.at + 1, 2 * w.size, 2 * w.size) &&
            Ptr1(w, w1) != s + 1
  {
    hide Rank, Slot, Pow256;
    var c: nat := Idx(w, v);
    var s := 2 * Slot(c, w.size);
    var son' := son[Ptr1(w, w1) := son[s]][Ptr0(w, w0) := son[s + 1]];
    Apart(w, c, w0);
    Apart(w, c, w1);
    assert NodeOk(w, son, b, c, Ptr0(w, w0), Ptr1(w, w1));
    forall p: nat | p < w.at + 1 && Recent(w, p) ensures NodeOk(w, son', b, p, 2 * w.size, 2 * w.size) {
      assert NodeOk(w, son, b, p, Ptr0(w, w0), Ptr1(w, w1));
      Apart(w, p, w0);
      Apart(w, p, w1);
    }
  }

  /** What the next node has in common with the new string, without being compared: as much as
      the nearer of the last smaller and the last larger one. */
  lemma PrefixKnown(w: View, son: seq<nat>, b: Bounds, w0: nat, w1: nat, last: nat, v: nat, len0: nat, len1: nat)
    requires ValidView(w) && Descending(w, son, b, w0, w1, last, v) && !Dead(w, v) && len0 <= w.limit && len1 <= w.limit
    requires if w0 == w.at then len0 == 0 else Agree(w.text, w.at, w0, len0)
    requires if w1 == w.at then len1 == 0 else Agree(w.text, w.at, w1, len1)
    ensures Agree(w.text, w.at, Idx(w, v), Lower(len0, len1))
  {
    hide Rank, Slot, Pow256;
    if w0 != w.at && w1 != w.at {
      assert NodeOk(w, son, b, Idx(w, v), Ptr0(w, w0), Ptr1(w, w1));
      Between(w.text, w1, Idx(w, v), w0, Lower(len0, len1), w.limit);
    }
  }

  /** Different recent nodes have different slots. */
  lemma Apart(w: View, p: nat, q: nat)
    requires w.size > 0 && Recent(w, p) && Recent(w, q)
    ensures p != q ==> Slot(p, w.size) != Slot(q, w.size)
  {
    hide Slot;
    if p < q {
      SlotsDiffer(p, q, w.size);
    } else if q < p {
      SlotsDiffer(q, p, w.size);
    }
  }

  // ---------- What is in a tree ----------

  /** Position q is in the tree that reference v leads to. */
  ghost predicate InTree(w: View, son: seq<nat>, v: nat, q: nat)
    requires w.size > 0 && |son| == 2 * w.size
    decreases Idx(w, v)
  {
    !Dead(w, v) && 0 <= Idx(w, v) &&
    var c: nat := Idx(w, v);
    var s := 2 * Slot(c, w.size);
    q == c || (Idx(w, son[s]) < c && InTree(w, son, son[s], q)) || (Idx(w, son[s + 1]) < c && InTree(w, son, son[s + 1], q))
  }

  /** Trees are made of the slots of their own and older nodes. */
  lemma {:induction false} SameTree(w: View, son: seq<nat>, son': seq<nat>, v: nat, q: nat)
    requires w.size > 0 && |son| == |son'| == 2 * w.size && v < w.pos
    requires forall p: nat | p <= Idx(w, v) && Recent(w, p) ::
               son'[2 * Slot(p, w.size)] == son[2 * Slot(p, w.size)] && son'[2 * Slot(p, w.size) + 1] == son[2 * Slot(p, w.size) + 1]
    requires InTree(w, son, v, q)
    ensures InTree(w, son', v, q)
    decreases Idx(w, v)
  {
    hide Slot;
    var c: nat := Idx(w, v);
    var s := 2 * Slot(c, w.size);
    assert Recent(w, c);
    if q != c {
      if Idx(w, son[s]) < c && InTree(w, son, son[s], q) {
        SameTree(w, son, son', son[s], q);
      } else {
        SameTree(w, son, son', son[s + 1], q);
      }
    }
  }

  /** The strings of a subtree lie between its bounds. */
  lemma {:induction false} TreeBounds(w: View, son: seq<nat>, b: Bounds, top: nat, hole0: nat, hole1: nat, v: nat, p: nat, x: int, y: int, q: nat)
    requires TreeOk(w, son, b, top, hole0, hole1) && ChildOk(w, v, p, x, y, b) && p <= w.at && p <= top && InTree(w, son, v, q)
    requires forall c: nat | c < p && Recent(w, c) ::
               var s := 2 * Slot(c, w.size); s != hole0 && s != hole1 && s + 1 != hole0 && s + 1 != hole1
    ensures x <= R(w, q) <= y && q < p
    decreases Idx(w, v)
  {
    hide Rank, Slot, Pow256;
    var c: nat := Idx(w, v);
    var s := 2 * Slot(c, w.size);
    assert NodeOk(w, son, b, c, hole0, hole1);
    if q != c {
      if Idx(w, son[s]) < c && InTree(w, son, son[s], q) {
        TreeBounds(w, son, b, top, hole0, hole1, son[s], c, b.lo[c], R(w, c), q);
      } else {
        TreeBounds(w, son, b, top, hole0, hole1, son[s + 1], c, R(w, c), b.hi[c], q);
      }
    }
  }

  /** The string at q has at most len bytes in common with the new one. */
  ghost predicate Within(w: View, q: nat, len: nat) {
    len >= w.limit || !Agree(w.text, w.at, q, len + 1)
  }

  lemma WithinMore(w: View, q: nat, len: nat, more: nat)
    requires Within(w, q, len) && len <= more
    ensures Within(w, q, more)
  {
  }

  /** A string farther off than one that has len bytes in common has no more in common. */
  lemma FartherOff(w: View, q: nat, c: nat, len: nat)
    requires R(w, q) <= R(w, c) <= R(w, w.at) || R(w, w.at) <= R(w, c) <= R(w, q)
    requires Within(w, c, len)
    ensures Within(w, q, len)
  {
    hide Rank;
    if len < w.limit && Agree(w.text, w.at, q, len + 1) {
      if R(w, q) <= R(w, c) <= R(w, w.at) {
        assert Agree(w.text, q, w.at, len + 1);
        Between(w.text, q, c, w.at, len + 1, w.limit);
      } else {
        Between(w.text, w.at, c, q, len + 1, w.limit);
      }
    }
  }

  /** Whatever was in the tree of v0 is in that of v or has at most len bytes in common. */
  ghost predicate Covered(w: View, son0: seq<nat>, v0: nat, son: seq<nat>, v: nat, len: nat)
    requires w.size > 0 && |son0| == |son| == 2 * w.size
  {
    forall q: nat | InTree(w, son0, v0, q) :: Within(w, q, len) || InTree(w, son, v, q)
  }

  lemma CoveredStep(w: View, son0: seq<nat>, v0: nat, son: seq<nat>, v: nat, len: nat, son': seq<nat>, v': nat, len': nat, more: nat)
    requires w.size > 0 && |son0| == |son| == |son'| == 2 * w.size && len <= more && len' <= more
    requires Covered(w, son0, v0, son, v, len) && Covered(w, son, v, son', v', len')
    ensures Covered(w, son0, v0, son', v', more)
  {
    hide InTree, Within;
    forall q: nat | InTree(w, son0, v0, q) ensures Within(w, q, more) || InTree(w, son', v', q) {
      if Within(w, q, len) {
        WithinMore(w, q, len, more);
      } else if Within(w, q, len') {
        WithinMore(w, q, len', more);
      }
    }
  }

  /** Going on to the right of a smaller node leaves nothing better behind. */
  lemma SmallerCovers(w: View, son: seq<nat>, b: Bounds, w0: nat, w1: nat, last: nat, v: nat, len: nat)
    requires ValidView(w) && Descending(w, son, b, w0, w1, last, v) && !Dead(w, v) && R(w, Idx(w, v)) < R(w, w.at)
    requires Within(w, Idx(w, v), len)
    ensures var son' := son[Ptr1(w, w1) := v];
            Covered(w, son, v, son', son'[2 * Slot(Idx(w, v), w.size) + 1], len)
  {
    hide Rank, Slot, Pow256, Within;
    var c: nat := Idx(w, v);
    var s := 2 * Slot(c, w.size);
    var son' := son[Ptr1(w, w1) := v];
    OlderSlots(w, w0, w1, c);
    assert NodeOk(w, son, b, c, Ptr0(w, w0), Ptr1(w, w1));
    forall q: nat | InTree(w, son, v, q) ensures Within(w, q, len) || InTree(w, son', son'[s + 1], q) {
      if q != c {
        if Idx(w, son[s]) < c && InTree(w, son, son[s], q) {
          TreeBounds(w, son, b, w.at + 1, Ptr0(w, w0), Ptr1(w, w1), son[s], c, b.lo[c], R(w, c), q);
          FartherOff(w, q, c, len);
        } else {
          SameTree(w, son, son', son[s + 1], q);
        }
      }
    }
  }

  lemma LargerCovers(w: View, son: seq<nat>, b: Bounds, w0: nat, w1: nat, last: nat, v: nat, len: nat)
    requires ValidView(w) && Descending(w, son, b, w0, w1, last, v) && !Dead(w, v) && R(w, w.at) < R(w, Idx(w, v))
    requires Within(w, Idx(w, v), len)
    ensures var son' := son[Ptr0(w, w0) := v];
            Covered(w, son, v, son', son'[2 * Slot(Idx(w, v), w.size)], len)
  {
    hide Rank, Slot, Pow256, Within;
    var c: nat := Idx(w, v);
    var s := 2 * Slot(c, w.size);
    var son' := son[Ptr0(w, w0) := v];
    OlderSlots(w, w0, w1, c);
    assert NodeOk(w, son, b, c, Ptr0(w, w0), Ptr1(w, w1));
    forall q: nat | InTree(w, son, v, q) ensures Within(w, q, len) || InTree(w, son', son'[s], q) {
      if q != c {
        if Idx(w, son[s + 1]) < c && InTree(w, son, son[s + 1], q) {
          TreeBounds(w, son, b, w.at + 1, Ptr0(w, w0), Ptr1(w, w1), son[s + 1], c, R(w, c), b.hi[c], q);
          FartherOff(w, q, c, len);
        } else {
          SameTree(w, son, son', son[s], q);
        }
      }
    }
  }

  /** The holes are in newer slots than the next node and everything below it. */
  lemma OlderSlots(w: View, w0: nat, w1: nat, c: nat)
    requires w.size > 0 && Recent(w, w0) && Recent(w, w1) && c < w0 && c < w1 && Recent(w, c)
    ensures forall p: nat | p <= c && Recent(w, p) ::
              var s := 2 * Slot(p, w.size);
              s != Ptr0(w, w0) && s != Ptr1(w, w1) && s + 1 != Ptr0(w, w0) && s + 1 != Ptr1(w, w1)
  {
    hide Slot;
    forall p: nat | p <= c && Recent(w, p)
      ensures var s := 2 * Slot(p, w.size);
              s != Ptr0(w, w0) && s != Ptr1(w, w1) && s + 1 != Ptr0(w, w0) && s + 1 != Ptr1(w, w1)
    {
      Apart(w, p, w0);
      Apart(w, p, w1);
    }
  }

  // ---------- From one position to the next ----------

  /** One position on, everything is one further back. */
  lemma NextPosition(w: View, son: seq<nat>, b: Bounds)
    requires TreeOk(w, son, b, w.at + 1, 2 * w.size, 2 * w.size)
    ensures TreeOk(w.(at := w.at + 1, pos := w.pos + 1), son, b, w.at + 1, 2 * w.size, 2 * w.size)
  {
    hide Rank, Slot, Pow256;
    var w' := w.(at := w.at + 1, pos := w.pos + 1);
    forall p: nat | p < w.at + 1 && Recent(w', p) ensures NodeOk(w', son, b, p, 2 * w.size, 2 * w.size) {
      assert NodeOk(w, son, b, p, 2 * w.size, 2 * w.size);
    }
  }

  /** The bounds for a shorter limit: their leading digits. */
  function Shortened(b: Bounds, m: nat): Bounds
    requires m > 0
  {
    Bounds(seq(|b.lo|, i requires 0 <= i < |b.lo| => b.lo[i] / m), seq(|b.hi|, i requires 0 <= i < |b.hi| => b.hi[i] / m))
  }

  lemma ShorterLimit(w: View, son: seq<nat>, b: Bounds, limit: nat)
    requires limit <= w.limit && TreeOk(w, son, b, w.at, 2 * w.size, 2 * w.size)
    ensures TreeOk(w.(limit := limit), son, Shortened(b, Pow256(w.limit - limit)), w.at, 2 * w.size, 2 * w.size)
  {
    hide Rank, Slot, Pow256, NodeOk;
    var m := Pow256(w.limit - limit);
    forall p: nat | p < w.at && Recent(w, p) ensures NodeOk(w.(limit := limit), son, Shortened(b, m), p, 2 * w.size, 2 * w.size) {
      assert NodeOk(w, son, b, p, 2 * w.size, 2 * w.size);
      ShorterNode(w, son, b, p, limit);
    }
  }

  lemma ShorterNode(w: View, son: seq<nat>, b: Bounds, p: nat, limit: nat)
    requires w.size > 0 && |son| == 2 * w.size && p < |b.lo| == |b.hi|
    requires limit <= w.limit && NodeOk(w, son, b, p, 2 * w.size, 2 * w.size)
    ensures NodeOk(w.(limit := limit), son, Shortened(b, Pow256(w.limit - limit)), p, 2 * w.size, 2 * w.size)
  {
    hide Rank, Slot, Pow256, ChildOk;
    var m := Pow256(w.limit - limit);
    var s := 2 * Slot(p, w.size);
    RankShorter(w.text, p, w.limit, limit);
    Pow256Sum(limit, w.limit - limit);
    ModUnique(Pow256(w.limit), m, Pow256(limit), 0);
    QuotientOrder(0, b.lo[p], m);
    QuotientOrder(b.lo[p], R(w, p), m);
    QuotientOrder(R(w, p), b.hi[p], m);
    QuotientOrder(b.hi[p], Pow256(w.limit), m);
    ShorterChild(w, son[s], p, b.lo[p], R(w, p), b, limit);
    ShorterChild(w, son[s + 1], p, R(w, p), b.hi[p], b, limit);
  }

  lemma ShorterChild(w: View, v: nat, p: nat, x: int, y: int, b: Bounds, limit: nat)
    requires limit <= w.limit && ChildOk(w, v, p, x, y, b)
    ensures var m := Pow256(w.limit - limit); ChildOk(w.(limit := limit), v, p, x / m, y / m, Shortened(b, m))
  {
    hide Pow256;
    if !Dead(w, v) {
      QuotientOrder(x, b.lo[Idx(w, v)], Pow256(w.limit - limit));
      QuotientOrder(b.hi[Idx(w, v)], y, Pow256(w.limit - limit));
    }
  }

  /** More text behind the strings changes nothing. */
  lemma LongerText(w: View, more: seq<octet>, son: seq<nat>, b: Bounds)
    requires TreeOk(w, son, b, w.at, 2 * w.size, 2 * w.size) && w.at + w.limit <= |w.text| + 1
    ensures TreeOk(w.(text := w.text + more), son, b, w.at, 2 * w.size, 2 * w.size)
  {
    hide Rank, Slot, Pow256;
    var w' := w.(text := w.text + more);
    forall p: nat | p < w.at && Recent(w', p) ensures NodeOk(w', son, b, p, 2 * w.size, 2 * w.size) {
      assert NodeOk(w, son, b, p, 2 * w.size, 2 * w.size);
      RankOfLonger(w.text, more, p, w.limit);
    }
  }

  // ---------- Normalisation ----------

  /** MatchFinder_Normalize3 on one reference. */
  function Reduced(v: nat, subValue: nat): nat {
    if v <= subValue then 0 else v - subValue
  }

  /** A reduced reference stands for the same position, or is empty as it was before. */
  lemma ReducedRef(w: View, v: nat, subValue: nat)
    requires w.size + subValue <= w.pos
    ensures var w' := w.(pos := w.pos - subValue);
            (Dead(w', Reduced(v, subValue)) <==> Dead(w, v)) && (!Dead(w, v) ==> Idx(w', Reduced(v, subValue)) == Idx(w, v))
    ensures w.size > 0 && v < w.pos ==> Reduced(v, subValue) < w.pos - subValue
  {
  }

  lemma ReducedTree(w: View, son: seq<nat>, son': seq<nat>, b: Bounds, subValue: nat)
    requires w.size + subValue <= w.pos && TreeOk(w, son, b, w.at, 2 * w.size, 2 * w.size)
    requires |son'| == |son| && forall i | 0 <= i < |son| :: son'[i] == Reduced(son[i], subValue)
    ensures TreeOk(w.(pos := w.pos - subValue), son', b, w.at, 2 * w.size, 2 * w.size)
  {
    hide Rank, Slot, Pow256;
    var w' := w.(pos := w.pos - subValue);
    forall p: nat | p < w.at && Recent(w', p) ensures NodeOk(w', son', b, p, 2 * w.size, 2 * w.size) {
      assert NodeOk(w, son, b, p, 2 * w.size, 2 * w.size);
    }
  }
}
