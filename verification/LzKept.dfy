/** No node is lost: what was in the tree before a position is inserted is in its tree afterwards,
    but for a node that cannot be told from the new one. */
module LzKept {
  import opened LzRank
  import opened LzTree

  /** The sons as they are without what still waits in the two holes. */
  function Masked(w: View, son: seq<nat>, w0: nat, w1: nat): (r: seq<nat>)
    requires w.size > 0 && |son| == 2 * w.size
    ensures |r| == |son|
  {
    son[Ptr0(w, w0) := 0][Ptr1(w, w1) := 0]
  }

  lemma {:induction false} InTreeOlder(w: View, son: seq<nat>, v: nat, q: nat)
    requires w.size > 0 && |son| == 2 * w.size && InTree(w, son, v, q)
    ensures q <= Idx(w, v)
    decreases Idx(w, v)
  {
    hide Slot;
    var c: nat := Idx(w, v);
    var s := 2 * Slot(c, w.size);
    if q != c {
      if Idx(w, son[s]) < c && InTree(w, son, son[s], q) {
        InTreeOlder(w, son, son[s], q);
      } else {
        InTreeOlder(w, son, son[s + 1], q);
      }
    }
  }

  /** Below a node of a tree is everything below its sons. */
  lemma {:induction false} InTreeThrough(w: View, son: seq<nat>, r: nat, p: nat, right: bool, q: nat)
    requires w.size > 0 && |son| == 2 * w.size && InTree(w, son, r, p)
    requires var v := son[2 * Slot(p, w.size) + if right then 1 else 0]; InTree(w, son, v, q) && Idx(w, v) < p
    ensures InTree(w, son, r, q)
    decreases Idx(w, r)
  {
    hide Slot;
    var c: nat := Idx(w, r);
    var s := 2 * Slot(c, w.size);
    if p != c {
      if Idx(w, son[s]) < c && InTree(w, son, son[s], p) {
        InTreeThrough(w, son, son[s], p, right, q);
      } else {
        InTreeThrough(w, son, son[s + 1], p, right, q);
      }
    }
  }

  /** Filling empty slots loses nothing. */
  lemma {:induction false} FilledTree(w: View, a: seq<nat>, b: seq<nat>, r: nat, q: nat)
    requires 0 < w.size <= w.pos && |a| == |b| == 2 * w.size && InTree(w, a, r, q)
    requires forall i | 0 <= i < |a| :: a[i] == b[i] || a[i] == 0
    ensures InTree(w, b, r, q)
    decreases Idx(w, r)
  {
    hide Slot;
    var c: nat := Idx(w, r);
    var s := 2 * Slot(c, w.size);
    if q != c {
      if Idx(w, a[s]) < c && InTree(w, a, a[s], q) {
        FilledTree(w, a, b, a[s], q);
      } else {
        FilledTree(w, a, b, a[s + 1], q);
      }
    }
  }

  /** On the way down everything is either below the new node or still to come; and both holes
      are below the new node. Reference w.pos stands for the new node itself. */
  ghost predicate Held(w: View, son0: seq<nat>, v0: nat, son: seq<nat>, w0: nat, w1: nat, v: nat)
    requires w.size > 0 && |son0| == |son| == 2 * w.size
  {
    var masked := Masked(w, son, w0, w1);
    InTree(w, masked, w.pos, w0) && InTree(w, masked, w.pos, w1) &&
    forall q: nat | InTree(w, son0, v0, q) :: InTree(w, masked, w.pos, q) || InTree(w, son, v, q)
  }

  lemma HeldStart(w: View, son: seq<nat>, v: nat)
    requires w.size > 0 && |son| == 2 * w.size
    ensures Held(w, son, v, son, w.at, w.at, v)
  {
    var masked := Masked(w, son, w.at, w.at);
    assert InTree(w, masked, w.pos, w.at);
  }

  /** Moving a hole down to a son of c loses nothing but what that son leads to. */
  lemma {:induction false} MovedHole(w: View, a: seq<nat>, b: seq<nat>, c: nat, right: bool, v: nat, r: nat, q: nat)
    requires 0 < w.size <= w.pos && |a| == |b| == 2 * w.size && Recent(w, c) && r <= w.pos && InTree(w, a, r, q)
    requires var k := 2 * Slot(c, w.size) + (if right then 1 else 0);
             forall i | 0 <= i < |a| && i != k :: a[i] == b[i] || a[i] == 0
    requires a[2 * Slot(c, w.size) + if right then 1 else 0] == v
    ensures InTree(w, b, r, q) || InTree(w, a, v, q)
    decreases Idx(w, r)
  {
    hide Slot;
    var p: nat := Idx(w, r);
    var s := 2 * Slot(p, w.size);
    Apart(w, p, c);
    if q != p {
      if Idx(w, a[s]) < p && InTree(w, a, a[s], q) {
        if p != c || right {
          MovedHole(w, a, b, c, right, v, a[s], q);
        }
      } else if p != c || !right {
        MovedHole(w, a, b, c, right, v, a[s + 1], q);
      }
    }
  }

  /** The holes and the slots of the next node are different slots. */
  lemma FourSlots(w: View, son: seq<nat>, b: Bounds, w0: nat, w1: nat, last: nat, v: nat)
    requires Descending(w, son, b, w0, w1, last, v) && !Dead(w, v)
    ensures 0 <= Idx(w, v) < last <= w0 <= w.at && last <= w1 <= w.at && Ptr0(w, w0) != Ptr1(w, w1)
    ensures var s := 2 * Slot(Idx(w, v), w.size);
            Ptr0(w, w0) != s && Ptr0(w, w0) != s + 1 && Ptr1(w, w1) != s && Ptr1(w, w1) != s + 1
  {
    hide Slot;
    Apart(w, Idx(w, v), w0);
    Apart(w, Idx(w, v), w1);
    if w0 != w1 {
      Apart(w, w0, w1);
    }
  }

  /** The sons of the next node are older than it. */
  lemma NextSons(w: View, son: seq<nat>, b: Bounds, w0: nat, w1: nat, last: nat, v: nat)
    requires Descending(w, son, b, w0, w1, last, v) && !Dead(w, v)
    ensures var c := Idx(w, v);
            var s := 2 * Slot(c, w.size);
            0 <= c && son[s] < w.pos && son[s + 1] < w.pos && (Dead(w, son[s]) || Idx(w, son[s]) < c) &&
            (Dead(w, son[s + 1]) || Idx(w, son[s + 1]) < c)
  {
    hide Slot;
    FourSlots(w, son, b, w0, w1, last, v);
    assert NodeOk(w, son, b, Idx(w, v), Ptr0(w, w0), Ptr1(w, w1));
  }

  /** Below the next node nothing is touched. */
  ghost predicate SameBelow(w: View, a: seq<nat>, b: seq<nat>, c: nat)
    requires w.size > 0 && |a| == |b| == 2 * w.size
  {
    forall p: nat | p < c && Recent(w, p) ::
      b[2 * Slot(p, w.size)] == a[2 * Slot(p, w.size)] && b[2 * Slot(p, w.size) + 1] == a[2 * Slot(p, w.size) + 1]
  }

  lemma Untouched(w: View, a: seq<nat>, b: seq<nat>, w0: nat, w1: nat, c: nat)
    requires w.size > 0 && |a| == |b| == 2 * w.size && Recent(w, w0) && Recent(w, w1) && Recent(w, c) && c < w0 && c < w1
    requires var s := 2 * Slot(c, w.size);
             forall i | 0 <= i < |a| && i != Ptr0(w, w0) && i != Ptr1(w, w1) && i != s && i != s + 1 :: a[i] == b[i]
    ensures SameBelow(w, a, b, c)
  {
    hide Slot;
    OlderSlots(w, w0, w1, c);
    forall p: nat | p < c && Recent(w, p)
      ensures b[2 * Slot(p, w.size)] == a[2 * Slot(p, w.size)] && b[2 * Slot(p, w.size) + 1] == a[2 * Slot(p, w.size) + 1]
    {
      Apart(w, p, c);
    }
  }

  /** What the old son at the moved hole leads to. */
  lemma StillToCome(w: View, a: seq<nat>, b: seq<nat>, c: nat, v: nat, q: nat)
    requires w.size > 0 && |a| == |b| == 2 * w.size && SameBelow(w, a, b, c) && v < w.pos && Idx(w, v) < c && InTree(w, a, v, q)
    ensures InTree(w, b, v, q) && q < c
  {
    SameTree(w, a, b, v, q);
    InTreeOlder(w, a, v, q);
  }

  lemma CarriedOver(w: View, a: seq<nat>, m: seq<nat>, son': seq<nat>, c: nat, right: bool, v: nat, q: nat)
    requires 0 < w.size <= w.pos && |a| == |m| == |son'| == 2 * w.size && Recent(w, c) && InTree(w, a, w.pos, q)
    requires var k := 2 * Slot(c, w.size) + (if right then 1 else 0);
             a[k] == v && forall i | 0 <= i < |a| && i != k :: a[i] == m[i] || a[i] == 0
    requires SameBelow(w, a, son', c) && v < w.pos && (Dead(w, v) || Idx(w, v) < c)
    ensures InTree(w, m, w.pos, q) || (InTree(w, son', v, q) && q < c)
  {
    hide Slot, InTree;
    MovedHole(w, a, m, c, right, v, w.pos, q);
    if InTree(w, a, v, q) {
      Alive(w, a, v, q);
      StillToCome(w, a, son', c, v, q);
    }
  }

  /** One son of the next node stays where it is, the other is still to come. */
  lemma SonsHeld(w: View, son: seq<nat>, m: seq<nat>, son': seq<nat>, v: nat, right: bool, q: nat)
    requires w.size > 0 && |son| == |m| == |son'| == 2 * w.size && InTree(w, son, v, q) && 0 <= Idx(w, v)
    requires InTree(w, m, w.pos, Idx(w, v)) && SameBelow(w, son, m, Idx(w, v)) && SameBelow(w, son, son', Idx(w, v))
    requires var s := 2 * Slot(Idx(w, v), w.size);
             son[s] < w.pos && son[s + 1] < w.pos && if right then m[s] == son[s] else m[s + 1] == son[s + 1]
    ensures InTree(w, m, w.pos, q) || InTree(w, son', son[2 * Slot(Idx(w, v), w.size) + if right then 1 else 0], q)
  {
    hide Slot, InTree;
    var c: nat := Idx(w, v);
    var s := 2 * Slot(c, w.size);
    InTreeCases(w, son, v, q);
    if q != c {
      var onRight := !(Idx(w, son[s]) < c && InTree(w, son, son[s], q));
      var u := if onRight then son[s + 1] else son[s];
      if onRight == right {
        StillToCome(w, son, son', c, u, q);
      } else {
        StillToCome(w, son, m, c, u, q);
        InTreeThrough(w, m, w.pos, c, onRight, q);
      }
    }
  }

  /** A smaller node was hung up: it is below the new node, and its right son is the hole. */
  lemma SmallerHeld(w: View, son0: seq<nat>, v0: nat, son: seq<nat>, b: Bounds, w0: nat, w1: nat, last: nat, v: nat)
    requires ValidView(w) && Descending(w, son, b, w0, w1, last, v) && !Dead(w, v) && |son0| == |son| == 2 * w.size
    requires Held(w, son0, v0, son, w0, w1, v)
    ensures 0 <= Idx(w, v)
    ensures var son' := son[Ptr1(w, w1) := v];
            var c := Idx(w, v);
            Held(w, son0, v0, son', w0, c, son'[2 * Slot(c, w.size) + 1])
  {
    hide Slot, InTree, Descending;
    FourSlots(w, son, b, w0, w1, last, v);
    NextSons(w, son, b, w0, w1, last, v);
    var c: nat := Idx(w, v);
    var s := 2 * Slot(c, w.size);
    var son' := son[Ptr1(w, w1) := v];
    var v' := son[s + 1];
    var a, m := Masked(w, son, w0, w1), Masked(w, son', w0, c);
    Untouched(w, a, son', w0, w1, c);
    Untouched(w, son, son', w0, w1, c);
    Untouched(w, son, m, w0, w1, c);
    forall q: nat | InTree(w, a, w.pos, q) ensures InTree(w, m, w.pos, q) || (InTree(w, son', v', q) && q < c) {
      CarriedOver(w, a, m, son', c, true, v', q);
    }
    NodeItself(w, m, v);
    InTreeThrough(w, m, w.pos, w1, w1 != w.at, c);
    forall q: nat | InTree(w, son, v, q) ensures InTree(w, m, w.pos, q) || InTree(w, son', v', q) {
      SonsHeld(w, son, m, son', v, true, q);
    }
  }

  /** The same for a larger node and its left son. */
  lemma LargerHeld(w: View, son0: seq<nat>, v0: nat, son: seq<nat>, b: Bounds, w0: nat, w1: nat, last: nat, v: nat)
    requires ValidView(w) && Descending(w, son, b, w0, w1, last, v) && !Dead(w, v) && |son0| == |son| == 2 * w.size
    requires Held(w, son0, v0, son, w0, w1, v)
    ensures 0 <= Idx(w, v)
    ensures var son' := son[Ptr0(w, w0) := v];
            var c := Idx(w, v);
            Held(w, son0, v0, son', c, w1, son'[2 * Slot(c, w.size)])
  {
    hide Slot, InTree, Descending;
    FourSlots(w, son, b, w0, w1, last, v);
    NextSons(w, son, b, w0, w1, last, v);
    var c: nat := Idx(w, v);
    var s := 2 * Slot(c, w.size);
    var son' := son[Ptr0(w, w0) := v];
    var v' := son[s];
    var a, m := Masked(w, son, w0, w1), Masked(w, son', c, w1);
    Untouched(w, a, son', w0, w1, c);
    Untouched(w, son, son', w0, w1, c);
    Untouched(w, son, m, w0, w1, c);
    forall q: nat | InTree(w, a, w.pos, q) ensures InTree(w, m, w.pos, q) || (InTree(w, son', v', q) && q < c) {
      CarriedOver(w, a, m, son', c, false, v', q);
    }
    NodeItself(w, m, v);
    InTreeThrough(w, m, w.pos, w0, w0 == w.at, c);
    forall q: nat | InTree(w, son, v, q) ensures InTree(w, m, w.pos, q) || InTree(w, son', v', q) {
      SonsHeld(w, son, m, son', v, false, q);
    }
  }

  lemma Alive(w: View, son: seq<nat>, v: nat, q: nat)
    requires w.size > 0 && |son| == 2 * w.size && InTree(w, son, v, q)
    ensures !Dead(w, v) && 0 <= Idx(w, v)
  {
  }

  lemma NodeItself(w: View, son: seq<nat>, v: nat)
    requires w.size > 0 && |son| == 2 * w.size && !Dead(w, v) && 0 <= Idx(w, v)
    ensures InTree(w, son, v, Idx(w, v))
  {
  }

  lemma InTreeCases(w: View, son: seq<nat>, v: nat, q: nat)
    requires w.size > 0 && |son| == 2 * w.size && InTree(w, son, v, q) && 0 <= Idx(w, v)
    ensures var c := Idx(w, v);
            var s := 2 * Slot(c, w.size);
            q == c || (Idx(w, son[s]) < c && InTree(w, son, son[s], q)) || (Idx(w, son[s + 1]) < c && InTree(w, son, son[s + 1], q))
  {
  }

  /** All that was in the tree of v0 before is in the tree of the new position, but for nodes that
      look like the new one. */
  ghost predicate NothingLost(w: View, son0: seq<nat>, v0: nat, son: seq<nat>)
    requires w.size > 0 && |son0| == |son| == 2 * w.size
  {
    forall q: nat | InTree(w, son0, v0, q) :: InTree(w, son, w.pos, q) || Agree(w.text, w.at, q, w.limit)
  }

  lemma EmptyHeld(w: View, son0: seq<nat>, v0: nat, son: seq<nat>, b: Bounds, w0: nat, w1: nat, last: nat, v: nat)
    requires Descending(w, son, b, w0, w1, last, v) && Dead(w, v) && |son0| == |son| == 2 * w.size
    requires Held(w, son0, v0, son, w0, w1, v)
    ensures NothingLost(w, son0, v0, son[Ptr0(w, w0) := 0][Ptr1(w, w1) := 0])
  {
  }

  lemma ReplacedHeld(w: View, son0: seq<nat>, v0: nat, son: seq<nat>, b: Bounds, w0: nat, w1: nat, last: nat, v: nat)
    requires ValidView(w) && Descending(w, son, b, w0, w1, last, v) && !Dead(w, v) && |son0| == |son| == 2 * w.size
    requires Held(w, son0, v0, son, w0, w1, v) && 0 <= Idx(w, v) && Agree(w.text, w.at, Idx(w, v), w.limit)
    ensures var s := 2 * Slot(Idx(w, v), w.size);
            NothingLost(w, son0, v0, son[Ptr1(w, w1) := son[s]][Ptr0(w, w0) := son[s + 1]])
  {
    hide Slot, InTree, Agree;
    FourSlots(w, son, b, w0, w1, last, v);
    NextSons(w, son, b, w0, w1, last, v);
    var c: nat := Idx(w, v);
    var s := 2 * Slot(c, w.size);
    var l, r := son[s], son[s + 1];
    var a, son' := Masked(w, son, w0, w1), son[Ptr1(w, w1) := l][Ptr0(w, w0) := r];
    Untouched(w, son, son', w0, w1, c);
    FilledTree(w, a, son', w.pos, w0);
    FilledTree(w, a, son', w.pos, w1);
    forall q: nat | InTree(w, son0, v0, q) ensures InTree(w, son', w.pos, q) || Agree(w.text, w.at, q, w.limit) {
      if InTree(w, a, w.pos, q) {
        FilledTree(w, a, son', w.pos, q);
      } else {
        InTreeCases(w, son, v, q);
        if q != c {
          if Idx(w, l) < c && InTree(w, son, l, q) {
            StillToCome(w, son, son', c, l, q);
            InTreeThrough(w, son', w.pos, w1, w1 != w.at, q);
          } else {
            StillToCome(w, son, son', c, r, q);
            InTreeThrough(w, son', w.pos, w0, w0 == w.at, q);
          }
        }
      }
    }
  }
}
