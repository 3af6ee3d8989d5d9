/** Inserting a position, as a function of the tree: the result is a tree again, a search that is not cut short overlooks
    nothing and loses nothing, and trees of other strings are left alone. */
module LzInsert {
  import opened Bytes
  import opened LzRank
  import opened LzTree
  import opened LzKept
  import opened LzWalk
  import opened LzSearch

  lemma {:induction false} CommonMeans(text: seq<octet>, i: nat, j: nat, k: nat, limit: nat)
    requires k <= limit && Agree(text, i, j, k)
    ensures var len := Common(text, i, j, k, limit);
            k <= len <= limit && Agree(text, i, j, len) && (len == limit || At(text, i, len) != At(text, j, len))
    decreases limit - k
  {
    if k < limit && At(text, i, k) == At(text, j, k) {
      CommonMeans(text, i, j, k + 1, limit);
    }
  }

  /** What is measured at a node tells its place in the order. */
  lemma Compared(w: View, v: nat)
    requires 0 <= Idx(w, v)
    ensures CommonAt(w, v) <= w.limit && Within(w, Idx(w, v), CommonAt(w, v)) && Agree(w.text, w.at, Idx(w, v), CommonAt(w, v))
    ensures if CommonAt(w, v) == w.limit then R(w, Idx(w, v)) == R(w, w.at) && Agree(w.text, w.at, Idx(w, v), w.limit)
            else if IsSmaller(w, v) then R(w, Idx(w, v)) < R(w, w.at)
            else R(w, w.at) < R(w, Idx(w, v))
  {
    hide Rank, Common;
    CommonMeans(w.text, w.at, Idx(w, v), 0, w.limit);
    var len := CommonAt(w, v);
    if len == w.limit {
      RankAgree(w.text, w.at, Idx(w, v), w.limit);
    } else {
      assert Agree(w.text, Idx(w, v), w.at, len);
      if IsSmaller(w, v) {
        RankLess(w.text, Idx(w, v), w.at, len, w.limit);
      } else {
        RankLess(w.text, w.at, Idx(w, v), len, w.limit);
      }
      Differs(w, Idx(w, v), len);
    }
  }

  // ---------- Searching ----------

  /** Nothing in a tree beats what a search of it reports, if the search is not cut short. */
  lemma {:induction false} PairsUnbeaten(w: View, son: seq<nat>, b: Bounds, v: nat, top: nat, cut: nat, maxLen: nat)
    requires ValidView(w) && |son| == 2 * w.size && TreeOk(w, son, b, w.at, 2 * w.size, 2 * w.size) && top <= w.at && w.at < top + w.size
    requires v < w.pos && (Dead(w, v) || 0 <= Idx(w, v) < top) && cut + w.at >= top + w.size
    ensures Unbeaten(w, son, v, Longest(maxLen, Pairs(w, son, v, cut, maxLen)))
    decreases cut
  {
    hide Rank, Slot, Pow256, CommonAt, IsSmaller, Pairs, Within, TreeOk;
    PairsStep(w, son, v, cut, maxLen);
    if !Dead(w, v) {
      var c: nat := Idx(w, v);
      var s := 2 * Slot(c, w.size);
      Compared(w, v);
      var len := CommonAt(w, v);
      var more := if maxLen < len then len else maxLen;
      if len == w.limit {
        UnbeatenAtLimit(w, son, v);
        UnbeatenMore(w, son, v, w.limit, more);
      } else {
        NodeIn(w, son, b, c);
        var u := son[SonSlot(w, v)];
        SonSlotIs(w, v);
        PairsUnbeaten(w, son, b, u, c, cut - 1, more);
        var most := Longest(more, Pairs(w, son, u, cut - 1, more));
        PairsLonger(w, son, u, cut - 1, more);
        forall q: nat | InTree(w, son, v, q)
          ensures Within(w, q, most)
        {
          UnbeatenHere(w, son, b, v, len, most, q);
        }
        JoinLongest(maxLen, len, w.pos - v - 1, Pairs(w, son, u, cut - 1, more));
      }
    }
  }

  lemma JoinLongest(maxLen: nat, len: nat, dist: nat, rest: seq<Found>)
    ensures Longest(maxLen, (if maxLen < len then [Found(len, dist)] else []) + rest) == Longest(if maxLen < len then len else maxLen, rest)
  {
  }

  lemma UnbeatenMore(w: View, son: seq<nat>, v: nat, len: nat, more: nat)
    requires w.size > 0 && |son| == 2 * w.size && Unbeaten(w, son, v, len) && len <= more
    ensures Unbeaten(w, son, v, more)
  {
    hide InTree;
  }

  lemma NodeIn(w: View, son: seq<nat>, b: Bounds, c: nat)
    requires TreeOk(w, son, b, w.at, 2 * w.size, 2 * w.size) && c < w.at && Recent(w, c)
    ensures var s := 2 * Slot(c, w.size);
            c < |b.lo| == |b.hi| && ChildOk(w, son[s], c, b.lo[c], R(w, c), b) && ChildOk(w, son[s + 1], c, R(w, c), b.hi[c], b)
  {
    hide Rank, Slot, Pow256;
    assert NodeOk(w, son, b, c, 2 * w.size, 2 * w.size);
  }

  /** At a node: itself, the side that the search goes on to, and the side that it leaves. */
  lemma UnbeatenHere(w: View, son: seq<nat>, b: Bounds, v: nat, len: nat, most: nat, q: nat)
    requires ValidView(w) && |son| == 2 * w.size && TreeOk(w, son, b, w.at, 2 * w.size, 2 * w.size) && v < w.pos && !Dead(w, v) && 0 <= Idx(w, v) < w.at
    requires len == CommonAt(w, v) < w.limit && len <= most && Unbeaten(w, son, son[SonSlot(w, v)], most) && InTree(w, son, v, q)
    ensures Within(w, q, most)
  {
    hide Rank, Slot, Pow256, CommonAt, IsSmaller, Within, TreeOk;
    var c: nat := Idx(w, v);
    var s := 2 * Slot(c, w.size);
    Compared(w, v);
    NodeIn(w, son, b, c);
    WithinMore(w, c, len, most);
    if q != c {
      var right := !(Idx(w, son[s]) < c && InTree(w, son, son[s], q));
      if right != IsSmaller(w, v) {
        if right {
          TreeBounds(w, son, b, w.at, 2 * w.size, 2 * w.size, son[s + 1], c, R(w, c), b.hi[c], q);
        } else {
          TreeBounds(w, son, b, w.at, 2 * w.size, 2 * w.size, son[s], c, b.lo[c], R(w, c), q);
        }
        FartherOff(w, q, c, len);
        WithinMore(w, q, len, most);
      }
    }
  }

  lemma {:induction false} PairsLonger(w: View, son: seq<nat>, v: nat, cut: nat, maxLen: nat)
    requires w.size > 0 && |son| == 2 * w.size
    ensures Longest(maxLen, Pairs(w, son, v, cut, maxLen)) >= maxLen
    decreases cut
  {
    hide CommonAt, IsSmaller, Slot, SonSlot;
    if Looks(w, v, cut) && CommonAt(w, v) != w.limit {
      var len := CommonAt(w, v);
      var more := if maxLen < len then len else maxLen;
      PairsLonger(w, son, son[SonSlot(w, v)], cut - 1, more);
      JoinLongest(maxLen, len, w.pos - v - 1, Pairs(w, son, son[SonSlot(w, v)], cut - 1, more));
    }
  }

  /** The root is always compared. */
  lemma RootCompared(w: View, son: seq<nat>, v: nat, cut: nat, maxLen: nat)
    requires w.size > 0 && |son| == 2 * w.size && Looks(w, v, cut)
    ensures Longest(maxLen, Pairs(w, son, v, cut, maxLen)) >= CommonAt(w, v)
  {
    hide CommonAt, IsSmaller, Slot, SonSlot;
    var len := CommonAt(w, v);
    if len != w.limit {
      var more := if maxLen < len then len else maxLen;
      PairsLonger(w, son, son[SonSlot(w, v)], cut - 1, more);
      JoinLongest(maxLen, len, w.pos - v - 1, Pairs(w, son, son[SonSlot(w, v)], cut - 1, more));
    }
  }

  // ---------- Inserting ----------

  /** The rest of an insertion: a tree, and nothing lost if the search can go to the end. */
  lemma {:induction false} SplitKeeps(w: View, son0: seq<nat>, v0: nat, son: seq<nat>, b: Bounds, w0: nat, w1: nat, last: nat, v: nat, cut: nat)
    returns (b': Bounds)
    requires ValidView(w) && |son0| == |son| == 2 * w.size && Descending(w, son, b, w0, w1, last, v) && Held(w, son0, v0, son, w0, w1, v)
    ensures TreeOk(w, Split(w, son, v, Ptr0(w, w0), Ptr1(w, w1), cut), b', w.at + 1, 2 * w.size, 2 * w.size)
    ensures cut + w.at >= last + w.size ==> NothingLost(w, son0, v0, Split(w, son, v, Ptr0(w, w0), Ptr1(w, w1), cut))
    decreases cut
  {
    hide Rank, Slot, Pow256, CommonAt, IsSmaller, TreeOk, Held, NothingLost, Agree, InTree, Descending, Ptr0, Ptr1;
    NextNode(w, son, b, w0, w1, last, v);
    if !Looks(w, v, cut) {
      FillEmpty(w, son, b, w0, w1, last, v);
      b' := b;
      if Dead(w, v) {
        EmptyHeld(w, son0, v0, son, b, w0, w1, last, v);
      }
    } else {
      var c: nat := Idx(w, v);
      Compared(w, v);
      if CommonAt(w, v) == w.limit {
        TakePlace(w, son, b, w0, w1, last, v);
        ReplacedHeld(w, son0, v0, son, b, w0, w1, last, v);
        b' := b;
      } else if IsSmaller(w, v) {
        var b1 := GoSmaller(w, son, b, w0, w1, last, v);
        SmallerHeld(w, son0, v0, son, b, w0, w1, last, v);
        var son' := son[Ptr1(w, w1) := v];
        HoleOf(w, c);
        b' := SplitKeeps(w, son0, v0, son', b1, w0, c, c, son'[2 * Slot(c, w.size) + 1], cut - 1);
      } else {
        var b1 := GoLarger(w, son, b, w0, w1, last, v);
        LargerHeld(w, son0, v0, son, b, w0, w1, last, v);
        var son' := son[Ptr0(w, w0) := v];
        HoleOf(w, c);
        b' := SplitKeeps(w, son0, v0, son', b1, c, w1, c, son'[2 * Slot(c, w.size)], cut - 1);
      }
    }
  }

  lemma HoleOf(w: View, c: nat)
    requires w.size > 0 && c < w.at
    ensures Ptr1(w, c) == 2 * Slot(c, w.size) + 1 && Ptr0(w, c) == 2 * Slot(c, w.size)
  {
    hide Slot;
  }

  // ---------- One tree for each kind of string ----------

  /** The sons of p are of its kind. */
  ghost predicate SonsAlike(w: View, son: seq<nat>, kind: nat -> nat, p: nat, hole0: nat, hole1: nat)
    requires w.size > 0 && |son| == 2 * w.size
  {
    var s := 2 * Slot(p, w.size);
    (s != hole0 && s != hole1 ==> OfKind(w, kind, son[s], kind(p))) &&
    (s + 1 != hole0 && s + 1 != hole1 ==> OfKind(w, kind, son[s + 1], kind(p)))
  }

  ghost predicate OfKind(w: View, kind: nat -> nat, v: nat, k: nat) {
    !Dead(w, v) && 0 <= Idx(w, v) ==> kind(Idx(w, v)) == k
  }

  ghost predicate AllAlike(w: View, son: seq<nat>, kind: nat -> nat, top: nat, hole0: nat, hole1: nat)
    requires w.size > 0 && |son| == 2 * w.size
  {
    forall p: nat | p < top && Recent(w, p) :: SonsAlike(w, son, kind, p, hole0, hole1)
  }

  /** Nodes of other kinds keep their sons. */
  ghost predicate OthersKept(w: View, a: seq<nat>, b: seq<nat>, kind: nat -> nat, k: nat)
    requires w.size > 0 && |a| == |b| == 2 * w.size
  {
    forall p: nat | p < w.at && Recent(w, p) && kind(p) != k :: KeepsSons(w, a, b, p)
  }

  ghost predicate KeepsSons(w: View, a: seq<nat>, b: seq<nat>, p: nat)
    requires w.size > 0 && |a| == |b| == 2 * w.size
  {
    b[2 * Slot(p, w.size)] == a[2 * Slot(p, w.size)] && b[2 * Slot(p, w.size) + 1] == a[2 * Slot(p, w.size) + 1]
  }

  /** Putting a reference into the slot of a node of kind k keeps the others. */
  lemma SetSon(w: View, a: seq<nat>, b: seq<nat>, kind: nat -> nat, k: nat, x: nat, slot: nat, u: nat)
    requires w.size > 0 && |a| == |b| == 2 * w.size && OthersKept(w, a, b, kind, k) && Recent(w, x) && x <= w.at && (x < w.at ==> kind(x) == k)
    requires slot == 2 * Slot(x, w.size) || slot == 2 * Slot(x, w.size) + 1
    ensures OthersKept(w, a, b[slot := u], kind, k)
  {
    hide Slot;
    forall p: nat | p < w.at && Recent(w, p) && kind(p) != k
      ensures KeepsSons(w, a, b[slot := u], p)
    {
      assert KeepsSons(w, a, b, p);
      Apart(w, p, x);
    }
  }

  /** With v put into the hole of a node of its kind, and another node's slot for a hole, all sons are alike. */
  lemma HoleMoves(w: View, son: seq<nat>, kind: nat -> nat, hole0: nat, hole1: nat, hole: nat, v: nat, x: nat, next: nat)
    requires w.size > 0 && |son| == 2 * w.size && AllAlike(w, son, kind, w.at + 1, hole0, hole1) && (hole == hole0 || hole == hole1) && hole < |son|
    requires Recent(w, x) && (hole == 2 * Slot(x, w.size) || hole == 2 * Slot(x, w.size) + 1) && OfKind(w, kind, v, kind(x))
    ensures AllAlike(w, son[hole := v], kind, w.at + 1, if hole == hole0 then next else hole0, if hole == hole0 then hole1 else next)
  {
    hide Slot;
    var h0, h1 := if hole == hole0 then next else hole0, if hole == hole0 then hole1 else next;
    forall p: nat | p < w.at + 1 && Recent(w, p)
      ensures SonsAlike(w, son[hole := v], kind, p, h0, h1)
    {
      assert SonsAlike(w, son, kind, p, hole0, hole1);
      Apart(w, p, x);
    }
  }

  lemma SonKind(w: View, son: seq<nat>, kind: nat -> nat, hole0: nat, hole1: nat, c: nat)
    requires w.size > 0 && |son| == 2 * w.size && AllAlike(w, son, kind, w.at + 1, hole0, hole1) && Recent(w, c)
    requires var s := 2 * Slot(c, w.size); s != hole0 && s != hole1 && s + 1 != hole0 && s + 1 != hole1
    ensures var s := 2 * Slot(c, w.size); OfKind(w, kind, son[s], kind(c)) && OfKind(w, kind, son[s + 1], kind(c))
  {
    assert SonsAlike(w, son, kind, c, hole0, hole1);
  }

  lemma HoleSlots(w: View, w0: nat, w1: nat)
    requires w.size > 0
    ensures (Ptr0(w, w0) == 2 * Slot(w0, w.size) || Ptr0(w, w0) == 2 * Slot(w0, w.size) + 1) &&
            (Ptr1(w, w1) == 2 * Slot(w1, w.size) || Ptr1(w, w1) == 2 * Slot(w1, w.size) + 1)
  {
  }

  /** Everything on the way down is of the kind of the new position. */
  ghost predicate OnItsWay(w: View, son0: seq<nat>, son: seq<nat>, kind: nat -> nat, w0: nat, w1: nat, v: nat)
    requires w.size > 0 && |son0| == |son| == 2 * w.size
  {
    var k := kind(w.at);
    AllAlike(w, son, kind, w.at + 1, Ptr0(w, w0), Ptr1(w, w1)) && OthersKept(w, son0, son, kind, k) &&
    kind(w0) == k && kind(w1) == k && OfKind(w, kind, v, k)
  }

  lemma {:induction false} SplitKinds(w: View, son0: seq<nat>, son: seq<nat>, b: Bounds, kind: nat -> nat, w0: nat, w1: nat, last: nat, v: nat, cut: nat)
    requires ValidView(w) && Descending(w, son, b, w0, w1, last, v) && |son0| == |son| == 2 * w.size && OnItsWay(w, son0, son, kind, w0, w1, v)
    ensures var r := Split(w, son, v, Ptr0(w, w0), Ptr1(w, w1), cut);
            AllAlike(w, r, kind, w.at + 1, 2 * w.size, 2 * w.size) && OthersKept(w, son0, r, kind, kind(w.at))
    decreases cut
  {
    hide Rank, Slot, Pow256, CommonAt, IsSmaller, TreeOk, Descending, Ptr0, Ptr1, AllAlike, OthersKept, OfKind;
    NextNode(w, son, b, w0, w1, last, v);
    HolesRecent(w, son, b, w0, w1, last, v);
    HoleSlots(w, w0, w1);
    var p0, p1, none, k := Ptr0(w, w0), Ptr1(w, w1), 2 * w.size, kind(w.at);
    if !Looks(w, v, cut) {
      NoKind(w, kind, k);
      HoleMoves(w, son, kind, p0, p1, p0, 0, w0, none);
      HoleMoves(w, son[p0 := 0], kind, none, p1, p1, 0, w1, none);
      SetSon(w, son0, son, kind, k, w0, p0, 0);
      SetSon(w, son0, son[p0 := 0], kind, k, w1, p1, 0);
    } else {
      var c: nat := Idx(w, v);
      var s := 2 * Slot(c, w.size);
      IsItsKind(w, kind, v, k);
      FourSlots(w, son, b, w0, w1, last, v);
      SonKind(w, son, kind, p0, p1, c);
      Compared(w, v);
      if CommonAt(w, v) == w.limit {
        HoleMoves(w, son, kind, p0, p1, p1, son[s], w1, none);
        HoleMoves(w, son[p1 := son[s]], kind, p0, none, p0, son[s + 1], w0, none);
        SetSon(w, son0, son, kind, k, w1, p1, son[s]);
        SetSon(w, son0, son[p1 := son[s]], kind, k, w0, p0, son[s + 1]);
      } else if IsSmaller(w, v) {
        var b1 := GoSmaller(w, son, b, w0, w1, last, v);
        HoleOf(w, c);
        HoleMoves(w, son, kind, p0, p1, p1, v, w1, s + 1);
        SetSon(w, son0, son, kind, k, w1, p1, v);
        SplitKinds(w, son0, son[p1 := v], b1, kind, w0, c, c, son[p1 := v][s + 1], cut - 1);
      } else {
        var b1 := GoLarger(w, son, b, w0, w1, last, v);
        HoleOf(w, c);
        HoleMoves(w, son, kind, p0, p1, p0, v, w0, s);
        SetSon(w, son0, son, kind, k, w0, p0, v);
        SplitKinds(w, son0, son[p0 := v], b1, kind, c, w1, c, son[p0 := v][s], cut - 1);
      }
    }
  }

  lemma HolesRecent(w: View, son: seq<nat>, b: Bounds, w0: nat, w1: nat, last: nat, v: nat)
    requires Descending(w, son, b, w0, w1, last, v)
    ensures Recent(w, w0) && Recent(w, w1) && w0 <= w.at && w1 <= w.at
  {
  }

  lemma NoKind(w: View, kind: nat -> nat, k: nat)
    requires 0 < w.size <= w.pos
    ensures OfKind(w, kind, 0, k)
  {
  }

  lemma IsItsKind(w: View, kind: nat -> nat, v: nat, k: nat)
    requires OfKind(w, kind, v, k) && !Dead(w, v) && 0 <= Idx(w, v)
    ensures kind(Idx(w, v)) == k && OfKind(w, kind, v, kind(Idx(w, v)))
  {
  }

  /** A tree holds positions of one kind only. */
  lemma {:induction false} OneKind(w: View, son: seq<nat>, kind: nat -> nat, k: nat, v: nat, q: nat)
    requires w.size > 0 && |son| == 2 * w.size && AllAlike(w, son, kind, w.at, 2 * w.size, 2 * w.size)
    requires v < w.pos && OfKind(w, kind, v, k) && InTree(w, son, v, q)
    ensures kind(q) == k
    decreases Idx(w, v)
  {
    hide Slot;
    var c: nat := Idx(w, v);
    var s := 2 * Slot(c, w.size);
    assert SonsAlike(w, son, kind, c, 2 * w.size, 2 * w.size);
    if q != c {
      if Idx(w, son[s]) < c && InTree(w, son, son[s], q) {
        OneKind(w, son, kind, k, son[s], q);
      } else {
        OneKind(w, son, kind, k, son[s + 1], q);
      }
    }
  }

  /** The tree of another kind is as it was. */
  lemma {:induction false} OtherTree(w: View, a: seq<nat>, b: seq<nat>, kind: nat -> nat, k: nat, v: nat, q: nat)
    requires w.size > 0 && |a| == |b| == 2 * w.size && AllAlike(w, a, kind, w.at, 2 * w.size, 2 * w.size) && OthersKept(w, a, b, kind, k)
    requires v < w.pos && InTree(w, a, v, q) && kind(Idx(w, v)) != k
    ensures InTree(w, b, v, q)
    decreases Idx(w, v)
  {
    hide Slot;
    var c: nat := Idx(w, v);
    var s := 2 * Slot(c, w.size);
    assert SonsAlike(w, a, kind, c, 2 * w.size, 2 * w.size) && KeepsSons(w, a, b, c);
    if q != c {
      if Idx(w, a[s]) < c && InTree(w, a, a[s], q) {
        Alive(w, a, a[s], q);
        OtherTree(w, a, b, kind, k, a[s], q);
      } else {
        Alive(w, a, a[s + 1], q);
        OtherTree(w, a, b, kind, k, a[s + 1], q);
      }
    }
  }

  /** One position on, what is still in the window is still in its tree. */
  lemma {:induction false} StillInTree(w: View, son: seq<nat>, v: nat, q: nat)
    requires w.size > 0 && |son| == 2 * w.size && InTree(w, son, v, q) && w.at + 1 < q + w.size
    ensures InTree(w.(at := w.at + 1, pos := w.pos + 1), son, v, q)
    decreases Idx(w, v)
  {
    hide Slot;
    InTreeOlder(w, son, v, q);
    var c: nat := Idx(w, v);
    var s := 2 * Slot(c, w.size);
    if q != c {
      if Idx(w, son[s]) < c && InTree(w, son, son[s], q) {
        StillInTree(w, son, son[s], q);
      } else {
        StillInTree(w, son, son[s + 1], q);
      }
    }
  }

  /** All of it for a whole insertion. */
  lemma InsertKeeps(w: View, son: seq<nat>, b: Bounds, kind: nat -> nat, v: nat, cut: nat) returns (b': Bounds)
    requires ValidView(w) && |son| == 2 * w.size && TreeOk(w, son, b, w.at, 2 * w.size, 2 * w.size) && AllAlike(w, son, kind, w.at, 2 * w.size, 2 * w.size)
    requires v < w.pos && (Dead(w, v) || 0 <= Idx(w, v)) && OfKind(w, kind, v, kind(w.at))
    ensures var r := Inserted(w, son, v, cut);
            TreeOk(w, r, b', w.at + 1, 2 * w.size, 2 * w.size) && AllAlike(w, r, kind, w.at + 1, 2 * w.size, 2 * w.size) &&
            OthersKept(w, son, r, kind, kind(w.at)) && (cut >= w.size ==> NothingLost(w, son, v, r))
  {
    hide Rank, Slot, Pow256, TreeOk, Descending, Held, NothingLost, InTree, Split;
    var b0 := StartDown(w, son, b, v);
    HeldStart(w, son, v);
    HoleSlots(w, w.at, w.at);
    assert OnItsWay(w, son, son, kind, w.at, w.at, v);
    b' := SplitKeeps(w, son, v, son, b0, w.at, w.at, w.at, v, cut);
    SplitKinds(w, son, son, b0, kind, w.at, w.at, w.at, v, cut);
    assert Ptr0(w, w.at) == 2 * Slot(w.at, w.size) + 1 && Ptr1(w, w.at) == 2 * Slot(w.at, w.size);
  }
}
