/** What a search reports and what tree it leaves, as functions of the tree it finds. Whether pairs
    are reported makes no difference to the tree, and renormalising positions none to either. */
module LzWalk {
  import opened LzRank
  import opened LzTree

  /** A reported pair: so many bytes, from dist + 1 positions back. */
  datatype Found = Found(len: nat, dist: nat)

  /** How many bytes, of at most limit, two strings that agree in k bytes have in common. */
  function Common(text: seq<octet>, i: nat, j: nat, k: nat, limit: nat): nat
    decreases limit - k
  {
    if k < limit && At(text, i, k) == At(text, j, k) then Common(text, i, j, k + 1, limit) else k
  }

  lemma {:induction false} CommonIs(text: seq<octet>, i: nat, j: nat, k: nat, limit: nat, len: nat)
    requires k <= len <= limit && Agree(text, i, j, len) && (len == limit || At(text, i, len) != At(text, j, len))
    ensures Common(text, i, j, k, limit) == len
    decreases len - k
  {
    if k < len {
      CommonIs(text, i, j, k + 1, limit, len);
    }
  }

  /** There is a node to look at. */
  predicate Looks(w: View, v: nat, cut: nat) {
    cut > 0 && v < w.pos && !Dead(w, v) && 0 <= Idx(w, v)
  }

  function CommonAt(w: View, v: nat): nat
    requires 0 <= Idx(w, v)
  {
    Common(w.text, w.at, Idx(w, v), 0, w.limit)
  }

  predicate IsSmaller(w: View, v: nat)
    requires 0 <= Idx(w, v)
  {
    At(w.text, Idx(w, v), CommonAt(w, v)) < At(w.text, w.at, CommonAt(w, v))
  }

  /** The slot of the son that the search goes on to. */
  function SonSlot(w: View, v: nat): (s: nat)
    requires w.size > 0 && 0 <= Idx(w, v)
    ensures s < 2 * w.size
  {
    2 * Slot(Idx(w, v), w.size) + if IsSmaller(w, v) then 1 else 0
  }

  /** Search of a tree as it stands, of at most cut nodes: every match longer than all those before
      it, down to the first that is as long as can be. */
  function Pairs(w: View, son: seq<nat>, v: nat, cut: nat, maxLen: nat): seq<Found>
    requires w.size > 0 && |son| == 2 * w.size
    decreases cut
  {
    if !Looks(w, v, cut) then []
    else
      var len := CommonAt(w, v);
      var found := if maxLen < len then [Found(len, w.pos - v - 1)] else [];
      if len == w.limit then found
      else found + Pairs(w, son, son[SonSlot(w, v)], cut - 1, if maxLen < len then len else maxLen)
  }

  /** The tree with the new position at its root: the old one split at the new string, the larger
      part hung up from slot p0 on, the smaller from slot p1 on. */
  function Split(w: View, son: seq<nat>, v: nat, p0: nat, p1: nat, cut: nat): (r: seq<nat>)
    requires w.size > 0 && |son| == 2 * w.size && p0 < |son| && p1 < |son|
    ensures |r| == |son|
    decreases cut
  {
    if !Looks(w, v, cut) then son[p0 := 0][p1 := 0]
    else
      var s := 2 * Slot(Idx(w, v), w.size);
      if CommonAt(w, v) == w.limit then son[p1 := son[s]][p0 := son[s + 1]]
      else if IsSmaller(w, v) then Split(w, son[p1 := v], son[p1 := v][s + 1], p0, s + 1, cut - 1)
      else Split(w, son[p0 := v], son[p0 := v][s], s, p1, cut - 1)
  }

  /** The new position takes the slots of the one that leaves the window. */
  function Inserted(w: View, son: seq<nat>, v: nat, cut: nat): (r: seq<nat>)
    requires w.size > 0 && |son| == 2 * w.size
    ensures |r| == |son|
  {
    Split(w, son, v, 2 * Slot(w.at, w.size) + 1, 2 * Slot(w.at, w.size), cut)
  }

  /** Slots outside a tree have no say in what is found in it. */
  lemma {:induction false} PairsBelow(w: View, son: seq<nat>, son': seq<nat>, b: Bounds, hole0: nat, hole1: nat, v: nat, top: nat, cut: nat, maxLen: nat)
    requires w.size > 0 && |son| == 2 * w.size
    requires TreeOk(w, son, b, w.at + 1, hole0, hole1) && |son'| == |son| && top <= w.at
    requires v < w.pos && (Dead(w, v) || 0 <= Idx(w, v) < top)
    requires forall p: nat | p < top && Recent(w, p) ::
               var s := 2 * Slot(p, w.size);
               s != hole0 && s != hole1 && s + 1 != hole0 && s + 1 != hole1 && son'[s] == son[s] && son'[s + 1] == son[s + 1]
    ensures Pairs(w, son', v, cut, maxLen) == Pairs(w, son, v, cut, maxLen)
    decreases cut
  {
    hide Pairs, CommonAt, IsSmaller, TreeOk, SonSlot, Slot;
    PairsStep(w, son, v, cut, maxLen);
    PairsStep(w, son', v, cut, maxLen);
    if Looks(w, v, cut) && CommonAt(w, v) != w.limit {
      var len := CommonAt(w, v);
      NextSon(w, son, b, hole0, hole1, v, top);
      SonSlotIs(w, v);
      assert Recent(w, Idx(w, v));
      PairsBelow(w, son, son', b, hole0, hole1, son[SonSlot(w, v)], Idx(w, v), cut - 1, if maxLen < len then len else maxLen);
    }
  }

  lemma PairsStep(w: View, son: seq<nat>, v: nat, cut: nat, maxLen: nat)
    requires w.size > 0 && |son| == 2 * w.size
    ensures !Looks(w, v, cut) ==> Pairs(w, son, v, cut, maxLen) == []
    ensures Looks(w, v, cut) ==>
              var len := CommonAt(w, v);
              var found := if maxLen < len then [Found(len, w.pos - v - 1)] else [];
              Pairs(w, son, v, cut, maxLen) ==
                if len == w.limit then found
                else found + Pairs(w, son, son[SonSlot(w, v)], cut - 1, if maxLen < len then len else maxLen)
  {
    hide CommonAt, IsSmaller, SonSlot, Slot;
  }

  lemma SonSlotIs(w: View, v: nat)
    requires w.size > 0 && 0 <= Idx(w, v)
    ensures var s := 2 * Slot(Idx(w, v), w.size); SonSlot(w, v) == s || SonSlot(w, v) == s + 1
  {
  }

  /** The sons of a node in order are older than it. */
  lemma NextSon(w: View, son: seq<nat>, b: Bounds, hole0: nat, hole1: nat, v: nat, top: nat)
    requires TreeOk(w, son, b, w.at + 1, hole0, hole1) && top <= w.at && v < w.pos && !Dead(w, v) && 0 <= Idx(w, v) < top
    requires var s := 2 * Slot(Idx(w, v), w.size); s != hole0 && s != hole1 && s + 1 != hole0 && s + 1 != hole1
    ensures var u := son[SonSlot(w, v)]; u < w.pos && (Dead(w, u) || 0 <= Idx(w, u) < Idx(w, v))
  {
    hide Slot, Rank, CommonAt, IsSmaller;
    assert NodeOk(w, son, b, Idx(w, v), hole0, hole1);
  }

  /** What is measured at a node decides where the search goes from there. */
  lemma Measured(w: View, v: nat, len: nat)
    requires 0 <= Idx(w, v) && len <= w.limit && Agree(w.text, w.at, Idx(w, v), len)
    requires len == w.limit || At(w.text, w.at, len) != At(w.text, Idx(w, v), len)
    ensures CommonAt(w, v) == len && (IsSmaller(w, v) <==> At(w.text, Idx(w, v), len) < At(w.text, w.at, len))
  {
    CommonIs(w.text, w.at, Idx(w, v), 0, w.limit, len);
  }

  /** One node further down, with the holes in q0 and q1, the rest of the pairs and of the tree is
      still to come. */
  ghost predicate Passed(w: View, son: seq<nat>, v: nat, p0: nat, p1: nat, cut: nat, maxLen: nat, len: nat,
                         son': seq<nat>, s: nat, q0: nat, q1: nat)
    requires 0 < w.size && |son| == |son'| == 2 * w.size && v < w.pos && cut > 0
    requires p0 < |son| && p1 < |son| && s < |son| && q0 < |son| && q1 < |son|
  {
    son'[s] == son[s] &&
    Pairs(w, son, v, cut, maxLen) ==
      (if maxLen < len then [Found(len, w.pos - v - 1)] else []) + Pairs(w, son', son'[s], cut - 1, if maxLen < len then len else maxLen) &&
    Split(w, son, v, p0, p1, cut) == Split(w, son', son'[s], q0, q1, cut - 1)
  }

  lemma PassedBy(w: View, son: seq<nat>, b: Bounds, w0: nat, w1: nat, last: nat, v: nat, len: nat, cut: nat, maxLen: nat)
    requires w.size > 0 && |son| == 2 * w.size && v < w.pos && cut > 0 && 0 <= Idx(w, v)
    requires ValidView(w) && Descending(w, son, b, w0, w1, last, v) && !Dead(w, v)
    requires len < w.limit && Agree(w.text, w.at, Idx(w, v), len) && At(w.text, w.at, len) != At(w.text, Idx(w, v), len)
    ensures var s := 2 * Slot(Idx(w, v), w.size);
            if At(w.text, Idx(w, v), len) < At(w.text, w.at, len) then
              Passed(w, son, v, Ptr0(w, w0), Ptr1(w, w1), cut, maxLen, len, son[Ptr1(w, w1) := v], s + 1, Ptr0(w, w0), s + 1)
            else
              Passed(w, son, v, Ptr0(w, w0), Ptr1(w, w1), cut, maxLen, len, son[Ptr0(w, w0) := v], s, s, Ptr1(w, w1))
  {
    hide Slot, Rank, CommonAt, IsSmaller, TreeOk, Pairs, NodeOk;
    Measured(w, v, len);
    var c: nat := Idx(w, v);
    var son' := son[if IsSmaller(w, v) then Ptr1(w, w1) else Ptr0(w, w0) := v];
    OlderSlots(w, w0, w1, c);
    NextSon(w, son, b, Ptr0(w, w0), Ptr1(w, w1), v, last);
    PairsStep(w, son, v, cut, maxLen);
    PairsBelow(w, son, son', b, Ptr0(w, w0), Ptr1(w, w1), son[SonSlot(w, v)], c, cut - 1, if maxLen < len then len else maxLen);
  }

  /** What was reported so far and what is still to come are all the pairs. */
  ghost predicate Told(w: View, son0: seq<nat>, v0: nat, cut0: nat, maxLen0: nat, told: seq<Found>, son: seq<nat>, v: nat, cut: nat, maxLen: nat)
    requires 0 < w.size && |son0| == |son| == 2 * w.size
  {
    told + Pairs(w, son, v, cut, maxLen) == Pairs(w, son0, v0, cut0, maxLen0)
  }

  /** What is still to be done leads to the tree. */
  ghost predicate Leads(w: View, son0: seq<nat>, v0: nat, cut0: nat, son: seq<nat>, v: nat, p0: nat, p1: nat, cut: nat)
    requires 0 < w.size && |son0| == |son| == 2 * w.size && p0 < |son| && p1 < |son|
  {
    Split(w, son, v, p0, p1, cut) == Inserted(w, son0, v0, cut0)
  }

  lemma WalkStart(w: View, son: seq<nat>, v: nat, cut: nat, maxLen: nat)
    requires 0 < w.size && |son| == 2 * w.size
    ensures Told(w, son, v, cut, maxLen, [], son, v, cut, maxLen)
    ensures Leads(w, son, v, cut, son, v, 2 * Slot(w.at, w.size) + 1, 2 * Slot(w.at, w.size), cut)
  {
  }

  lemma WalkOn(w: View, son0: seq<nat>, v0: nat, cut0: nat, maxLen0: nat, told: seq<Found>, son: seq<nat>, v: nat,
               p0: nat, p1: nat, cut: nat, maxLen: nat, len: nat, son': seq<nat>, s: nat, q0: nat, q1: nat)
    requires 0 < w.size && |son0| == |son| == |son'| == 2 * w.size && v < w.pos && cut > 0
    requires p0 < |son| && p1 < |son| && s < |son| && q0 < |son| && q1 < |son|
    requires Passed(w, son, v, p0, p1, cut, maxLen, len, son', s, q0, q1)
    ensures Leads(w, son0, v0, cut0, son, v, p0, p1, cut) ==> Leads(w, son0, v0, cut0, son', son'[s], q0, q1, cut - 1)
    ensures Told(w, son0, v0, cut0, maxLen0, told, son, v, cut, maxLen) ==>
              Told(w, son0, v0, cut0, maxLen0, if maxLen < len then told + [Found(len, w.pos - v - 1)] else told,
                   son', son'[s], cut - 1, if maxLen < len then len else maxLen)
  {
    hide Pairs, Split;
    var more := if maxLen < len then [Found(len, w.pos - v - 1)] else [];
    var rest := Pairs(w, son', son'[s], cut - 1, if maxLen < len then len else maxLen);
    assert told + (more + rest) == told + more + rest;
  }

  lemma NothingLeft(w: View, son0: seq<nat>, v0: nat, cut0: nat, maxLen0: nat, told: seq<Found>, son: seq<nat>, v: nat,
                    p0: nat, p1: nat, cut: nat, maxLen: nat)
    requires 0 < w.size && |son0| == |son| == 2 * w.size && p0 < |son| && p1 < |son| && !Looks(w, v, cut)
    ensures Leads(w, son0, v0, cut0, son, v, p0, p1, cut) ==> son[p0 := 0][p1 := 0] == Inserted(w, son0, v0, cut0)
    ensures Told(w, son0, v0, cut0, maxLen0, told, son, v, cut, maxLen) ==> told == Pairs(w, son0, v0, cut0, maxLen0)
  {
    assert Pairs(w, son, v, cut, maxLen) == [] && told + [] == told;
  }

  lemma WholeFound(w: View, son0: seq<nat>, v0: nat, cut0: nat, maxLen0: nat, told: seq<Found>, son: seq<nat>, v: nat,
                   p0: nat, p1: nat, cut: nat, maxLen: nat)
    requires 0 < w.size && |son0| == |son| == 2 * w.size && p0 < |son| && p1 < |son| && Looks(w, v, cut) && maxLen < w.limit
    requires Agree(w.text, w.at, Idx(w, v), w.limit)
    ensures var s := 2 * Slot(Idx(w, v), w.size);
            Leads(w, son0, v0, cut0, son, v, p0, p1, cut) ==> son[p1 := son[s]][p0 := son[s + 1]] == Inserted(w, son0, v0, cut0)
    ensures Told(w, son0, v0, cut0, maxLen0, told, son, v, cut, maxLen) ==>
              told + [Found(w.limit, w.pos - v - 1)] == Pairs(w, son0, v0, cut0, maxLen0)
  {
    hide Slot, Common, CommonAt, IsSmaller, SonSlot;
    Measured(w, v, w.limit);
    assert Pairs(w, son, v, cut, maxLen) == [Found(w.limit, w.pos - v - 1)];
  }

  // ---------- Normalisation ----------

  function Lowered(son: seq<nat>, subValue: nat): (r: seq<nat>)
    ensures |r| == |son|
  {
    seq(|son|, i requires 0 <= i < |son| => Reduced(son[i], subValue))
  }

  /** After renormalisation a search looks at the same nodes. */
  lemma LooksAlike(w: View, v: nat, cut: nat, subValue: nat)
    requires w.size > 0 && w.size + subValue <= w.pos
    ensures var w', v' := w.(pos := w.pos - subValue), Reduced(v, subValue);
            Looks(w', v', cut) == Looks(w, v, cut) &&
            (Looks(w, v, cut) ==> Idx(w', v') == Idx(w, v) && w'.pos - v' == w.pos - v && CommonAt(w', v') == CommonAt(w, v) &&
                                  IsSmaller(w', v') == IsSmaller(w, v) && SonSlot(w', v') == SonSlot(w, v))
  {
    hide Slot, Common;
  }

  /** It reports the same pairs, */
  lemma {:induction false} SamePairs(w: View, son: seq<nat>, v: nat, cut: nat, maxLen: nat, subValue: nat)
    requires 0 < w.size && w.size + subValue <= w.pos && |son| == 2 * w.size
    ensures Pairs(w.(pos := w.pos - subValue), Lowered(son, subValue), Reduced(v, subValue), cut, maxLen) == Pairs(w, son, v, cut, maxLen)
    decreases cut
  {
    hide Slot, Common, CommonAt, IsSmaller, SonSlot;
    LooksAlike(w, v, cut, subValue);
    if Looks(w, v, cut) && CommonAt(w, v) != w.limit {
      var len := CommonAt(w, v);
      SamePairs(w, son, son[SonSlot(w, v)], cut - 1, if maxLen < len then len else maxLen, subValue);
    }
  }

  /** and leaves the same tree, renormalised. */
  lemma {:induction false} SameSplit(w: View, son: seq<nat>, v: nat, p0: nat, p1: nat, cut: nat, subValue: nat)
    requires 0 < w.size && w.size + subValue <= w.pos && |son| == 2 * w.size && p0 < |son| && p1 < |son|
    ensures Split(w.(pos := w.pos - subValue), Lowered(son, subValue), Reduced(v, subValue), p0, p1, cut) ==
            Lowered(Split(w, son, v, p0, p1, cut), subValue)
    decreases cut
  {
    hide Slot, Common, CommonAt, IsSmaller;
    LooksAlike(w, v, cut, subValue);
    var low := Lowered(son, subValue);
    if !Looks(w, v, cut) {
      LoweredUpdate(son, p0, 0, subValue);
      LoweredUpdate(son[p0 := 0], p1, 0, subValue);
    } else {
      var s := 2 * Slot(Idx(w, v), w.size);
      if CommonAt(w, v) == w.limit {
        LoweredUpdate(son, p1, son[s], subValue);
        LoweredUpdate(son[p1 := son[s]], p0, son[s + 1], subValue);
      } else if IsSmaller(w, v) {
        LoweredUpdate(son, p1, v, subValue);
        SameSplit(w, son[p1 := v], son[p1 := v][s + 1], p0, s + 1, cut - 1, subValue);
      } else {
        LoweredUpdate(son, p0, v, subValue);
        SameSplit(w, son[p0 := v], son[p0 := v][s], s, p1, cut - 1, subValue);
      }
    }
  }

  lemma LoweredUpdate(son: seq<nat>, i: nat, v: nat, subValue: nat)
    requires i < |son|
    ensures Lowered(son[i := v], subValue) == Lowered(son, subValue)[i := Reduced(v, subValue)]
  {
  }

  /** A search after renormalisation is the search without it. */
  lemma NormalizeUnseen(w: View, son: seq<nat>, v: nat, cut: nat, maxLen: nat, subValue: nat)
    requires 0 < w.size && w.size + subValue <= w.pos && |son| == 2 * w.size
    ensures var w' := w.(pos := w.pos - subValue);
            Pairs(w', Lowered(son, subValue), Reduced(v, subValue), cut, maxLen) == Pairs(w, son, v, cut, maxLen) &&
            Inserted(w', Lowered(son, subValue), Reduced(v, subValue), cut) == Lowered(Inserted(w, son, v, cut), subValue)
  {
    SamePairs(w, son, v, cut, maxLen, subValue);
    SameSplit(w, son, v, 2 * Slot(w.at, w.size) + 1, 2 * Slot(w.at, w.size), cut, subValue);
  }

  // ---------- More text ----------

  lemma {:induction false} CommonInLonger(text: seq<octet>, more: seq<octet>, i: nat, j: nat, k: nat, limit: nat)
    requires i + limit <= |text| && j + limit <= |text|
    ensures Common(text + more, i, j, k, limit) == Common(text, i, j, k, limit)
    decreases limit - k
  {
    if k < limit && At(text, i, k) == At(text, j, k) {
      CommonInLonger(text, more, i, j, k + 1, limit);
    }
  }

  lemma {:induction false} CommonBelow(text: seq<octet>, i: nat, j: nat, k: nat, limit: nat)
    requires k <= limit
    ensures Common(text, i, j, k, limit) <= limit
    decreases limit - k
  {
    if k < limit {
      CommonBelow(text, i, j, k + 1, limit);
    }
  }

  /** Text that comes later is not looked at. */
  lemma LooksInLonger(w: View, v: nat, cut: nat, more: seq<octet>)
    requires ValidView(w)
    ensures var w' := w.(text := w.text + more);
            Looks(w', v, cut) == Looks(w, v, cut) &&
            (Looks(w, v, cut) ==> CommonAt(w', v) == CommonAt(w, v) && (CommonAt(w, v) != w.limit ==> IsSmaller(w', v) == IsSmaller(w, v)))
  {
    hide Common;
    if Looks(w, v, cut) {
      CommonInLonger(w.text, more, w.at, Idx(w, v), 0, w.limit);
      CommonBelow(w.text, w.at, Idx(w, v), 0, w.limit);
    }
  }

  lemma {:induction false} PairsInLonger(w: View, son: seq<nat>, v: nat, cut: nat, maxLen: nat, more: seq<octet>)
    requires ValidView(w) && |son| == 2 * w.size
    ensures Pairs(w.(text := w.text + more), son, v, cut, maxLen) == Pairs(w, son, v, cut, maxLen)
    decreases cut
  {
    hide Slot, Common, CommonAt, IsSmaller;
    LooksInLonger(w, v, cut, more);
    if Looks(w, v, cut) && CommonAt(w, v) != w.limit {
      var len := CommonAt(w, v);
      PairsInLonger(w, son, son[SonSlot(w, v)], cut - 1, if maxLen < len then len else maxLen, more);
    }
  }

  lemma {:induction false} SplitInLonger(w: View, son: seq<nat>, v: nat, p0: nat, p1: nat, cut: nat, more: seq<octet>)
    requires ValidView(w) && |son| == 2 * w.size && p0 < |son| && p1 < |son|
    ensures Split(w.(text := w.text + more), son, v, p0, p1, cut) == Split(w, son, v, p0, p1, cut)
    decreases cut
  {
    hide Slot, Common, CommonAt, IsSmaller;
    LooksInLonger(w, v, cut, more);
    if Looks(w, v, cut) && CommonAt(w, v) != w.limit {
      var s := 2 * Slot(Idx(w, v), w.size);
      if IsSmaller(w, v) {
        SplitInLonger(w, son[p1 := v], son[p1 := v][s + 1], p0, s + 1, cut - 1, more);
      } else {
        SplitInLonger(w, son[p0 := v], son[p0 := v][s], s, p1, cut - 1, more);
      }
    }
  }
}
