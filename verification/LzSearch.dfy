/** The searches of the match finder: down a binary tree, with or without reporting matches,
    and along a hash chain. */
module LzSearch {
  import opened Bytes
  import opened Arith
  import opened LzRank
  import opened LzTree
  import opened LzKept
  import opened LzWalk

  /** The match is there, lies within the history, and cannot be made longer. */
  ghost predicate Genuine(w: View, f: Found) {
    0 < f.len <= w.limit && f.dist + 1 < w.size && f.dist + 1 <= w.at &&
    Agree(w.text, w.at, w.at - f.dist - 1, f.len) &&
    (f.len == w.limit || At(w.text, w.at, f.len) != At(w.text, w.at - f.dist - 1, f.len))
  }

  /** All reported matches are genuine, each longer than the one before and the first longer
      than maxLen. */
  ghost predicate Reported(w: View, maxLen: nat, ds: seq<Found>) {
    ds == [] ||
    (Reported(w, maxLen, ds[..|ds| - 1]) && Genuine(w, ds[|ds| - 1]) && ds[|ds| - 1].len > Longest(maxLen, ds[..|ds| - 1]))
  }

  function Longest(maxLen: nat, ds: seq<Found>): nat {
    if ds == [] then maxLen else ds[|ds| - 1].len
  }

  /** The reported bytes are in the history, and there are no more of them. */
  ghost predicate IsRepeat(w: View, f: Found) {
    var from := w.at - f.dist - 1;
    0 < f.len <= w.limit && 0 <= from && f.dist + 1 < w.size && w.at + w.limit <= |w.text| &&
    w.text[from..from + f.len] == w.text[w.at..w.at + f.len] &&
    (f.len < w.limit ==> w.text[from + f.len] != w.text[w.at + f.len])
  }

  lemma GenuineIsRepeat(w: View, f: Found)
    requires ValidView(w) && Genuine(w, f)
    ensures IsRepeat(w, f)
  {
    var from := w.at - f.dist - 1;
    var a, b := w.text[from..from + f.len], w.text[w.at..w.at + f.len];
    forall k | 0 <= k < f.len ensures a[k] == b[k] {
      assert At(w.text, w.at, k) == At(w.text, from, k);
    }
    assert a == b;
  }

  /** Every reported pair is a repeat of so many bytes at that distance, and lengths grow strictly. */
  lemma {:induction false} ReportedPairs(w: View, maxLen: nat, ds: seq<Found>)
    requires ValidView(w) && Reported(w, maxLen, ds)
    ensures forall i | 0 <= i < |ds| :: IsRepeat(w, ds[i]) && maxLen < ds[i].len <= Longest(maxLen, ds)
    ensures forall i, j | 0 <= i < j < |ds| :: ds[i].len < ds[j].len
    decreases |ds|
  {
    hide Genuine, IsRepeat;
    if ds != [] {
      var init, f := ds[..|ds| - 1], ds[|ds| - 1];
      ReportedPairs(w, maxLen, init);
      GenuineIsRepeat(w, f);
      assert forall i | 0 <= i < |init| :: ds[i] == init[i];
    }
  }

  /** The window at cur shows the text around at: the history and the next limit bytes. */
  ghost predicate Shows(win: seq<octet>, cur: nat, w: View) {
    forall p: nat, k: nat | Recent(w, p) && k < w.limit :: Shown(win, cur, w, p, k)
  }

  ghost predicate Shown(win: seq<octet>, cur: nat, w: View, p: nat, k: nat) {
    0 <= cur - (w.at - p) + k < |win| && win[cur - (w.at - p) + k] == At(w.text, p, k)
  }

  lemma Seen(win: seq<octet>, cur: nat, w: View, p: nat, k: nat)
    requires Shows(win, cur, w) && Recent(w, p) && k < w.limit
    ensures 0 <= cur - (w.at - p) + k < |win| && win[cur - (w.at - p) + k] == At(w.text, p, k)
  {
    assert Shown(win, cur, w, p, k);
  }

  /** Goes on comparing from len. */
  method CommonLength(win: array<octet>, cur: nat, delta: nat, len0: nat, lenLimit: nat, ghost w: View) returns (len: nat)
    requires Shows(win[..], cur, w) && lenLimit == w.limit && delta <= w.at && delta < w.size && delta <= cur
    requires len0 <= lenLimit && Agree(w.text, w.at, w.at - delta, len0)
    ensures len0 <= len <= lenLimit && Agree(w.text, w.at, w.at - delta, len)
    ensures len == lenLimit || At(w.text, w.at, len) != At(w.text, w.at - delta, len)
  {
    len := len0;
    while len != lenLimit
      invariant len0 <= len <= lenLimit && Agree(w.text, w.at, w.at - delta, len)
    {
      Seen(win[..], cur, w, w.at, len);
      Seen(win[..], cur, w, w.at - delta, len);
      if win[cur - delta + len] != win[cur + len] {
        break;
      }
      len := len + 1;
    }
  }

  /** What is known on the way down of the two strings nearest to the new one. */
  ghost predicate Lengths(w: View, w0: nat, w1: nat, len0: nat, len1: nat) {
    len0 < w.limit && len1 < w.limit &&
    (if w0 == w.at then len0 == 0 else Agree(w.text, w.at, w0, len0)) &&
    (if w1 == w.at then len1 == 0 else Agree(w.text, w.at, w1, len1))
  }

  lemma LengthsStart(w: View)
    requires 0 < w.size && 0 < w.limit
    ensures Lengths(w, w.at, w.at, 0, 0) && Ptr0(w, w.at) == 2 * Slot(w.at, w.size) + 1 && Ptr1(w, w.at) == 2 * Slot(w.at, w.size)
  {
  }

  /** Where the next node can first differ from the new string. */
  lemma KnownPrefix(w: View, son: seq<nat>, b: Bounds, w0: nat, w1: nat, last: nat, v: nat, len0: nat, len1: nat)
    requires ValidView(w) && Descending(w, son, b, w0, w1, last, v) && !Dead(w, v) && Lengths(w, w0, w1, len0, len1) && 0 <= Idx(w, v)
    ensures len0 < w.limit && len1 < w.limit && Agree(w.text, w.at, Idx(w, v), Lower(len0, len1))
  {
    hide Descending, Agree;
    PrefixKnown(w, son, b, w0, w1, last, v, len0, len1);
  }

  lemma ReportedMore(w: View, maxLen: nat, ds: seq<Found>, f: Found)
    requires Reported(w, maxLen, ds) && Genuine(w, f) && f.len > Longest(maxLen, ds)
    ensures Reported(w, maxLen, ds + [f]) && Longest(maxLen, ds + [f]) == f.len
  {
    assert (ds + [f])[..|ds|] == ds;
  }

  /** Compares the next node with the new string, from where they can first differ. */
  method Measure(win: array<octet>, cur: nat, delta: nat, len0: nat, len1: nat, lenLimit: nat, ghost w: View) returns (len: nat, more: bool)
    requires Shows(win[..], cur, w) && lenLimit == w.limit && 0 < delta < w.size && delta <= w.at
    requires len0 < lenLimit && len1 < lenLimit && Agree(w.text, w.at, w.at - delta, Lower(len0, len1))
    ensures len <= lenLimit && Agree(w.text, w.at, w.at - delta, len) && (more ==> len > 0)
    ensures if len == lenLimit then more else At(w.text, w.at, len) != At(w.text, w.at - delta, len)
    ensures !more ==> len == Lower(len0, len1)
  {
    len := if len0 < len1 then len0 else len1;
    Seen(win[..], cur, w, w.at, len);
    Seen(win[..], cur, w, w.at - delta, 0);
    Seen(win[..], cur, w, w.at - delta, len);
    more := win[cur - delta + len] == win[cur + len];
    if more {
      len := CommonLength(win, cur, delta, len + 1, lenLimit, w);
    }
  }

  lemma Differs(w: View, q: nat, len: nat)
    requires At(w.text, w.at, len) != At(w.text, q, len)
    ensures Within(w, q, len)
  {
  }

  /** Hangs the next node into one of the two holes; its own outer or inner son is the new hole. */
  method Relink(win: array<octet>, cur: nat, delta: nat, len: nat, son: array<nat>, pair: nat, curMatch0: nat,
                ptr00: nat, ptr10: nat, len00: nat, len10: nat,
                ghost w: View, ghost b0: Bounds, ghost w00: nat, ghost w10: nat, ghost last: nat,
                ghost son0: seq<nat>, ghost root: nat, ghost cut: nat, ghost maxLen: nat)
    returns (curMatch: nat, ptr0: nat, ptr1: nat, len0: nat, len1: nat, ghost b: Bounds, ghost w0: nat, ghost w1: nat, ghost next: nat)
    requires ValidView(w) && Descending(w, son[..], b0, w00, w10, last, curMatch0) && son.Length == 2 * w.size
    requires ptr00 == Ptr0(w, w00) && ptr10 == Ptr1(w, w10) && Lengths(w, w00, w10, len00, len10) && Shows(win[..], cur, w) && win as object != son
    requires 0 < delta == w.pos - curMatch0 < w.size && delta <= w.at && pair == 2 * Slot(w.at - delta, w.size)
    requires |son0| == 2 * w.size && Held(w, son0, root, son[..], w00, w10, curMatch0)
    requires len < w.limit && Agree(w.text, w.at, w.at - delta, len) && At(w.text, w.at, len) != At(w.text, w.at - delta, len)
    requires cut > 0
    modifies son
    ensures Descending(w, son[..], b, w0, w1, w.at - delta, curMatch) && Held(w, son0, root, son[..], w0, w1, curMatch)
    ensures ptr0 == Ptr0(w, w0) && ptr1 == Ptr1(w, w1) && Lengths(w, w0, w1, len0, len1)
    ensures Covered(w, old(son[..]), curMatch0, son[..], curMatch, len) && len0 <= Upper(len00, len) && len1 <= Upper(len10, len)
    ensures 0 <= next < son.Length && curMatch == son[next]
    ensures Passed(w, old(son[..]), curMatch0, ptr00, ptr10, cut, maxLen, len, son[..], next, ptr0, ptr1)
  {
    hide Rank, Slot, Pow256, TreeOk, Shows, Descending, Value, A0, A1, B0, B1, Covered, Within, Held, Ptr0, Ptr1, Agree, Passed;
    ptr0, ptr1, len0, len1, w0, w1 := ptr00, ptr10, len00, len10, w00, w10;
    PassedBy(w, son[..], b0, w00, w10, last, curMatch0, len, cut, maxLen);
    Seen(win[..], cur, w, w.at, len);
    Seen(win[..], cur, w, w.at - delta, 0);
    Seen(win[..], cur, w, w.at - delta, len);
    if win[cur - delta + len] < win[cur + len] {
      curMatch, ptr1, b := RelinkSmaller(son, pair, delta, len, curMatch0, ptr10, w, b0, w00, w10, last, son0, root);
      len1, w1, next := len, w.at - delta, pair + 1;
    } else {
      curMatch, ptr0, b := RelinkLarger(son, pair, delta, len, curMatch0, ptr00, w, b0, w00, w10, last, son0, root);
      len0, w0, next := len, w.at - delta, pair;
    }
  }

  /** The node is smaller: it goes to the smaller side, and the search on among its larger sons. */
  method RelinkSmaller(son: array<nat>, pair: nat, delta: nat, len: nat, curMatch0: nat, ptr10: nat,
                       ghost w: View, ghost b0: Bounds, ghost w0: nat, ghost w1: nat, ghost last: nat, ghost son0: seq<nat>, ghost root: nat)
    returns (curMatch: nat, ptr1: nat, ghost b: Bounds)
    requires ValidView(w) && Descending(w, son[..], b0, w0, w1, last, curMatch0) && son.Length == 2 * w.size && ptr10 == Ptr1(w, w1)
    requires 0 < delta == w.pos - curMatch0 < w.size && delta <= w.at && pair == 2 * Slot(w.at - delta, w.size)
    requires |son0| == 2 * w.size && Held(w, son0, root, son[..], w0, w1, curMatch0)
    requires len < w.limit && Agree(w.text, w.at, w.at - delta, len) && At(w.text, w.at - delta, len) < At(w.text, w.at, len)
    modifies son
    ensures Descending(w, son[..], b, w0, w.at - delta, w.at - delta, curMatch) && Held(w, son0, root, son[..], w0, w.at - delta, curMatch)
    ensures son[..] == old(son[..])[ptr10 := curMatch0] && curMatch == son[pair + 1]
    ensures ptr1 == pair + 1 == Ptr1(w, w.at - delta) && Covered(w, old(son[..]), curMatch0, son[..], curMatch, len)
  {
    hide Rank, Slot, Pow256, TreeOk, Descending, Value, A0, A1, B0, B1, Covered, Within, Held;
    RankLess(w.text, w.at - delta, w.at, len, w.limit);
    Differs(w, w.at - delta, len);
    SmallerCovers(w, son[..], b0, w0, w1, last, curMatch0, len);
    SmallerHeld(w, son0, root, son[..], b0, w0, w1, last, curMatch0);
    b := GoSmaller(w, son[..], b0, w0, w1, last, curMatch0);
    ghost var s := son[..];
    son[ptr10] := curMatch0;
    assert son[..] == s[ptr10 := curMatch0];
    ptr1 := pair + 1;
    curMatch := son[ptr1];
  }

  /** The node is larger: the other way round. */
  method RelinkLarger(son: array<nat>, pair: nat, delta: nat, len: nat, curMatch0: nat, ptr00: nat,
                      ghost w: View, ghost b0: Bounds, ghost w0: nat, ghost w1: nat, ghost last: nat, ghost son0: seq<nat>, ghost root: nat)
    returns (curMatch: nat, ptr0: nat, ghost b: Bounds)
    requires ValidView(w) && Descending(w, son[..], b0, w0, w1, last, curMatch0) && son.Length == 2 * w.size && ptr00 == Ptr0(w, w0)
    requires 0 < delta == w.pos - curMatch0 < w.size && delta <= w.at && pair == 2 * Slot(w.at - delta, w.size)
    requires |son0| == 2 * w.size && Held(w, son0, root, son[..], w0, w1, curMatch0)
    requires len < w.limit && Agree(w.text, w.at, w.at - delta, len) && At(w.text, w.at, len) < At(w.text, w.at - delta, len)
    modifies son
    ensures Descending(w, son[..], b, w.at - delta, w1, w.at - delta, curMatch) && Held(w, son0, root, son[..], w.at - delta, w1, curMatch)
    ensures son[..] == old(son[..])[ptr00 := curMatch0] && curMatch == son[pair]
    ensures ptr0 == pair == Ptr0(w, w.at - delta) && Covered(w, old(son[..]), curMatch0, son[..], curMatch, len)
  {
    hide Rank, Slot, Pow256, TreeOk, Descending, Value, A0, A1, B0, B1, Covered, Within, Held;
    RankLess(w.text, w.at, w.at - delta, len, w.limit);
    Differs(w, w.at - delta, len);
    LargerCovers(w, son[..], b0, w0, w1, last, curMatch0, len);
    LargerHeld(w, son0, root, son[..], b0, w0, w1, last, curMatch0);
    b := GoLarger(w, son[..], b0, w0, w1, last, curMatch0);
    ghost var s := son[..];
    son[ptr00] := curMatch0;
    assert son[..] == s[ptr00 := curMatch0];
    ptr0 := pair;
    curMatch := son[ptr0];
  }

  /** The end of a search that found the new string itself. */
  method Replace(son: array<nat>, pair: nat, ptr0: nat, ptr1: nat, ghost w: View, ghost b: Bounds,
                 ghost w0: nat, ghost w1: nat, ghost last: nat, ghost curMatch: nat, ghost delta: nat, ghost son0: seq<nat>, ghost root: nat)
    requires ValidView(w) && Descending(w, son[..], b, w0, w1, last, curMatch) && son.Length == 2 * w.size
    requires ptr0 == Ptr0(w, w0) && ptr1 == Ptr1(w, w1)
    requires 0 < delta == w.pos - curMatch < w.size && delta <= w.at && pair == 2 * Slot(w.at - delta, w.size)
    requires Agree(w.text, w.at, w.at - delta, w.limit) && |son0| == 2 * w.size && Held(w, son0, root, son[..], w0, w1, curMatch)
    modifies son
    ensures TreeOk(w, son[..], b, w.at + 1, 2 * w.size, 2 * w.size) && NothingLost(w, son0, root, son[..])
    ensures son[..] == old(son[..])[ptr1 := old(son[pair])][ptr0 := old(son[pair + 1])]
  {
    hide Rank, Slot, Pow256, TreeOk, Descending, Held, NothingLost, Agree;
    RankAgree(w.text, w.at, w.at - delta, w.limit);
    ReplacedHeld(w, son0, root, son[..], b, w0, w1, last, curMatch);
    TakePlace(w, son[..], b, w0, w1, last, curMatch);
    son[ptr1] := son[pair];
    son[ptr0] := son[pair + 1];
  }

  /** The end of a search that found nothing to compare with. */
  method Cut(son: array<nat>, ptr0: nat, ptr1: nat, ghost w: View, ghost b: Bounds, ghost w0: nat, ghost w1: nat, ghost last: nat, ghost curMatch: nat,
             ghost son0: seq<nat>, ghost root: nat)
    requires ValidView(w) && Descending(w, son[..], b, w0, w1, last, curMatch) && son.Length == 2 * w.size
    requires ptr0 == Ptr0(w, w0) && ptr1 == Ptr1(w, w1) && |son0| == 2 * w.size && Held(w, son0, root, son[..], w0, w1, curMatch)
    modifies son
    ensures TreeOk(w, son[..], b, w.at + 1, 2 * w.size, 2 * w.size) && (Dead(w, curMatch) ==> NothingLost(w, son0, root, son[..]))
    ensures son[..] == old(son[..])[ptr0 := 0][ptr1 := 0]
  {
    hide Rank, Slot, Pow256, TreeOk, Descending, Held, NothingLost;
    if Dead(w, curMatch) {
      EmptyHeld(w, son0, root, son[..], b, w0, w1, last, curMatch);
    }
    FillEmpty(w, son[..], b, w0, w1, last, curMatch);
    son[ptr0] := 0;
    son[ptr1] := 0;
  }

  /** No string in the tree of v has more bytes in common with the new one than the longest match
      reported, or than the caller asked to beat. */
  ghost predicate Unbeaten(w: View, son: seq<nat>, v: nat, maxLen: nat)
    requires w.size > 0 && |son| == 2 * w.size
  {
    forall q: nat | InTree(w, son, v, q) :: Within(w, q, maxLen)
  }

  lemma CoveredDead(w: View, son0: seq<nat>, v0: nat, son: seq<nat>, v: nat, len: nat)
    requires w.size > 0 && |son0| == |son| == 2 * w.size && Covered(w, son0, v0, son, v, len) && Dead(w, v)
    ensures Unbeaten(w, son0, v0, len)
  {
  }

  lemma UnbeatenAtLimit(w: View, son: seq<nat>, v: nat)
    requires w.size > 0 && |son| == 2 * w.size
    ensures Unbeaten(w, son, v, w.limit)
  {
  }

  lemma CoveredStart(w: View, son: seq<nat>, v: nat, len: nat)
    requires w.size > 0 && |son| == 2 * w.size
    ensures Covered(w, son, v, son, v, len)
  {
  }

  /** The search reports genuine matches, ever longer ones; unless it is cut short after cutValue
      nodes, nothing in the tree beats the last of them. */
  method GetMatchesSpec1(lenLimit: nat, curMatch0: nat, pos: nat, win: array<octet>, cur: nat, son: array<nat>,
                         cyclicBufferPos: nat, cyclicBufferSize: nat, cutValue0: nat, maxLen0: nat, ghost w: View, ghost b0: Bounds)
    returns (distances: seq<Found>, ghost b: Bounds)
    requires ValidView(w) && w.pos == pos && w.limit == lenLimit && w.size == cyclicBufferSize && maxLen0 < lenLimit
    requires cyclicBufferPos == Slot(w.at, w.size) && son.Length == 2 * w.size && Shows(win[..], cur, w) && win as object != son
    requires TreeOk(w, son[..], b0, w.at, 2 * w.size, 2 * w.size)
    requires curMatch0 < pos && (Dead(w, curMatch0) || 0 <= Idx(w, curMatch0))
    modifies son
    ensures TreeOk(w, son[..], b, w.at + 1, 2 * w.size, 2 * w.size)
    ensures distances == Pairs(w, old(son[..]), curMatch0, cutValue0, maxLen0) && Reported(w, maxLen0, distances)
    ensures son[..] == Inserted(w, old(son[..]), curMatch0, cutValue0)
    ensures cutValue0 >= cyclicBufferSize ==> Unbeaten(w, old(son[..]), curMatch0, Longest(maxLen0, distances))
    ensures cutValue0 >= cyclicBufferSize ==> NothingLost(w, old(son[..]), curMatch0, son[..])
  {
    hide Rank, Slot, Pow256, TreeOk, Shows, Descending, Reported, Agree, Covered, Unbeaten, Held, NothingLost, Pairs, Split, Inserted, Told, Leads, Passed, Lengths, Ptr0, Ptr1;
    var ptr0, ptr1 := 2 * cyclicBufferPos + 1, 2 * cyclicBufferPos;
    var len0, len1 := 0, 0;
    var curMatch, cutValue: nat, maxLen := curMatch0, cutValue0, maxLen0;
    ghost var w0: nat, w1: nat, last: nat, next: nat, son0 := w.at, w.at, w.at, 0, son[..];
    distances := [];
    b := StartDown(w, son[..], b0, curMatch);
    NothingReported(w, maxLen);
    CoveredStart(w, son[..], curMatch, maxLen);
    HeldStart(w, son0, curMatch);
    LengthsStart(w);
    WalkStart(w, son0, curMatch, cutValue, maxLen);
    while true
      invariant Descending(w, son[..], b, w0, w1, last, curMatch)
      invariant ptr0 == Ptr0(w, w0) && ptr1 == Ptr1(w, w1) && Lengths(w, w0, w1, len0, len1)
      invariant maxLen == Longest(maxLen0, distances) < lenLimit && Reported(w, maxLen0, distances)
      invariant Held(w, son0, curMatch0, son[..], w0, w1, curMatch)
      invariant Covered(w, son0, curMatch0, son[..], curMatch, maxLen) && len0 <= maxLen && len1 <= maxLen
      invariant Told(w, son0, curMatch0, cutValue0, maxLen0, distances, son[..], curMatch, cutValue, maxLen)
      invariant Leads(w, son0, curMatch0, cutValue0, son[..], curMatch, ptr0, ptr1, cutValue)
      invariant cutValue + w.at - last >= cutValue0 && w.at < last + w.size
      decreases cutValue
    {
      NextNode(w, son[..], b, w0, w1, last, curMatch);
      var delta := pos - curMatch;
      if cutValue == 0 || delta >= cyclicBufferSize {
        if delta >= cyclicBufferSize {
          CoveredDead(w, son0, curMatch0, son[..], curMatch, maxLen);
        }
        NothingLeft(w, son0, curMatch0, cutValue0, maxLen0, distances, son[..], curMatch, ptr0, ptr1, cutValue, maxLen);
        Cut(son, ptr0, ptr1, w, b, w0, w1, last, curMatch, son0, curMatch0);
        return;
      }
      ghost var before, v, told, p0, p1, maxLen1 := son[..], curMatch, distances, ptr0, ptr1, maxLen;
      cutValue := cutValue - 1;
      SlotBack(w.at, delta, w.size);
      var pair := 2 * (cyclicBufferPos - delta + (if delta > cyclicBufferPos then cyclicBufferSize else 0));
      KnownPrefix(w, son[..], b, w0, w1, last, curMatch, len0, len1);
      var len, more := Measure(win, cur, delta, len0, len1, lenLimit, w);
      if more && maxLen < len {
        ReportedMore(w, maxLen0, distances, Found(len, delta - 1));
        maxLen := len;
        distances := distances + [Found(len, delta - 1)];
        if len == lenLimit {
          WholeFound(w, son0, curMatch0, cutValue0, maxLen0, told, before, v, p0, p1, cutValue + 1, maxLen1);
          UnbeatenAtLimit(w, son0, curMatch0);
          Replace(son, pair, ptr0, ptr1, w, b, w0, w1, last, curMatch, delta, son0, curMatch0);
          return;
        }
      }
      curMatch, ptr0, ptr1, len0, len1, b, w0, w1, next :=
        Relink(win, cur, delta, len, son, pair, curMatch, ptr0, ptr1, len0, len1, w, b, w0, w1, last, son0, curMatch0, cutValue + 1, maxLen1);
      last := w.at - delta;
      CoveredStep(w, son0, curMatch0, before, v, maxLen1, son[..], curMatch, len, maxLen);
      WalkOn(w, son0, curMatch0, cutValue0, maxLen0, told, before, v, p0, p1, cutValue + 1, maxLen1, len, son[..], next, ptr0, ptr1);
    }
  }

  lemma NothingReported(w: View, maxLen: nat)
    ensures Reported(w, maxLen, []) && Longest(maxLen, []) == maxLen
  {
  }

  /** The same way down without reporting. */
  method SkipMatchesSpec(lenLimit: nat, curMatch0: nat, pos: nat, win: array<octet>, cur: nat, son: array<nat>,
                         cyclicBufferPos: nat, cyclicBufferSize: nat, cutValue0: nat, ghost w: View, ghost b0: Bounds)
    returns (ghost b: Bounds)
    requires ValidView(w) && w.pos == pos && w.limit == lenLimit && w.size == cyclicBufferSize && lenLimit > 0
    requires cyclicBufferPos == Slot(w.at, w.size) && son.Length == 2 * w.size && Shows(win[..], cur, w) && win as object != son
    requires TreeOk(w, son[..], b0, w.at, 2 * w.size, 2 * w.size)
    requires curMatch0 < pos && (Dead(w, curMatch0) || 0 <= Idx(w, curMatch0))
    modifies son
    ensures TreeOk(w, son[..], b, w.at + 1, 2 * w.size, 2 * w.size)
    ensures son[..] == Inserted(w, old(son[..]), curMatch0, cutValue0)
    ensures cutValue0 >= cyclicBufferSize ==> NothingLost(w, old(son[..]), curMatch0, son[..])
  {
    hide Rank, Slot, Pow256, TreeOk, Shows, Descending, Agree, Held, NothingLost, Pairs, Split, Inserted, Told, Leads, Passed, Lengths, Ptr0, Ptr1;
    var ptr0, ptr1 := 2 * cyclicBufferPos + 1, 2 * cyclicBufferPos;
    var len0, len1 := 0, 0;
    var curMatch, cutValue: nat := curMatch0, cutValue0;
    ghost var w0: nat, w1: nat, last: nat, next: nat, son0 := w.at, w.at, w.at, 0, son[..];
    b := StartDown(w, son[..], b0, curMatch);
    HeldStart(w, son0, curMatch);
    LengthsStart(w);
    WalkStart(w, son0, curMatch, cutValue, 0);
    while true
      invariant Descending(w, son[..], b, w0, w1, last, curMatch)
      invariant ptr0 == Ptr0(w, w0) && ptr1 == Ptr1(w, w1) && Lengths(w, w0, w1, len0, len1)
      invariant Held(w, son0, curMatch0, son[..], w0, w1, curMatch)
      invariant Leads(w, son0, curMatch0, cutValue0, son[..], curMatch, ptr0, ptr1, cutValue)
      invariant cutValue + w.at - last >= cutValue0 && w.at < last + w.size
      decreases cutValue
    {
      NextNode(w, son[..], b, w0, w1, last, curMatch);
      var delta := pos - curMatch;
      if cutValue == 0 || delta >= cyclicBufferSize {
        NothingLeft(w, son0, curMatch0, cutValue0, 0, [], son[..], curMatch, ptr0, ptr1, cutValue, 0);
        Cut(son, ptr0, ptr1, w, b, w0, w1, last, curMatch, son0, curMatch0);
        return;
      }
      ghost var before, v, p0, p1 := son[..], curMatch, ptr0, ptr1;
      cutValue := cutValue - 1;
      SlotBack(w.at, delta, w.size);
      var pair := 2 * (cyclicBufferPos - delta + (if delta > cyclicBufferPos then cyclicBufferSize else 0));
      KnownPrefix(w, son[..], b, w0, w1, last, curMatch, len0, len1);
      var len, more := Measure(win, cur, delta, len0, len1, lenLimit, w);
      if more && len == lenLimit {
        WholeFound(w, son0, curMatch0, cutValue0, 0, [], before, v, p0, p1, cutValue + 1, 0);
        Replace(son, pair, ptr0, ptr1, w, b, w0, w1, last, curMatch, delta, son0, curMatch0);
        return;
      }
      curMatch, ptr0, ptr1, len0, len1, b, w0, w1, next :=
        Relink(win, cur, delta, len, son, pair, curMatch, ptr0, ptr1, len0, len1, w, b, w0, w1, last, son0, curMatch0, cutValue + 1, 0);
      last := w.at - delta;
      WalkOn(w, son0, curMatch0, cutValue0, 0, [], before, v, p0, p1, cutValue + 1, 0, len, son[..], next, ptr0, ptr1);
    }
  }

  // ---------- Hash chains ----------

  /** A link of a chain leads to an older position, or nowhere. */
  ghost predicate LinkOk(w: View, v: nat, p: nat) {
    v < w.pos && (Dead(w, v) || 0 <= Idx(w, v) < p)
  }

  ghost predicate ChainsOk(w: View, son: seq<nat>, top: nat) {
    w.size > 0 && |son| == w.size && forall p: nat | p < top && Recent(w, p) :: LinkOk(w, son[Slot(p, w.size)], p)
  }

  lemma NewLink(w: View, son: seq<nat>, v: nat)
    requires ChainsOk(w, son, w.at) && LinkOk(w, v, w.at)
    ensures ChainsOk(w, son[Slot(w.at, w.size) := v], w.at + 1)
  {
    hide Slot;
    var son' := son[Slot(w.at, w.size) := v];
    forall p: nat | p < w.at + 1 && Recent(w, p) ensures LinkOk(w, son'[Slot(p, w.size)], p) {
      Apart(w, p, w.at);
    }
  }

  /** Position q is among the first cut positions of the chain that begins with v. */
  ghost predicate InChain(w: View, son: seq<nat>, v: nat, cut: nat, q: nat)
    requires w.size > 0 && |son| == w.size
    decreases cut
  {
    cut > 0 && !Dead(w, v) && 0 <= Idx(w, v) && (q == Idx(w, v) || InChain(w, son, son[Slot(Idx(w, v), w.size)], cut - 1, q))
  }

  /** What was in the chain is still to come, or has no more than maxLen bytes in common. */
  ghost predicate ChainLeft(w: View, son: seq<nat>, v0: nat, cut0: nat, v: nat, cut: nat, maxLen: nat)
    requires w.size > 0 && |son| == w.size
  {
    forall q: nat | InChain(w, son, v0, cut0, q) :: Within(w, q, maxLen) || InChain(w, son, v, cut, q)
  }

  lemma ChainStart(w: View, son: seq<nat>, v: nat, cut: nat, maxLen: nat)
    requires w.size > 0 && |son| == w.size
    ensures ChainLeft(w, son, v, cut, v, cut, maxLen)
  {
  }

  lemma ChainOn(w: View, son: seq<nat>, v0: nat, cut0: nat, v: nat, cut: nat, maxLen: nat, more: nat)
    requires w.size > 0 && |son| == w.size && cut > 0 && !Dead(w, v) && 0 <= Idx(w, v)
    requires ChainLeft(w, son, v0, cut0, v, cut, maxLen) && Within(w, Idx(w, v), more) && maxLen <= more
    ensures ChainLeft(w, son, v0, cut0, son[Slot(Idx(w, v), w.size)], cut - 1, more)
  {
    hide Slot, Within;
    var u := son[Slot(Idx(w, v), w.size)];
    forall q: nat | InChain(w, son, v0, cut0, q)
      ensures Within(w, q, more) || InChain(w, son, u, cut - 1, q)
    {
      if Within(w, q, maxLen) {
        WithinMore(w, q, maxLen, more);
      }
    }
  }

  lemma ChainDone(w: View, son: seq<nat>, v0: nat, cut0: nat, v: nat, cut: nat, maxLen: nat)
    requires w.size > 0 && |son| == w.size && ChainLeft(w, son, v0, cut0, v, cut, maxLen) && (cut == 0 || Dead(w, v) || maxLen >= w.limit)
    ensures forall q: nat | InChain(w, son, v0, cut0, q) :: Within(w, q, maxLen)
  {
  }

  /** A position whose first byte, or the one that would make it longer, is different has no more in common. */
  lemma NoLonger(w: View, q: nat, maxLen: nat)
    requires maxLen < w.limit && (At(w.text, w.at, 0) != At(w.text, q, 0) || At(w.text, w.at, maxLen) != At(w.text, q, maxLen))
    ensures Within(w, q, maxLen)
  {
  }

  method Hc_GetMatchesSpec(lenLimit: nat, curMatch0: nat, pos: nat, win: array<octet>, cur: nat, son: array<nat>,
                           cyclicBufferPos: nat, cyclicBufferSize: nat, cutValue0: nat, maxLen0: nat, ghost w: View)
    returns (distances: seq<Found>)
    requires ValidView(w) && w.pos == pos && w.limit == lenLimit && w.size == cyclicBufferSize && maxLen0 < lenLimit
    requires cyclicBufferPos == Slot(w.at, w.size) && Shows(win[..], cur, w) && win as object != son
    requires ChainsOk(w, son[..], w.at) && LinkOk(w, curMatch0, w.at)
    modifies son
    ensures ChainsOk(w, son[..], w.at + 1) && son[..] == old(son[..])[cyclicBufferPos := curMatch0]
    ensures Reported(w, maxLen0, distances)
    ensures forall q: nat | InChain(w, son[..], curMatch0, cutValue0, q) :: Within(w, q, Longest(maxLen0, distances))
  {
    hide Slot, Shows, Reported, Agree, ChainLeft, Within, InChain;
    var curMatch, cutValue, maxLen := curMatch0, cutValue0, maxLen0;
    distances := [];
    NewLink(w, son[..], curMatch);
    son[cyclicBufferPos] := curMatch;
    NothingReported(w, maxLen);
    ghost var links := son[..];
    ChainStart(w, links, curMatch, cutValue, maxLen);
    while true
      invariant son[..] == links && ChainsOk(w, links, w.at + 1) && LinkOk(w, curMatch, w.at)
      invariant maxLen == Longest(maxLen0, distances) < lenLimit && Reported(w, maxLen0, distances)
      invariant ChainLeft(w, links, curMatch0, cutValue0, curMatch, cutValue, maxLen)
      decreases cutValue
    {
      var delta := pos - curMatch;
      if cutValue == 0 || delta >= cyclicBufferSize {
        ChainDone(w, links, curMatch0, cutValue0, curMatch, cutValue, maxLen);
        return;
      }
      ghost var v, maxLen1 := curMatch, maxLen;
      cutValue := cutValue - 1;
      SlotBack(w.at, delta, w.size);
      curMatch := son[cyclicBufferPos - delta + (if delta > cyclicBufferPos then cyclicBufferSize else 0)];
      LinkAt(w, links, w.at - delta);
      Seen(win[..], cur, w, w.at, 0);
      Seen(win[..], cur, w, w.at, maxLen);
      Seen(win[..], cur, w, w.at - delta, 0);
      Seen(win[..], cur, w, w.at - delta, maxLen);
      if win[cur - delta + maxLen] == win[cur + maxLen] && win[cur - delta] == win[cur] {
        OneByte(w, delta);
        var len := CommonLength(win, cur, delta, 1, lenLimit, w);
        WithinCommon(w, w.at - delta, len, maxLen);
        if maxLen < len {
          ReportedMore(w, maxLen0, distances, Found(len, delta - 1));
          maxLen := len;
          distances := distances + [Found(len, delta - 1)];
          if len == lenLimit {
            ChainOn(w, links, curMatch0, cutValue0, v, cutValue + 1, maxLen1, maxLen);
            ChainDone(w, links, curMatch0, cutValue0, curMatch, cutValue, maxLen);
            return;
          }
        }
      } else {
        NoLonger(w, w.at - delta, maxLen);
      }
      ChainOn(w, links, curMatch0, cutValue0, v, cutValue + 1, maxLen1, maxLen);
    }
  }

  lemma LinkAt(w: View, son: seq<nat>, p: nat)
    requires ChainsOk(w, son, w.at + 1) && p <= w.at && Recent(w, p)
    ensures LinkOk(w, son[Slot(p, w.size)], p)
  {
  }

  lemma WithinCommon(w: View, q: nat, len: nat, maxLen: nat)
    requires len == w.limit || At(w.text, w.at, len) != At(w.text, q, len)
    ensures Within(w, q, if maxLen < len then len else maxLen)
  {
  }

  lemma OneByte(w: View, delta: nat)
    requires delta <= w.at && At(w.text, w.at, 0) == At(w.text, w.at - delta, 0)
    ensures Agree(w.text, w.at, w.at - delta, 1)
  {
  }
}
