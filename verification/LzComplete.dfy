/** The match finder overlooks nothing: the head of a hash value is the nearest position that has it, every other one in
    the window is in its tree or has been replaced by a newer one that looks the same, and so the longest match is found. */
module LzComplete {
  import opened Bytes
  import opened LzRank
  import opened LzTree
  import opened LzKept
  import opened LzWalk
  import opened LzSearch
  import opened LzHash
  import opened LzReports
  import opened LzInsert

  /** Where the main heads begin. */
  function MainHeads(f: Setup): nat {
    if f.numHashBytes == 2 then 0 else if f.numHashBytes == 3 then FIX3_HASH_SIZE else FIX4_HASH_SIZE
  }

  function Kind(f: Setup, text: seq<octet>): nat -> nat {
    (p: nat) => MainAt(f, text, p)
  }

  lemma MainIsMain(f: Setup, text: seq<octet>, i: nat)
    requires 2 <= f.numHashBytes <= 4
    ensures MainHeads(f) <= MainAt(f, text, i) < HeadCount(f)
  {
    MainInHeads(f, text, i);
    hide Hash3, Hash4, HeadCount;
  }

  function Kind2(f: Setup, text: seq<octet>): nat -> nat {
    (p: nat) => Hash2At(f.crc, text, p)
  }

  function Kind3(f: Setup, text: seq<octet>): nat -> nat {
    (p: nat) => FIX3_HASH_SIZE + Hash3At(f.crc, text, p)
  }

  /** The heads from lo to hi: each is empty or leads to a position of its kind, and no position in the window that is of
      this kind is newer. */
  ghost predicate HeadsOf(w: View, heads: seq<nat>, kind: nat -> nat, lo: nat, hi: nat) {
    hi <= |heads| && (forall h | lo <= h < hi :: HeadOfKind(w, kind, h, heads[h])) &&
    forall q: nat | q < w.at && Recent(w, q) :: BehindHead(w, heads, kind, lo, hi, q)
  }

  ghost predicate HeadOfKind(w: View, kind: nat -> nat, h: nat, v: nat) {
    v < w.pos && (Dead(w, v) || 0 <= Idx(w, v)) && OfKind(w, kind, v, h)
  }

  ghost predicate BehindHead(w: View, heads: seq<nat>, kind: nat -> nat, lo: nat, hi: nat, q: nat)
    requires hi <= |heads|
  {
    lo <= kind(q) < hi && !Dead(w, heads[kind(q)]) && q <= Idx(w, heads[kind(q)])
  }

  /** Position q, or a newer one with the same bytes up to the limit, is in the tree of q's hash value. */
  ghost predicate Kept(f: Setup, w: View, refs: Refs, q: nat) {
    Sized(f, w, refs) && MainAt(f, w.text, q) < |refs.heads| && exists r: nat :: KeptBy(f, w, refs, q, r)
  }

  ghost predicate KeptBy(f: Setup, w: View, refs: Refs, q: nat, r: nat)
    requires Sized(f, w, refs) && MainAt(f, w.text, q) < |refs.heads|
  {
    q <= r && InTree(w, refs.son, refs.heads[MainAt(f, w.text, q)], r) && Agree(w.text, q, r, w.limit)
  }

  ghost predicate AllHeads(f: Setup, w: View, heads: seq<nat>) {
    HeadsOf(w, heads, Kind(f, w.text), MainHeads(f), HeadCount(f)) &&
    (f.numHashBytes >= 3 ==> HeadsOf(w, heads, Kind2(f, w.text), 0, FIX3_HASH_SIZE)) &&
    (f.numHashBytes >= 4 ==> HeadsOf(w, heads, Kind3(f, w.text), FIX3_HASH_SIZE, FIX4_HASH_SIZE))
  }

  /** Heads and trees are in order, and every position in the window is found in them. */
  ghost predicate Complete(f: Setup, w: View, refs: Refs, b: Bounds) {
    Sized(f, w, refs) && 1 < w.size <= w.pos &&
    TreeOk(w, refs.son, b, w.at, 2 * w.size, 2 * w.size) &&
    AllAlike(w, refs.son, Kind(f, w.text), w.at, 2 * w.size, 2 * w.size) &&
    AllHeads(f, w, refs.heads) &&
    (f.cutValue >= w.size ==> forall q: nat | q < w.at && Recent(w, q) :: Kept(f, w, refs, q))
  }

  // ---------- The beginning ----------

  lemma CompleteStart(f: Setup, w: View, refs: Refs)
    requires Sized(f, w, refs) && w.at == 0 && 1 < w.size <= w.pos && forall h | 0 <= h < |refs.heads| :: refs.heads[h] == 0
    ensures Complete(f, w, refs, Bounds([], []))
  {
    hide MainAt, HeadCount, Hash2At, Hash3At;
    HeadRoom(f);
  }

  // ---------- One position ----------

  /** What this position leaves in the heads. */
  lemma HeadedAt(f: Setup, w: View, heads: seq<nat>, h: nat)
    requires 2 <= f.numHashBytes <= 4 && |heads| >= HeadCount(f) && h < HeadCount(f)
    ensures h >= MainHeads(f) ==> Headed(f, w, heads)[h] == if h == MainAt(f, w.text, w.at) then w.pos else heads[h]
    ensures f.numHashBytes >= 3 && h < FIX3_HASH_SIZE ==> Headed(f, w, heads)[h] == if h == Hash2At(f.crc, w.text, w.at) then w.pos else heads[h]
    ensures f.numHashBytes >= 4 && FIX3_HASH_SIZE <= h < FIX4_HASH_SIZE ==>
              Headed(f, w, heads)[h] == if h == FIX3_HASH_SIZE + Hash3At(f.crc, w.text, w.at) then w.pos else heads[h]
  {
    hide MainAt, HeadCount, Hash2At, Hash3At;
    MainIsMain(f, w.text, w.at);
    HeadRoom(f);
  }

  lemma HeadsNext(w: View, heads: seq<nat>, heads': seq<nat>, kind: nat -> nat, lo: nat, hi: nat)
    requires 1 < w.size <= w.pos && HeadsOf(w, heads, kind, lo, hi) && |heads'| == |heads| && lo <= kind(w.at) < hi
    requires forall h | lo <= h < hi :: heads'[h] == if h == kind(w.at) then w.pos else heads[h]
    ensures HeadsOf(w.(at := w.at + 1, pos := w.pos + 1), heads', kind, lo, hi)
  {
    var w' := w.(at := w.at + 1, pos := w.pos + 1);
    forall h | lo <= h < hi
      ensures HeadOfKind(w', kind, h, heads'[h])
    {
      assert HeadOfKind(w, kind, h, heads[h]);
    }
    forall q: nat | q < w'.at && Recent(w', q)
      ensures BehindHead(w', heads', kind, lo, hi, q)
    {
      if q < w.at {
        assert BehindHead(w, heads, kind, lo, hi, q);
      }
    }
  }

  lemma AllHeadsNext(f: Setup, w: View, heads: seq<nat>)
    requires 2 <= f.numHashBytes <= 4 && 1 < w.size <= w.pos && AllHeads(f, w, heads) && |heads| >= HeadCount(f)
    ensures AllHeads(f, w.(at := w.at + 1, pos := w.pos + 1), Headed(f, w, heads))
  {
    hide HeadsOf, Headed, MainAt, HeadCount, Hash2At, Hash3At;
    MainIsMain(f, w.text, w.at);
    HeadRoom(f);
    var heads' := Headed(f, w, heads);
    forall h | 0 <= h < HeadCount(f)
      ensures h >= MainHeads(f) ==> heads'[h] == if h == MainAt(f, w.text, w.at) then w.pos else heads[h]
      ensures f.numHashBytes >= 3 && h < FIX3_HASH_SIZE ==> heads'[h] == if h == Hash2At(f.crc, w.text, w.at) then w.pos else heads[h]
      ensures f.numHashBytes >= 4 && FIX3_HASH_SIZE <= h < FIX4_HASH_SIZE ==>
                heads'[h] == if h == FIX3_HASH_SIZE + Hash3At(f.crc, w.text, w.at) then w.pos else heads[h]
    {
      HeadedAt(f, w, heads, h);
    }
    HeadsNext(w, heads, heads', Kind(f, w.text), MainHeads(f), HeadCount(f));
    if f.numHashBytes >= 3 {
      HeadsNext(w, heads, heads', Kind2(f, w.text), 0, FIX3_HASH_SIZE);
    }
    if f.numHashBytes >= 4 {
      HeadsNext(w, heads, heads', Kind3(f, w.text), FIX3_HASH_SIZE, FIX4_HASH_SIZE);
    }
  }

  /** The main head of a hash value. */
  lemma MainHead(f: Setup, w: View, heads: seq<nat>, i: nat)
    requires 2 <= f.numHashBytes <= 4 && AllHeads(f, w, heads)
    ensures MainHeads(f) <= MainAt(f, w.text, i) < HeadCount(f) <= |heads|
    ensures HeadOfKind(w, Kind(f, w.text), MainAt(f, w.text, i), heads[MainAt(f, w.text, i)])
  {
    hide MainAt, HeadCount, HeadOfKind, BehindHead;
    MainIsMain(f, w.text, i);
  }

  lemma NextAlike(w: View, son: seq<nat>, kind: nat -> nat)
    requires w.size > 0 && |son| == 2 * w.size && AllAlike(w, son, kind, w.at + 1, 2 * w.size, 2 * w.size)
    ensures AllAlike(w.(at := w.at + 1, pos := w.pos + 1), son, kind, w.at + 1, 2 * w.size, 2 * w.size)
  {
    hide Slot;
    var w' := w.(at := w.at + 1, pos := w.pos + 1);
    forall p: nat | p < w.at + 1 && Recent(w', p)
      ensures SonsAlike(w', son, kind, p, 2 * w.size, 2 * w.size)
    {
      assert SonsAlike(w, son, kind, p, 2 * w.size, 2 * w.size);
    }
  }

  lemma AgreeThrough(text: seq<octet>, i: nat, j: nat, k: nat, len: nat)
    requires Agree(text, i, j, len) && Agree(text, j, k, len)
    ensures Agree(text, i, k, len) && Agree(text, k, i, len)
  {
  }

  /** Whoever stood for q before still does, or the new position takes over. */
  lemma NextKept(f: Setup, w: View, refs: Refs, b: Bounds, q: nat, son': seq<nat>)
    requires Complete(f, w, refs, b) && f.cutValue >= w.size && w.limit >= f.numHashBytes && q <= w.at && w.at + 1 < q + w.size
    requires MainAt(f, w.text, w.at) < |refs.heads| && son' == Inserted(w, refs.son, refs.heads[MainAt(f, w.text, w.at)], f.cutValue)
    requires OthersKept(w, refs.son, son', Kind(f, w.text), MainAt(f, w.text, w.at)) && NothingLost(w, refs.son, refs.heads[MainAt(f, w.text, w.at)], son')
    ensures Kept(f, w.(at := w.at + 1, pos := w.pos + 1), Stored(f, w, refs), q)
  {
    hide MainAt, HeadCount, TreeOk, Headed, InTree, Agree, Inserted, AllAlike, OthersKept, OfKind, NothingLost, AllHeads;
    var w', refs' := w.(at := w.at + 1, pos := w.pos + 1), Stored(f, w, refs);
    var h, h' := MainAt(f, w.text, q), MainAt(f, w.text, w.at);
    MainHead(f, w, refs.heads, q);
    MainInHeads(f, w.text, w.at);
    HeadedAt(f, w, refs.heads, h);
    var r: nat;
    if q == w.at {
      r := q;
      NodeItself(w, son', w.pos);
      SelfAgrees(w, q);
    } else {
      assert Kept(f, w, refs, q);
      var r0: nat :| KeptBy(f, w, refs, q, r0);
      if h == h' {
        r := Survivor(w, refs.son, refs.heads[h], son', q, r0);
      } else {
        r := r0;
        Alive(w, refs.son, refs.heads[h], r);
        IsItsKind(w, Kind(f, w.text), refs.heads[h], h);
        OtherTree(w, refs.son, son', Kind(f, w.text), h', refs.heads[h], r);
      }
    }
    StillInTree(w, son', if h == h' then w.pos else refs.heads[h], r);
    assert KeptBy(f, w', refs', q, r);
  }

  lemma SelfAgrees(w: View, q: nat)
    ensures Agree(w.text, q, q, w.limit)
  {
  }

  lemma Survivor(w: View, son: seq<nat>, v: nat, son': seq<nat>, q: nat, r0: nat) returns (r: nat)
    requires w.size > 0 && |son| == |son'| == 2 * w.size && NothingLost(w, son, v, son') && InTree(w, son, v, r0)
    requires q <= r0 && q <= w.at && Agree(w.text, q, r0, w.limit)
    ensures q <= r && InTree(w, son', w.pos, r) && Agree(w.text, q, r, w.limit)
  {
    hide InTree, Agree;
    if InTree(w, son', w.pos, r0) {
      r := r0;
    } else {
      r := w.at;
      NodeItself(w, son', w.pos);
      AgreeThrough(w.text, w.at, r0, q, w.limit) by {
        AgreeBack(w.text, q, r0, w.limit);
      }
    }
  }

  lemma AgreeBack(text: seq<octet>, i: nat, j: nat, len: nat)
    requires Agree(text, i, j, len)
    ensures Agree(text, j, i, len)
  {
  }

  /** Searching or skipping a position keeps the finder complete. */
  lemma CompleteNext(f: Setup, w: View, refs: Refs, b: Bounds) returns (b': Bounds)
    requires Complete(f, w, refs, b) && ValidView(w) && w.limit >= f.numHashBytes
    ensures Complete(f, w.(at := w.at + 1, pos := w.pos + 1), Stored(f, w, refs), b')
  {
    hide MainAt, HeadCount, TreeOk, Headed, Inserted, AllAlike, OthersKept, OfKind, NothingLost, AllHeads, Kept;
    MainHead(f, w, refs.heads, w.at);
    var v := refs.heads[MainAt(f, w.text, w.at)];
    b' := InsertKeeps(w, refs.son, b, Kind(f, w.text), v, f.cutValue);
    var son' := Inserted(w, refs.son, v, f.cutValue);
    NextPosition(w, son', b');
    NextAlike(w, son', Kind(f, w.text));
    AllHeadsNext(f, w, refs.heads);
    var w', refs' := w.(at := w.at + 1, pos := w.pos + 1), Stored(f, w, refs);
    if f.cutValue >= w.size {
      forall q: nat | q < w'.at && Recent(w', q)
        ensures Kept(f, w', refs', q)
      {
        NextKept(f, w, refs, b, q, son');
      }
    }
  }

  // ---------- More text, and a lower limit near its end ----------

  lemma SameKind(f: Setup, w: View, more: seq<octet>, p: nat)
    requires 2 <= f.numHashBytes <= 4 && p < w.at && f.numHashBytes <= w.limit && w.at + w.limit <= |w.text| + 1
    ensures MainAt(f, w.text + more, p) == MainAt(f, w.text, p)
  {
    HashesInLonger(f, w.(at := p), more);
  }

  lemma HeadsInLonger(w: View, heads: seq<nat>, kind: nat -> nat, kind': nat -> nat, lo: nat, hi: nat, more: seq<octet>)
    requires HeadsOf(w, heads, kind, lo, hi) && forall p: nat | p < w.at :: kind'(p) == kind(p)
    ensures HeadsOf(w.(text := w.text + more), heads, kind', lo, hi)
  {
    var w' := w.(text := w.text + more);
    forall h | lo <= h < hi
      ensures HeadOfKind(w', kind', h, heads[h])
    {
      assert HeadOfKind(w, kind, h, heads[h]);
    }
    forall q: nat | q < w'.at && Recent(w', q)
      ensures BehindHead(w', heads, kind', lo, hi, q)
    {
      assert BehindHead(w, heads, kind, lo, hi, q);
    }
  }

  lemma SameKinds(f: Setup, w: View, more: seq<octet>)
    requires 2 <= f.numHashBytes <= 4 && f.numHashBytes <= w.limit && w.at + w.limit <= |w.text| + 1
    ensures forall p: nat | p < w.at :: Kind(f, w.text + more)(p) == Kind(f, w.text)(p)
    ensures f.numHashBytes >= 3 ==> forall p: nat | p < w.at :: Kind2(f, w.text + more)(p) == Kind2(f, w.text)(p)
    ensures f.numHashBytes >= 4 ==> forall p: nat | p < w.at :: Kind3(f, w.text + more)(p) == Kind3(f, w.text)(p)
  {
    hide MainAt, Hash2At, Hash3At;
    forall p: nat | p < w.at
      ensures MainAt(f, w.text + more, p) == MainAt(f, w.text, p)
      ensures f.numHashBytes >= 3 ==> Hash2At(f.crc, w.text + more, p) == Hash2At(f.crc, w.text, p)
      ensures f.numHashBytes >= 4 ==> Hash3At(f.crc, w.text + more, p) == Hash3At(f.crc, w.text, p)
    {
      HashesInLonger(f, w.(at := p), more);
    }
  }

  lemma AllHeadsInLonger(f: Setup, w: View, heads: seq<nat>, more: seq<octet>)
    requires AllHeads(f, w, heads) && 2 <= f.numHashBytes <= 4 && f.numHashBytes <= w.limit && w.at + w.limit <= |w.text| + 1
    ensures AllHeads(f, w.(text := w.text + more), heads)
  {
    hide HeadsOf, MainAt, HeadCount, Hash2At, Hash3At, Kind, Kind2, Kind3;
    SameKinds(f, w, more);
    HeadsInLonger(w, heads, Kind(f, w.text), Kind(f, w.text + more), MainHeads(f), HeadCount(f), more);
    if f.numHashBytes >= 3 {
      HeadsInLonger(w, heads, Kind2(f, w.text), Kind2(f, w.text + more), 0, FIX3_HASH_SIZE, more);
    }
    if f.numHashBytes >= 4 {
      HeadsInLonger(w, heads, Kind3(f, w.text), Kind3(f, w.text + more), FIX3_HASH_SIZE, FIX4_HASH_SIZE, more);
    }
  }

  lemma HeadsShorter(w: View, heads: seq<nat>, kind: nat -> nat, lo: nat, hi: nat, limit: nat)
    requires HeadsOf(w, heads, kind, lo, hi)
    ensures HeadsOf(w.(limit := limit), heads, kind, lo, hi)
  {
    var w' := w.(limit := limit);
    forall h | lo <= h < hi
      ensures HeadOfKind(w', kind, h, heads[h])
    {
      assert HeadOfKind(w, kind, h, heads[h]);
    }
    forall q: nat | q < w'.at && Recent(w', q)
      ensures BehindHead(w', heads, kind, lo, hi, q)
    {
      assert BehindHead(w, heads, kind, lo, hi, q);
    }
  }

  lemma AllHeadsShorter(f: Setup, w: View, heads: seq<nat>, limit: nat)
    requires AllHeads(f, w, heads)
    ensures AllHeads(f, w.(limit := limit), heads)
  {
    hide HeadsOf, HeadCount;
    HeadsShorter(w, heads, Kind(f, w.text), MainHeads(f), HeadCount(f), limit);
    if f.numHashBytes >= 3 {
      HeadsShorter(w, heads, Kind2(f, w.text), 0, FIX3_HASH_SIZE, limit);
    }
    if f.numHashBytes >= 4 {
      HeadsShorter(w, heads, Kind3(f, w.text), FIX3_HASH_SIZE, FIX4_HASH_SIZE, limit);
    }
  }

  lemma AgreeInLonger(w: View, more: seq<octet>, q: nat, r: nat)
    requires q < w.at && r < w.at && w.at + w.limit <= |w.text| + 1 && Agree(w.text, q, r, w.limit)
    ensures Agree(w.text + more, q, r, w.limit)
  {
    forall k | 0 <= k < w.limit
      ensures At(w.text + more, q, k) == At(w.text + more, r, k)
    {
      assert At(w.text, q, k) == At(w.text, r, k);
    }
  }

  /** Trees do not depend on the text. */
  lemma {:induction false} TreeInLonger(w: View, w': View, son: seq<nat>, v: nat, q: nat)
    requires w.size > 0 && |son| == 2 * w.size && w'.at == w.at && w'.pos == w.pos && w'.size == w.size && InTree(w, son, v, q)
    ensures InTree(w', son, v, q)
    decreases Idx(w, v)
  {
    hide Slot;
    var c: nat := Idx(w, v);
    var s := 2 * Slot(c, w.size);
    if q != c {
      if Idx(w, son[s]) < c && InTree(w, son, son[s], q) {
        TreeInLonger(w, w', son, son[s], q);
      } else {
        TreeInLonger(w, w', son, son[s + 1], q);
      }
    }
  }

  lemma AlikeInLonger(f: Setup, w: View, son: seq<nat>, more: seq<octet>)
    requires w.size > 0 && |son| == 2 * w.size && AllAlike(w, son, Kind(f, w.text), w.at, 2 * w.size, 2 * w.size)
    requires 2 <= f.numHashBytes <= 4 && f.numHashBytes <= w.limit && w.at + w.limit <= |w.text| + 1
    requires forall p: nat | p < w.at && Recent(w, p) :: SonsOlder(w, son, p)
    ensures AllAlike(w.(text := w.text + more), son, Kind(f, w.text + more), w.at, 2 * w.size, 2 * w.size)
  {
    hide Slot, MainAt;
    var w' := w.(text := w.text + more);
    forall p: nat | p < w.at && Recent(w', p)
      ensures SonsAlike(w', son, Kind(f, w'.text), p, 2 * w.size, 2 * w.size)
    {
      assert SonsAlike(w, son, Kind(f, w.text), p, 2 * w.size, 2 * w.size) && SonsOlder(w, son, p);
      var s := 2 * Slot(p, w.size);
      SameKind(f, w, more, p);
      if !Dead(w, son[s]) {
        SameKind(f, w, more, Idx(w, son[s]));
      }
      if !Dead(w, son[s + 1]) {
        SameKind(f, w, more, Idx(w, son[s + 1]));
      }
    }
  }

  ghost predicate SonsOlder(w: View, son: seq<nat>, p: nat)
    requires w.size > 0 && |son| == 2 * w.size
  {
    var s := 2 * Slot(p, w.size);
    (Dead(w, son[s]) || 0 <= Idx(w, son[s]) < p) && (Dead(w, son[s + 1]) || 0 <= Idx(w, son[s + 1]) < p)
  }

  lemma TreeOlder(w: View, son: seq<nat>, b: Bounds)
    requires TreeOk(w, son, b, w.at, 2 * w.size, 2 * w.size)
    ensures w.size > 0 && |son| == 2 * w.size && forall p: nat | p < w.at && Recent(w, p) :: SonsOlder(w, son, p)
  {
    hide Rank, Slot, Pow256;
    forall p: nat | p < w.at && Recent(w, p)
      ensures SonsOlder(w, son, p)
    {
      assert NodeOk(w, son, b, p, 2 * w.size, 2 * w.size);
    }
  }

  lemma KeptInLonger(f: Setup, w: View, refs: Refs, b: Bounds, more: seq<octet>, q: nat)
    requires Complete(f, w, refs, b) && q < w.at && Kept(f, w, refs, q) && w.limit >= f.numHashBytes && w.at + w.limit <= |w.text| + 1
    ensures Kept(f, w.(text := w.text + more), refs, q)
  {
    hide MainAt, HeadCount, TreeOk, InTree, Agree, AllAlike, OfKind, AllHeads;
    var w' := w.(text := w.text + more);
    var r: nat :| KeptBy(f, w, refs, q, r);
    var v := refs.heads[MainAt(f, w.text, q)];
    MainHead(f, w, refs.heads, q);
    InTreeOlder(w, refs.son, v, r);
    SameKind(f, w, more, q);
    TreeInLonger(w, w', refs.son, v, r);
    AgreeInLonger(w, more, q, r);
    assert KeptBy(f, w', refs, q, r);
  }

  /** Text read later changes nothing. */
  lemma CompleteInLonger(f: Setup, w: View, refs: Refs, b: Bounds, more: seq<octet>)
    requires Complete(f, w, refs, b) && w.limit >= f.numHashBytes && w.at + w.limit <= |w.text| + 1
    ensures Complete(f, w.(text := w.text + more), refs, b)
  {
    hide MainAt, HeadCount, TreeOk, AllAlike, Kept, AllHeads;
    var w' := w.(text := w.text + more);
    TreeOlder(w, refs.son, b);
    LongerText(w, more, refs.son, b);
    AlikeInLonger(f, w, refs.son, more);
    AllHeadsInLonger(f, w, refs.heads, more);
    if f.cutValue >= w.size {
      forall q: nat | q < w'.at && Recent(w', q)
        ensures Kept(f, w', refs, q)
      {
        KeptInLonger(f, w, refs, b, more, q);
      }
    }
  }

  lemma KeptShorter(f: Setup, w: View, refs: Refs, q: nat, limit: nat)
    requires Kept(f, w, refs, q) && limit <= w.limit
    ensures Kept(f, w.(limit := limit), refs, q)
  {
    hide MainAt, HeadCount, InTree;
    var w' := w.(limit := limit);
    var r: nat :| KeptBy(f, w, refs, q, r);
    TreeInLonger(w, w', refs.son, refs.heads[MainAt(f, w.text, q)], r);
    assert KeptBy(f, w', refs, q, r);
  }

  /** Strings that are compared up to a lower limit are in order up to it. */
  lemma CompleteShorter(f: Setup, w: View, refs: Refs, b: Bounds, limit: nat)
    requires Complete(f, w, refs, b) && limit <= w.limit
    ensures Complete(f, w.(limit := limit), refs, Shortened(b, Pow256(w.limit - limit)))
  {
    hide MainAt, HeadCount, TreeOk, Shortened, Pow256, Kept, AllHeads;
    var w' := w.(limit := limit);
    ShorterLimit(w, refs.son, b, limit);
    AlikeShorter(w, refs.son, Kind(f, w.text), limit);
    AllHeadsShorter(f, w, refs.heads, limit);
    if f.cutValue >= w.size {
      forall q: nat | q < w'.at && Recent(w', q)
        ensures Kept(f, w', refs, q)
      {
        KeptShorter(f, w, refs, q, limit);
      }
    }
  }

  lemma AlikeShorter(w: View, son: seq<nat>, kind: nat -> nat, limit: nat)
    requires w.size > 0 && |son| == 2 * w.size && AllAlike(w, son, kind, w.at, 2 * w.size, 2 * w.size)
    ensures AllAlike(w.(limit := limit), son, kind, w.at, 2 * w.size, 2 * w.size)
  {
    forall p: nat | p < w.at && Recent(w.(limit := limit), p)
      ensures SonsAlike(w.(limit := limit), son, kind, p, 2 * w.size, 2 * w.size)
    {
      assert SonsAlike(w, son, kind, p, 2 * w.size, 2 * w.size);
    }
  }

  // ---------- What follows ----------

  /** The finder is complete as long as there are bytes enough to hash. */
  ghost predicate FindsAll(f: Setup, w: View, refs: Refs) {
    w.limit >= f.numHashBytes ==> exists b :: Complete(f, w, refs, b)
  }

  lemma FindsAllStart(f: Setup, w: View, refs: Refs)
    requires Sized(f, w, refs) && w.at == 0 && 1 < w.size <= w.pos && forall h | 0 <= h < |refs.heads| :: refs.heads[h] == 0
    ensures FindsAll(f, w, refs)
  {
    CompleteStart(f, w, refs);
  }

  /** From one position to the next, with more text read meanwhile and perhaps a lower limit. */
  lemma FindsAllNext(f: Setup, w: View, refs: Refs, more: seq<octet>, limit: nat)
    requires FindsAll(f, w, refs) && Sized(f, w, refs) && ValidView(w) && limit <= w.limit
    ensures FindsAll(f, View(w.text + more, w.at + 1, w.pos + 1, w.size, limit), Stored(f, w, refs))
  {
    hide Complete, Stored;
    if limit >= f.numHashBytes {
      var b :| Complete(f, w, refs, b);
      var b' := CompleteNext(f, w, refs, b);
      var w' := w.(at := w.at + 1, pos := w.pos + 1);
      CompleteInLonger(f, w', Stored(f, w, refs), b', more);
      CompleteShorter(f, w'.(text := w.text + more), Stored(f, w, refs), b', limit);
    }
  }

  /** The longest match has at least len bytes. */
  predicate ReachesTo(ds: seq<Found>, len: nat) {
    ds != [] && ds[|ds| - 1].len >= len
  }

  lemma SameMain(f: Setup, w: View, q: nat, len: nat)
    requires 2 <= f.numHashBytes <= len && Agree(w.text, w.at, q, len)
    ensures MainAt(f, w.text, q) == MainAt(f, w.text, w.at)
  {
    hide Hash3, Hash4, Value;
    assert forall k | 0 <= k < f.numHashBytes :: At(w.text, w.at, k) == At(w.text, q, k);
  }

  lemma WithinMeans(w: View, q: nat, len: nat, most: nat)
    requires Within(w, q, most) && Agree(w.text, w.at, q, len) && len <= w.limit
    ensures len <= most
  {
  }

  /** If in the end nothing longer than maxLen is there, and len bytes are, the matches reach that far. */
  lemma Reached(f: Setup, w: View, refs: Refs, len: nat, q: nat)
    requires Sized(f, w, refs) && MainAt(f, w.text, w.at) < |refs.heads| && f.numHashBytes <= len <= w.limit && Agree(w.text, w.at, q, len)
    requires var maxLen := ToBeat(f, HeadMatches(f, w, refs));
             maxLen == w.limit || Within(w, q, Longest(maxLen, Pairs(w, refs.son, refs.heads[MainAt(f, w.text, w.at)], f.cutValue, maxLen)))
    ensures ReachesTo(Reports(f, w, refs), len)
  {
    hide MainAt, HeadCount, Pairs, HeadMatches;
    var short := HeadMatches(f, w, refs);
    var maxLen := ToBeat(f, short);
    if maxLen != w.limit {
      WithinMeans(w, q, len, Longest(maxLen, Pairs(w, refs.son, refs.heads[MainAt(f, w.text, w.at)], f.cutValue, maxLen)));
    }
  }

  /** When the search is not cut short, the longest match of a position with any in the window is reported, if it has at
      least as many bytes as are hashed. */
  lemma LongestFound(f: Setup, w: View, refs: Refs, q: nat, len: nat)
    requires FindsAll(f, w, refs) && Sized(f, w, refs) && ValidView(w) && f.cutValue >= w.size
    requires q < w.at && Recent(w, q) && f.numHashBytes <= len <= w.limit && Agree(w.text, w.at, q, len)
    ensures ReachesTo(Reports(f, w, refs), len)
  {
    hide MainAt, HeadCount, Pairs, TreeOk, AllAlike, HeadMatches, InTree, Agree, Reports, ToBeat, AllHeads;
    var b :| Complete(f, w, refs, b);
    MainHead(f, w, refs.heads, w.at);
    SameMain(f, w, q, len);
    var v := refs.heads[MainAt(f, w.text, w.at)];
    assert Kept(f, w, refs, q);
    var r: nat :| KeptBy(f, w, refs, q, r);
    var maxLen := ToBeat(f, HeadMatches(f, w, refs));
    PairsUnbeaten(w, refs.son, b, v, w.at, f.cutValue, maxLen);
    AgreeShorter(w.text, q, r, w.limit, len);
    AgreeThrough(w.text, w.at, q, r, len);
    Reached(f, w, refs, len, r);
  }

  lemma AgreeShorter(text: seq<octet>, i: nat, j: nat, more: nat, len: nat)
    requires Agree(text, i, j, more) && len <= more
    ensures Agree(text, i, j, len)
  {
  }

  /** A position in the window has len bytes in common with this one, enough to be found by them. */
  ghost predicate SharedBytes(f: Setup, w: View, q: nat, len: nat) {
    q < w.at && Recent(w, q) && f.numHashBytes <= len <= w.limit && Agree(w.text, w.at, q, len)
  }

  /** No position between q and this one is of this one's kind. */
  ghost predicate Newest(w: View, kind: nat -> nat, q: nat) {
    forall p: nat | q < p < w.at :: kind(p) != kind(w.at)
  }

  lemma NewestAtHead(w: View, heads: seq<nat>, kind: nat -> nat, lo: nat, hi: nat, q: nat)
    requires HeadsOf(w, heads, kind, lo, hi) && q < w.at && Recent(w, q) && kind(q) == kind(w.at) && Newest(w, kind, q)
    ensures lo <= kind(q) < hi && !Dead(w, heads[kind(q)]) && Idx(w, heads[kind(q)]) == q && heads[kind(q)] < w.pos
  {
    assert BehindHead(w, heads, kind, lo, hi, q);
    assert HeadOfKind(w, kind, kind(q), heads[kind(q)]);
  }

  /** However short the search is cut, the nearest position with the hash value of this one is compared with it. */
  lemma NearestCompared(f: Setup, w: View, refs: Refs, q: nat, len: nat)
    requires FindsAll(f, w, refs) && Sized(f, w, refs) && ValidView(w) && f.cutValue >= 1
    requires SharedBytes(f, w, q, len) && Newest(w, Kind(f, w.text), q)
    ensures ReachesTo(Reports(f, w, refs), len)
  {
    hide MainAt, HeadCount, Pairs, TreeOk, AllAlike, HeadMatches, InTree, Agree, Reports, ToBeat, CommonAt, Kept;
    var b :| Complete(f, w, refs, b);
    SameMain(f, w, q, len);
    var v := refs.heads[MainAt(f, w.text, w.at)];
    NewestAtHead(w, refs.heads, Kind(f, w.text), MainHeads(f), HeadCount(f), q);
    var maxLen := ToBeat(f, HeadMatches(f, w, refs));
    RootCompared(w, refs.son, v, f.cutValue, maxLen);
    Compared(w, v);
    WithinMore(w, q, CommonAt(w, v), Longest(maxLen, Pairs(w, refs.son, v, f.cutValue, maxLen)));
    Reached(f, w, refs, len, q);
  }

  // ---------- Two and three bytes ----------

  /** The position d back is among the matches. */
  ghost predicate Names(ds: seq<Found>, d: int) {
    exists i | 0 <= i < |ds| :: ds[i].dist + 1 == d
  }

  /** The tree's matches come behind those of the heads, and are longer. */
  lemma ShortFirst(f: Setup, w: View, refs: Refs, len: nat, d: int)
    requires Sized(f, w, refs) && w.limit >= f.numHashBytes
    requires ReachesTo(HeadMatches(f, w, refs), len) && Names(HeadMatches(f, w, refs), d)
    ensures ReachesTo(Reports(f, w, refs), len) && Names(Reports(f, w, refs), d)
  {
    hide MainAt, HeadCount, Pairs, HeadMatches;
    MainInHeads(f, w.text, w.at);
    var short := HeadMatches(f, w, refs);
    var maxLen := ToBeat(f, short);
    if maxLen != w.limit {
      var v := refs.heads[MainAt(f, w.text, w.at)];
      PairsLonger(w, refs.son, v, f.cutValue, maxLen);
      var i :| 0 <= i < |short| && short[i].dist + 1 == d;
      assert (short + Pairs(w, refs.son, v, f.cutValue, maxLen))[i] == short[i];
    }
  }

  lemma CommonReaches(w: View, q: nat, len: nat)
    requires len <= w.limit && Agree(w.text, w.at, q, len)
    ensures Common(w.text, w.at, q, 0, w.limit) >= len
  {
    CommonMeans(w.text, w.at, q, 0, w.limit);
  }

  lemma SameShort(f: Setup, w: View, q: nat)
    ensures Agree(w.text, w.at, q, 2) ==> Hash2At(f.crc, w.text, q) == Hash2At(f.crc, w.text, w.at) && At(w.text, q, 0) == At(w.text, w.at, 0)
    ensures Agree(w.text, w.at, q, 3) ==> Hash3At(f.crc, w.text, q) == Hash3At(f.crc, w.text, w.at) && Agree(w.text, w.at, q, 2)
    ensures Hash3At(f.crc, w.text, q) == Hash3At(f.crc, w.text, w.at) && At(w.text, q, 0) == At(w.text, w.at, 0) ==> Agree(w.text, w.at, q, 3)
  {
    hide Hash2, Hash3;
    if Agree(w.text, w.at, q, 2) {
      assert At(w.text, w.at, 0) == At(w.text, q, 0) && At(w.text, w.at, 1) == At(w.text, q, 1);
    }
    if Agree(w.text, w.at, q, 3) {
      assert At(w.text, w.at, 0) == At(w.text, q, 0) && At(w.text, w.at, 1) == At(w.text, q, 1) && At(w.text, w.at, 2) == At(w.text, q, 2);
    }
    if Hash3At(f.crc, w.text, q) == Hash3At(f.crc, w.text, w.at) && At(w.text, q, 0) == At(w.text, w.at, 0) {
      Hash3Exact(f.crc, At(w.text, w.at, 0), At(w.text, w.at, 1), At(w.text, w.at, 2), At(w.text, q, 1), At(w.text, q, 2));
    }
  }

  /** Where a head leads to, if that is q. */
  lemma HeadHits(w: View, v: nat, q: nat, len: nat)
    requires v < w.pos && !Dead(w, v) && Idx(w, v) == q < w.at && 1 <= len <= w.limit && Agree(w.text, w.at, q, len)
    ensures w.pos - v == w.at - q && Hits(w, w.pos - v) && Whole(w, w.pos - v).len >= len && Whole(w, w.pos - v).dist + 1 == w.at - q
  {
    hide Common;
    CommonReaches(w, q, len);
    assert At(w.text, w.at, 0) == At(w.text, q, 0);
  }

  /** The nearest position with the two-byte hash of this one is reported if it shares two bytes, and the matches reach as
      far as it agrees. */
  lemma TwoBytesFound(f: Setup, w: View, refs: Refs, q: nat, len: nat)
    requires FindsAll(f, w, refs) && Sized(f, w, refs) && 3 <= f.numHashBytes <= w.limit
    requires q < w.at && Recent(w, q) && Newest(w, Kind2(f, w.text), q) && 2 <= len <= w.limit && Agree(w.text, w.at, q, len)
    ensures ReachesTo(Reports(f, w, refs), len) && Names(Reports(f, w, refs), w.at - q)
  {
    hide MainAt, HeadCount, Hash2At, Hash3At, TreeOk, AllAlike, Hits, Whole, Agree, Reports, Kept, HeadsOf, Dead, Idx, Recent;
    var b :| Complete(f, w, refs, b);
    HeadRoom(f);
    AgreeShorter(w.text, w.at, q, len, 2);
    SameShort(f, w, q);
    NewestAtHead(w, refs.heads, Kind2(f, w.text), 0, FIX3_HASH_SIZE, q);
    HeadHits(w, refs.heads[Hash2At(f.crc, w.text, w.at)], q, len);
    HeadMatchesReach(f, w, refs, b, q, len);
    ShortFirst(f, w, refs, len, w.at - q);
  }

  lemma HeadMatchesReach(f: Setup, w: View, refs: Refs, b: Bounds, q: nat, len: nat)
    requires Complete(f, w, refs, b) && 3 <= f.numHashBytes <= w.limit && |refs.heads| > FIX3_HASH_SIZE
    requires q < w.at && Recent(w, q) && Newest(w, Kind2(f, w.text), q) && 2 <= len <= w.limit && Agree(w.text, w.at, q, len)
    requires var d2 := w.pos - refs.heads[Hash2At(f.crc, w.text, w.at)]; d2 == w.at - q && Hits(w, d2) && Whole(w, d2).len >= len && Whole(w, d2).dist + 1 == d2
    ensures ReachesTo(HeadMatches(f, w, refs), len) && Names(HeadMatches(f, w, refs), w.at - q)
  {
    hide MainAt, HeadCount, Hash2At, Hash3At, TreeOk, AllAlike, Hits, Whole, Agree, Kept, HeadsOf, Dead, Idx, Recent;
    var d2 := w.pos - refs.heads[Hash2At(f.crc, w.text, w.at)];
    var short := HeadMatches(f, w, refs);
    if f.numHashBytes == 3 {
      assert short == [Whole(w, d2)];
      assert short[0].dist + 1 == d2;
    } else {
      HeadRoom(f);
      var d3 := w.pos - refs.heads[FIX3_HASH_SIZE + Hash3At(f.crc, w.text, w.at)];
      if d2 != d3 && Hits(w, d3) {
        OlderThird(f, w, refs.heads, q, len);
        HitsNear(w, d3);
        assert short == [Found(2, d2 - 1), Whole(w, d3)];
        assert short[0].dist + 1 == d2;
      } else {
        assert short == [Whole(w, d2)];
        assert short[0].dist + 1 == d2;
      }
    }
  }

  /** When the three-byte head hits somewhere else, the nearer position shares two bytes only, and the other one three. */
  lemma OlderThird(f: Setup, w: View, heads: seq<nat>, q: nat, len: nat)
    requires f.numHashBytes == 4 <= w.limit && |heads| > FIX4_HASH_SIZE && HeadsOf(w, heads, Kind3(f, w.text), FIX3_HASH_SIZE, FIX4_HASH_SIZE)
    requires q < w.at && Recent(w, q) && Newest(w, Kind2(f, w.text), q) && 2 <= len <= w.limit && Agree(w.text, w.at, q, len)
    requires var d3 := w.pos - heads[FIX3_HASH_SIZE + Hash3At(f.crc, w.text, w.at)]; Hits(w, d3) && d3 != w.at - q
    ensures len == 2 && Whole(w, w.pos - heads[FIX3_HASH_SIZE + Hash3At(f.crc, w.text, w.at)]).len >= 3
  {
    hide Hash2At, Hash3At, Agree, Common, HeadsOf;
    var h := FIX3_HASH_SIZE + Hash3At(f.crc, w.text, w.at);
    HeadKind(w, heads, Kind3(f, w.text), FIX3_HASH_SIZE, FIX4_HASH_SIZE, h);
    var c: nat := Idx(w, heads[h]);
    assert w.at - (w.pos - heads[h]) == c && Kind3(f, w.text)(c) == h;
    SameShort(f, w, c);
    CommonReaches(w, c, 3);
    assert Kind2(f, w.text)(c) == Kind2(f, w.text)(w.at);
    if len >= 3 {
      AgreeShorter(w.text, w.at, q, len, 3);
      SameShort(f, w, q);
      NotNewer(w, heads, Kind3(f, w.text), FIX3_HASH_SIZE, FIX4_HASH_SIZE, q);
    }
  }

  lemma HeadKind(w: View, heads: seq<nat>, kind: nat -> nat, lo: nat, hi: nat, h: nat)
    requires HeadsOf(w, heads, kind, lo, hi) && lo <= h < hi
    ensures hi <= |heads| && HeadOfKind(w, kind, h, heads[h])
  {
  }

  lemma NotNewer(w: View, heads: seq<nat>, kind: nat -> nat, lo: nat, hi: nat, q: nat)
    requires HeadsOf(w, heads, kind, lo, hi) && q < w.at && Recent(w, q)
    ensures hi <= |heads| && lo <= kind(q) < hi && q <= Idx(w, heads[kind(q)])
  {
    assert BehindHead(w, heads, kind, lo, hi, q);
  }

  /** The same for three bytes. */
  lemma ThreeBytesFound(f: Setup, w: View, refs: Refs, q: nat, len: nat)
    requires FindsAll(f, w, refs) && Sized(f, w, refs) && f.numHashBytes == 4 <= w.limit
    requires q < w.at && Recent(w, q) && Newest(w, Kind3(f, w.text), q) && 3 <= len <= w.limit && Agree(w.text, w.at, q, len)
    ensures ReachesTo(Reports(f, w, refs), len) && Names(Reports(f, w, refs), w.at - q)
  {
    hide MainAt, HeadCount, Hash2At, Hash3At, TreeOk, AllAlike, Hits, Whole, Agree, Reports, Kept, HeadsOf, Dead, Idx, Recent;
    var b :| Complete(f, w, refs, b);
    HeadRoom(f);
    AgreeShorter(w.text, w.at, q, len, 3);
    SameShort(f, w, q);
    NewestAtHead(w, refs.heads, Kind3(f, w.text), FIX3_HASH_SIZE, FIX4_HASH_SIZE, q);
    var d2, d3 := w.pos - refs.heads[Hash2At(f.crc, w.text, w.at)], w.pos - refs.heads[FIX3_HASH_SIZE + Hash3At(f.crc, w.text, w.at)];
    HeadHits(w, refs.heads[FIX3_HASH_SIZE + Hash3At(f.crc, w.text, w.at)], q, len);
    var short := HeadMatches(f, w, refs);
    assert short == HeadMatches4(w, d2, d3);
    assert short != [] && short[|short| - 1] == Whole(w, d3);
    ShortFirst(f, w, refs, len, w.at - q);
  }

  /** The search that is not cut short finds the longest match; any search compares the nearest position with the hash
      value of this one; and the nearest positions with the hash values of two and of three bytes are found. */
  ghost predicate NothingMissed(f: Setup, w: View, ds: seq<Found>) {
    (f.cutValue >= w.size ==> forall q: nat, len: nat | SharedBytes(f, w, q, len) :: ReachesTo(ds, len)) &&
    (f.cutValue >= 1 ==> forall q: nat, len: nat | SharedBytes(f, w, q, len) && Newest(w, Kind(f, w.text), q) :: ReachesTo(ds, len)) &&
    (f.numHashBytes >= 3 ==> forall q: nat, len: nat | NearestShort(f, w, q, len, 2) :: ReachesTo(ds, len) && Names(ds, w.at - q)) &&
    (f.numHashBytes >= 4 ==> forall q: nat, len: nat | NearestShort(f, w, q, len, 3) :: ReachesTo(ds, len) && Names(ds, w.at - q))
  }

  /** Of the positions with the hash value of so few bytes the nearest, which shares len bytes with this one. */
  ghost predicate NearestShort(f: Setup, w: View, q: nat, len: nat, few: nat) {
    q < w.at && Recent(w, q) && few <= len <= w.limit && f.numHashBytes <= w.limit && Agree(w.text, w.at, q, len) &&
    Newest(w, if few == 2 then Kind2(f, w.text) else Kind3(f, w.text), q)
  }

  lemma MissesNothing(f: Setup, w: View, refs: Refs)
    requires FindsAll(f, w, refs) && Sized(f, w, refs) && ValidView(w)
    ensures NothingMissed(f, w, Reports(f, w, refs))
  {
    hide FindsAll, Reports, ReachesTo, Newest, Names;
    forall q: nat, len: nat | f.numHashBytes >= 3 && NearestShort(f, w, q, len, 2)
      ensures ReachesTo(Reports(f, w, refs), len) && Names(Reports(f, w, refs), w.at - q)
    {
      TwoBytesFound(f, w, refs, q, len);
    }
    forall q: nat, len: nat | f.numHashBytes >= 4 && NearestShort(f, w, q, len, 3)
      ensures ReachesTo(Reports(f, w, refs), len) && Names(Reports(f, w, refs), w.at - q)
    {
      ThreeBytesFound(f, w, refs, q, len);
    }
    forall q: nat, len: nat | SharedBytes(f, w, q, len) && f.cutValue >= 1 && Newest(w, Kind(f, w.text), q)
      ensures ReachesTo(Reports(f, w, refs), len)
    {
      NearestCompared(f, w, refs, q, len);
    }
    forall q: nat, len: nat | SharedBytes(f, w, q, len) && f.cutValue >= w.size
      ensures ReachesTo(Reports(f, w, refs), len)
    {
      LongestFound(f, w, refs, q, len);
    }
  }
}
