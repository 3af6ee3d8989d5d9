/** The match finder without its window: what it reports at a position and what it leaves, as functions of
    the text and of references that are never renormalised. */
module LzReports {
  import opened LzRank
  import opened LzTree
  import opened LzWalk
  import opened LzHash

  const FIX3_HASH_SIZE := HASH2_SIZE
  const FIX4_HASH_SIZE := HASH2_SIZE + HASH3_SIZE

  datatype Setup = Setup(numHashBytes: nat, crc: Table, hashMask: bv32, cutValue: nat)

  /** Heads of all hash values, and sons of all positions in the window. */
  datatype Refs = Refs(heads: seq<nat>, son: seq<nat>)

  // ---------- Hash values ----------

  function Hash2At(crc: Table, text: seq<octet>, i: nat): (h: nat)
    ensures h < FIX3_HASH_SIZE
  {
    Hash2(crc, At(text, i, 0), At(text, i, 1))
  }

  function Hash3At(crc: Table, text: seq<octet>, i: nat): (h: nat)
    ensures FIX3_HASH_SIZE + h < FIX4_HASH_SIZE
  {
    SmallMasks();
    Hash3(crc, At(text, i, 0), At(text, i, 1), At(text, i, 2), 0xFFFF)
  }

  /** The place of the main head for the bytes at i. */
  function MainAt(f: Setup, text: seq<octet>, i: nat): nat {
    if f.numHashBytes == 2 then Value(At(text, i, 0)) + 0x100 * Value(At(text, i, 1))
    else if f.numHashBytes == 3 then FIX3_HASH_SIZE + Hash3(f.crc, At(text, i, 0), At(text, i, 1), At(text, i, 2), f.hashMask)
    else FIX4_HASH_SIZE + Hash4(f.crc, At(text, i, 0), At(text, i, 1), At(text, i, 2), At(text, i, 3), f.hashMask)
  }

  function HeadCount(f: Setup): nat {
    if f.numHashBytes == 2 then 0x10000 else if f.numHashBytes == 3 then FIX3_HASH_SIZE + Num(f.hashMask) + 1 else FIX4_HASH_SIZE + Num(f.hashMask) + 1
  }

  lemma MainInHeads(f: Setup, text: seq<octet>, i: nat)
    ensures MainAt(f, text, i) < HeadCount(f)
  {
    hide Hash3, Hash4, Num;
  }

  predicate Sized(f: Setup, w: View, refs: Refs) {
    2 <= f.numHashBytes <= 4 && w.size > 0 && |refs.son| == 2 * w.size && |refs.heads| >= HeadCount(f)
  }

  // ---------- What is reported ----------

  /** Two or three bytes that a head points to are there: in the window, and their first byte agrees. */
  predicate Hits(w: View, d: int) {
    0 < d < w.size && d <= w.at && At(w.text, w.at - d, 0) == At(w.text, w.at, 0)
  }

  function Whole(w: View, d: int): Found
    requires 0 < d <= w.at
  {
    Found(Common(w.text, w.at, w.at - d, 0, w.limit), d - 1)
  }

  /** Of the hits for two and for three bytes the last is made as long as possible. */
  function HeadMatches4(w: View, d2: int, d3: int): seq<Found> {
    if d2 != d3 && Hits(w, d3) then (if Hits(w, d2) then [Found(2, d2 - 1)] else []) + [Whole(w, d3)]
    else if Hits(w, d2) then [Whole(w, d2)]
    else []
  }

  function HeadMatches3(w: View, d2: int): seq<Found> {
    if Hits(w, d2) then [Whole(w, d2)] else []
  }

  function HeadMatches(f: Setup, w: View, refs: Refs): seq<Found>
    requires Sized(f, w, refs)
  {
    if f.numHashBytes == 2 then []
    else
      var d2 := w.pos - refs.heads[Hash2At(f.crc, w.text, w.at)];
      if f.numHashBytes == 3 then HeadMatches3(w, d2)
      else HeadMatches4(w, d2, w.pos - refs.heads[FIX3_HASH_SIZE + Hash3At(f.crc, w.text, w.at)])
  }

  /** How long a match has to be beaten by those of the tree. */
  function ToBeat(f: Setup, short: seq<Found>): nat {
    var least := if f.numHashBytes < 2 then 1 else f.numHashBytes - 1;
    if short == [] || short[|short| - 1].len < least then least else short[|short| - 1].len
  }

  /** The matches that the finder reports. */
  function Reports(f: Setup, w: View, refs: Refs): seq<Found>
    requires Sized(f, w, refs)
  {
    if w.limit < f.numHashBytes then []
    else
      MainInHeads(f, w.text, w.at);
      var short := HeadMatches(f, w, refs);
      var maxLen := ToBeat(f, short);
      if maxLen == w.limit then short else short + Pairs(w, refs.son, refs.heads[MainAt(f, w.text, w.at)], f.cutValue, maxLen)
  }

  /** The heads once this position has been left in them. */
  function Headed(f: Setup, w: View, heads: seq<nat>): (r: seq<nat>)
    requires 2 <= f.numHashBytes <= 4 && |heads| >= HeadCount(f)
    ensures |r| == |heads|
  {
    MainInHeads(f, w.text, w.at);
    var h := if f.numHashBytes == 2 then heads else heads[Hash2At(f.crc, w.text, w.at) := w.pos];
    var h' := if f.numHashBytes < 4 then h else h[FIX3_HASH_SIZE + Hash3At(f.crc, w.text, w.at) := w.pos];
    h'[MainAt(f, w.text, w.at) := w.pos]
  }

  /** What the finder leaves, reporting or not. */
  function Stored(f: Setup, w: View, refs: Refs): (r: Refs)
    requires Sized(f, w, refs)
    ensures Sized(f, w, r)
  {
    if w.limit < f.numHashBytes then refs
    else
      MainInHeads(f, w.text, w.at);
      Refs(Headed(f, w, refs.heads), Inserted(w, refs.son, refs.heads[MainAt(f, w.text, w.at)], f.cutValue))
  }

  // ---------- Renormalised or not ----------

  function LoweredRefs(refs: Refs, subValue: nat): Refs {
    Refs(Lowered(refs.heads, subValue), Lowered(refs.son, subValue))
  }

  lemma LoweredTwice(s: seq<nat>, a: nat, b: nat)
    ensures Lowered(Lowered(s, a), b) == Lowered(s, a + b)
  {
  }

  lemma LoweredByNone(s: seq<nat>)
    ensures Lowered(s, 0) == s
  {
  }

  lemma SameHits(w: View, v: nat, subValue: nat)
    requires 0 < w.size && w.size + subValue <= w.pos
    ensures var w' := w.(pos := w.pos - subValue);
            var d, d' := w.pos - v, w'.pos - Reduced(v, subValue);
            Hits(w', d') == Hits(w, d) && (d == d' || (d >= w.size && d' >= w.size))
  {
  }

  lemma SameHeadMatches(f: Setup, w: View, refs: Refs, subValue: nat)
    requires Sized(f, w, refs) && w.size + subValue <= w.pos
    ensures HeadMatches(f, w.(pos := w.pos - subValue), LoweredRefs(refs, subValue)) == HeadMatches(f, w, refs)
  {
    hide Hash2At, Hash3At, Hits, Common;
    if f.numHashBytes > 2 {
      SameHits(w, refs.heads[Hash2At(f.crc, w.text, w.at)], subValue);
      HitsNear(w, w.pos - refs.heads[Hash2At(f.crc, w.text, w.at)]);
      if f.numHashBytes > 3 {
        SameHits(w, refs.heads[FIX3_HASH_SIZE + Hash3At(f.crc, w.text, w.at)], subValue);
        HitsNear(w, w.pos - refs.heads[FIX3_HASH_SIZE + Hash3At(f.crc, w.text, w.at)]);
      }
    }
  }

  lemma HitsNear(w: View, d: int)
    ensures Hits(w, d) ==> 0 < d < w.size && d <= w.at
  {
  }

  /** Renormalisation is invisible: the finder reports the same and leaves the same, renormalised. */
  lemma FinderUnmoved(f: Setup, w: View, refs: Refs, subValue: nat)
    requires Sized(f, w, refs) && w.size + subValue <= w.pos && subValue < w.pos
    ensures var w', refs' := w.(pos := w.pos - subValue), LoweredRefs(refs, subValue);
            Sized(f, w', refs') && Reports(f, w', refs') == Reports(f, w, refs) && Stored(f, w', refs') == LoweredRefs(Stored(f, w, refs), subValue)
  {
    hide MainAt, HeadMatches, Pairs, Inserted, HeadCount, Hash2At, Hash3At;
    if w.limit >= f.numHashBytes {
      MainInHeads(f, w.text, w.at);
      SameHeadMatches(f, w, refs, subValue);
      var v := refs.heads[MainAt(f, w.text, w.at)];
      NormalizeUnseen(w, refs.son, v, f.cutValue, ToBeat(f, HeadMatches(f, w, refs)), subValue);
      HeadedLowered(f, w, refs.heads, subValue);
    }
  }

  lemma HeadedLowered(f: Setup, w: View, heads: seq<nat>, subValue: nat)
    requires 2 <= f.numHashBytes <= 4 && |heads| >= HeadCount(f) && subValue < w.pos
    ensures Headed(f, w.(pos := w.pos - subValue), Lowered(heads, subValue)) == Lowered(Headed(f, w, heads), subValue)
  {
    hide MainAt, HeadCount, Hash2At, Hash3At;
    MainInHeads(f, w.text, w.at);
    HeadRoom(f);
    assert Reduced(w.pos, subValue) == w.pos - subValue;
    var h2, h3 := Hash2At(f.crc, w.text, w.at), FIX3_HASH_SIZE + Hash3At(f.crc, w.text, w.at);
    var a := if f.numHashBytes == 2 then heads else heads[h2 := w.pos];
    var b := if f.numHashBytes < 4 then a else a[h3 := w.pos];
    if f.numHashBytes > 2 {
      LoweredUpdate(heads, h2, w.pos, subValue);
      if f.numHashBytes == 4 {
        LoweredUpdate(a, h3, w.pos, subValue);
      }
    }
    LoweredUpdate(b, MainAt(f, w.text, w.at), w.pos, subValue);
  }

  lemma HeadRoom(f: Setup)
    ensures f.numHashBytes == 3 ==> HeadCount(f) > FIX3_HASH_SIZE
    ensures f.numHashBytes == 4 ==> HeadCount(f) > FIX4_HASH_SIZE
  {
    hide Num;
  }

  // ---------- However the text arrives ----------

  lemma HashesInLonger(f: Setup, w: View, more: seq<octet>)
    requires 2 <= f.numHashBytes <= 4 && f.numHashBytes <= w.limit && w.at + w.limit <= |w.text|
    ensures MainAt(f, w.text + more, w.at) == MainAt(f, w.text, w.at)
    ensures f.numHashBytes > 2 ==> Hash2At(f.crc, w.text + more, w.at) == Hash2At(f.crc, w.text, w.at)
    ensures f.numHashBytes > 3 ==> Hash3At(f.crc, w.text + more, w.at) == Hash3At(f.crc, w.text, w.at)
  {
    hide Hash2, Hash3, Hash4;
    assert forall k | 0 <= k < f.numHashBytes :: At(w.text + more, w.at, k) == At(w.text, w.at, k);
  }

  lemma HitsInLonger(w: View, d: int, more: seq<octet>)
    requires ValidView(w) && w.limit > 0
    ensures var w' := w.(text := w.text + more);
            Hits(w', d) == Hits(w, d) && (Hits(w, d) ==> Whole(w', d) == Whole(w, d))
  {
    hide Common;
    if Hits(w, d) {
      CommonInLonger(w.text, more, w.at, w.at - d, 0, w.limit);
    }
  }

  /** Text behind what the finder may look at makes no difference. */
  lemma FinderInLonger(f: Setup, w: View, refs: Refs, more: seq<octet>)
    requires Sized(f, w, refs) && ValidView(w)
    ensures var w' := w.(text := w.text + more); Reports(f, w', refs) == Reports(f, w, refs) && Stored(f, w', refs) == Stored(f, w, refs)
  {
    hide MainAt, Pairs, Split, HeadCount, Hash2At, Hash3At, Hits, Whole;
    if w.limit >= f.numHashBytes {
      MainInHeads(f, w.text, w.at);
      HashesInLonger(f, w, more);
      HeadMatchesInLonger(f, w, refs, more);
      var v := refs.heads[MainAt(f, w.text, w.at)];
      PairsInLonger(w, refs.son, v, f.cutValue, ToBeat(f, HeadMatches(f, w, refs)), more);
      SplitInLonger(w, refs.son, v, 2 * Slot(w.at, w.size) + 1, 2 * Slot(w.at, w.size), f.cutValue, more);
    }
  }

  lemma HeadMatchesInLonger(f: Setup, w: View, refs: Refs, more: seq<octet>)
    requires Sized(f, w, refs) && ValidView(w) && f.numHashBytes <= w.limit
    ensures HeadMatches(f, w.(text := w.text + more), refs) == HeadMatches(f, w, refs)
  {
    hide MainAt, HeadCount, Hash2At, Hash3At, Hits, Whole;
    HashesInLonger(f, w, more);
    HeadRoom(f);
    if f.numHashBytes > 2 {
      HitsInLonger(w, w.pos - refs.heads[Hash2At(f.crc, w.text, w.at)], more);
      HitsNear(w, w.pos - refs.heads[Hash2At(f.crc, w.text, w.at)]);
      if f.numHashBytes > 3 {
        HitsInLonger(w, w.pos - refs.heads[FIX3_HASH_SIZE + Hash3At(f.crc, w.text, w.at)], more);
        HitsNear(w, w.pos - refs.heads[FIX3_HASH_SIZE + Hash3At(f.crc, w.text, w.at)]);
      }
    }
  }

  /** The finder at position i of a text that is all there, with positions that only grow. */
  function ViewAt(text: seq<octet>, i: nat, size: nat, matchMaxLen: nat): View
    requires i <= |text|
  {
    View(text, i, i + size, size, if matchMaxLen < |text| - i then matchMaxLen else |text| - i)
  }

  /** What is left after n positions from i on: the same whether they were searched or skipped, and however the text
      was read. */
  function StoredFrom(f: Setup, text: seq<octet>, i: nat, n: nat, size: nat, matchMaxLen: nat, refs: Refs): (r: Refs)
    requires i + n <= |text| && Sized(f, ViewAt(text, i, size, matchMaxLen), refs)
    ensures Sized(f, ViewAt(text, i + n, size, matchMaxLen), r)
    decreases n
  {
    if n == 0 then refs
    else Stored(f, ViewAt(text, i + n - 1, size, matchMaxLen), StoredFrom(f, text, i, n - 1, size, matchMaxLen, refs))
  }
}
