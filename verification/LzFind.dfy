/** The match finder over a sliding window: hash heads, search trees, renormalised positions and
    a block buffer that is moved and refilled while the text passes by. */
module LzFind {
  import opened Arith
  import opened Bytes
  import opened LzRank
  import opened LzTree
  import opened LzWalk
  import opened LzSearch
  import opened LzHash
  import opened LzReports
  import opened LzComplete

  const MAX_VAL_FOR_NORMALIZE := 0xFFFF_FFFF
  const NORMALIZE_STEP_MIN := 0x400
  const MAX_HISTORY_SIZE := 0xE000_0000

  // ---------- The input stream ----------

  type Piece = s: seq<octet> | s != [] witness [0 as octet]

  datatype Delivery = Chunk(data: Piece) | Failure

  function AllData(chunks: seq<Delivery>): seq<octet> {
    if chunks == [] then []
    else (if chunks[0].Chunk? then chunks[0].data else []) + AllData(chunks[1..])
  }

  /** A stream delivers its bytes in pieces of any size, and may fail. */
  class ByteSource {
    var chunks: seq<Delivery>

    ghost function Rest(): seq<octet>
      reads this
    {
      AllData(chunks)
    }

    /** At most size bytes; none only at the end. */
    method Read(size: nat) returns (ok: bool, data: seq<octet>)
      requires size > 0
      modifies this
      ensures |data| <= size && old(Rest()) == data + Rest() && (!ok ==> data == [])
      ensures ok && data == [] ==> Rest() == []
    {
      ok, data := true, [];
      if chunks != [] {
        match chunks[0]
        case Failure =>
          ok, chunks := false, chunks[1..];
        case Chunk(d) =>
          if |d| <= size {
            data, chunks := d, chunks[1..];
          } else {
            data := d[..size];
            ghost var rest := chunks[1..];
            chunks := [Chunk(d[size..])] + chunks[1..];
            assert chunks[1..] == rest && d == d[..size] + d[size..];
          }
      }
    }
  }

  // ---------- Hash heads ----------

  /** The head of a small hash value: the nearest recent position with that value, if any. */
  ghost predicate Head2Ok(w: View, crc: Table, h: nat, v: nat) {
    (Dead(w, v) || (0 <= Idx(w, v) && Hash2At(crc, w.text, Idx(w, v)) == h)) &&
    forall q: nat | q < w.at && Recent(w, q) && Hash2At(crc, w.text, q) == h :: !Dead(w, v) && q <= Idx(w, v)
  }

  ghost predicate Head3Ok(w: View, crc: Table, h: nat, v: nat) {
    (Dead(w, v) || (0 <= Idx(w, v) && Hash3At(crc, w.text, Idx(w, v)) == h)) &&
    forall q: nat | q < w.at && Recent(w, q) && Hash3At(crc, w.text, q) == h :: !Dead(w, v) && q <= Idx(w, v)
  }

  /** Every head is empty or stands for an older position; the small tables are exact. */
  ghost predicate HeadOk(w: View, crc: Table, numHashBytes: nat, h: nat, v: nat) {
    v < w.pos && (Dead(w, v) || 0 <= Idx(w, v)) &&
    (numHashBytes >= 3 && h < FIX3_HASH_SIZE ==> Head2Ok(w, crc, h, v)) &&
    (numHashBytes >= 4 && FIX3_HASH_SIZE <= h < FIX4_HASH_SIZE ==> Head3Ok(w, crc, h - FIX3_HASH_SIZE, v))
  }

  ghost predicate HeadsOk(w: View, crc: Table, numHashBytes: nat, heads: seq<nat>) {
    forall h | 0 <= h < |heads| :: HeadOk(w, crc, numHashBytes, h, heads[h])
  }

  lemma LongerTextHeads(w: View, more: seq<octet>, crc: Table, numHashBytes: nat, heads: seq<nat>)
    requires HeadsOk(w, crc, numHashBytes, heads) && w.at + numHashBytes <= |w.text| + 1
    ensures HeadsOk(w.(text := w.text + more), crc, numHashBytes, heads)
  {
    hide Hash2At, Hash3At;
    SameHashes(w, more, crc, numHashBytes);
    forall h | 0 <= h < |heads| ensures HeadOk(w.(text := w.text + more), crc, numHashBytes, h, heads[h]) {
      assert HeadOk(w, crc, numHashBytes, h, heads[h]);
    }
  }

  lemma SameHashes(w: View, more: seq<octet>, crc: Table, numHashBytes: nat)
    requires w.at + numHashBytes <= |w.text| + 1
    ensures numHashBytes >= 3 ==> forall q: nat | q < w.at :: Hash2At(crc, w.text + more, q) == Hash2At(crc, w.text, q)
    ensures numHashBytes >= 4 ==> forall q: nat | q < w.at :: Hash3At(crc, w.text + more, q) == Hash3At(crc, w.text, q)
  {
  }

  lemma ReducedHeads(w: View, crc: Table, numHashBytes: nat, heads: seq<nat>, heads': seq<nat>, subValue: nat)
    requires w.size > 0 && w.size + subValue <= w.pos && HeadsOk(w, crc, numHashBytes, heads)
    requires |heads'| == |heads| && forall h | 0 <= h < |heads| :: heads'[h] == Reduced(heads[h], subValue)
    ensures HeadsOk(w.(pos := w.pos - subValue), crc, numHashBytes, heads')
  {
    hide Hash2At, Hash3At;
    forall h | 0 <= h < |heads| ensures HeadOk(w.(pos := w.pos - subValue), crc, numHashBytes, h, heads'[h]) {
      assert HeadOk(w, crc, numHashBytes, h, heads[h]);
    }
  }

  lemma LoweredTree(w: View, son: seq<nat>, b: Bounds, subValue: nat)
    requires w.size + subValue <= w.pos && TreeOk(w, son, b, w.at, 2 * w.size, 2 * w.size)
    ensures TreeOk(w.(pos := w.pos - subValue), Lowered(son, subValue), b, w.at, 2 * w.size, 2 * w.size)
  {
    hide TreeOk;
    ReducedTree(w, son, Lowered(son, subValue), b, subValue);
  }

  lemma LoweredHeads(w: View, crc: Table, numHashBytes: nat, heads: seq<nat>, subValue: nat)
    requires w.size > 0 && w.size + subValue <= w.pos && HeadsOk(w, crc, numHashBytes, heads)
    ensures HeadsOk(w.(pos := w.pos - subValue), crc, numHashBytes, Lowered(heads, subValue))
  {
    hide HeadsOk;
    ReducedHeads(w, crc, numHashBytes, heads, Lowered(heads, subValue), subValue);
  }

  lemma ShorterHeads(w: View, crc: Table, numHashBytes: nat, heads: seq<nat>, limit: nat)
    requires HeadsOk(w, crc, numHashBytes, heads)
    ensures HeadsOk(w.(limit := limit), crc, numHashBytes, heads)
  {
    hide Hash2At, Hash3At;
    forall h | 0 <= h < |heads| ensures HeadOk(w.(limit := limit), crc, numHashBytes, h, heads[h]) {
      assert HeadOk(w, crc, numHashBytes, h, heads[h]);
    }
  }

  /** The next view, when the heads for the bytes at hand have been set. */
  lemma NewHeads(w: View, crc: Table, numHashBytes: nat, heads: seq<nat>, heads': seq<nat>)
    requires w.size > 1 && HeadsOk(w, crc, numHashBytes, heads) && |heads'| == |heads|
    requires |heads| >= if numHashBytes >= 4 then FIX4_HASH_SIZE else if numHashBytes >= 3 then FIX3_HASH_SIZE else 0
    requires forall h | 0 <= h < |heads| :: heads'[h] == heads[h] || heads'[h] == w.pos
    requires numHashBytes >= 3 ==> forall h | 0 <= h < FIX3_HASH_SIZE :: heads'[h] == if h == Hash2At(crc, w.text, w.at) then w.pos else heads[h]
    requires numHashBytes >= 4 ==> forall h | FIX3_HASH_SIZE <= h < FIX4_HASH_SIZE ::
               heads'[h] == if h == FIX3_HASH_SIZE + Hash3At(crc, w.text, w.at) then w.pos else heads[h]
    ensures HeadsOk(w.(at := w.at + 1, pos := w.pos + 1), crc, numHashBytes, heads')
  {
    hide Hash2At, Hash3At;
    var w' := w.(at := w.at + 1, pos := w.pos + 1);
    forall h | 0 <= h < |heads'| ensures HeadOk(w', crc, numHashBytes, h, heads'[h]) {
      assert HeadOk(w, crc, numHashBytes, h, heads[h]);
    }
  }

  /** The distance that a small hash points to: when it is in the history and the first byte
      agrees, n bytes agree, and no nearer position has them. */
  ghost predicate Nearest(w: View, d: nat, n: nat) {
    0 < d &&
    (d < w.size ==> d <= w.at && (At(w.text, w.at - d, 0) == At(w.text, w.at, 0) ==> Agree(w.text, w.at, w.at - d, n))) &&
    forall q: nat | q < w.at && Recent(w, q) && Agree(w.text, w.at, q, n) :: d <= w.at - q
  }

  lemma NearestHits(w: View, d: nat, n: nat)
    requires Nearest(w, d, n)
    ensures 0 < d && (d < w.size ==> d <= w.at && (At(w.text, w.at - d, 0) == At(w.text, w.at, 0) ==> Agree(w.text, w.at, w.at - d, n)))
  {
  }

  lemma Head2Nearest(w: View, crc: Table, v: nat)
    requires v < w.pos && Head2Ok(w, crc, Hash2At(crc, w.text, w.at), v)
    ensures Nearest(w, w.pos - v, 2)
  {
    hide Hash2;
    var d := w.pos - v;
    if d < w.size && At(w.text, w.at - d, 0) == At(w.text, w.at, 0) {
      Hash2Exact(crc, At(w.text, w.at, 0), At(w.text, w.at, 1), At(w.text, w.at - d, 1));
    }
    forall q: nat | q < w.at && Recent(w, q) && Agree(w.text, w.at, q, 2) ensures d <= w.at - q {
      assert At(w.text, w.at, 0) == At(w.text, q, 0) && At(w.text, w.at, 1) == At(w.text, q, 1);
      assert Hash2At(crc, w.text, q) == Hash2At(crc, w.text, w.at);
    }
  }

  lemma Head3Nearest(w: View, crc: Table, v: nat)
    requires v < w.pos && Head3Ok(w, crc, Hash3At(crc, w.text, w.at), v)
    ensures Nearest(w, w.pos - v, 3)
  {
    hide Hash3, Num;
    var d := w.pos - v;
    if d < w.size && At(w.text, w.at - d, 0) == At(w.text, w.at, 0) {
      Hash3Exact(crc, At(w.text, w.at, 0), At(w.text, w.at, 1), At(w.text, w.at, 2), At(w.text, w.at - d, 1), At(w.text, w.at - d, 2));
    }
    forall q: nat | q < w.at && Recent(w, q) && Agree(w.text, w.at, q, 3) ensures d <= w.at - q {
      assert At(w.text, w.at, 0) == At(w.text, q, 0) && At(w.text, w.at, 1) == At(w.text, q, 1) && At(w.text, w.at, 2) == At(w.text, q, 2);
      assert Hash3At(crc, w.text, q) == Hash3At(crc, w.text, w.at);
    }
  }

  // ---------- Sizes ----------

  /** The buffer: the history, what else is kept before and behind the position, and a reserve,
      smaller the longer the history. */
  function BlockSize(historySize: nat, keepAdded: nat): (size: nat)
    ensures historySize + 1 + keepAdded < size
  {
    historySize + 1 + keepAdded + keepAdded / 2 + 0x8_0000 +
    if historySize >= 0xC000_0000 then historySize / 8 else if historySize >= 0x8000_0000 then historySize / 4 else historySize / 2
  }

  /** For every history allowed the reserve leaves room for 44,000,000 bytes more. */
  lemma BlockSizeFits(historySize: nat, keepAdded: nat)
    requires historySize <= MAX_HISTORY_SIZE && keepAdded <= 44_000_000
    ensures BlockSize(historySize, keepAdded) <= MAX_VAL_FOR_NORMALIZE
  {
  }

  function Spread(x: bv32): bv32 {
    var x1 := x | (x >> 1);
    var x2 := x1 | (x1 >> 2);
    var x4 := x2 | (x2 >> 4);
    x4 | (x4 >> 8)
  }

  function MaskOf(numHashBytes: nat, last: bv32): bv32 {
    var hs := (Spread(last) >> 1) | 0xFFFF;
    if hs <= 0x100_0000 then hs else if numHashBytes == 3 then 0xFF_FFFF else hs >> 1
  }

  /** The mask of the main hash, from the size of the history. */
  function HashMask(numHashBytes: nat, historySize: nat): bv32
    requires 0 < historySize <= MAX_HISTORY_SIZE
  {
    MaskOf(numHashBytes, (historySize - 1) as bv32)
  }

  /** The mask is a row of ones, of 16 bits or more; three bytes have no more than 24. */
  lemma MaskIsOnes(numHashBytes: nat, last: bv32)
    ensures var m := MaskOf(numHashBytes, last);
            m & (m + 1) == 0 && m >= 0xFFFF && (numHashBytes == 3 ==> m <= 0xFF_FFFF)
  {
  }

  class MatchFinder {
    const numHashBytes: nat
    const historySize: nat
    const cyclicBufferSize: nat
    const matchMaxLen: nat
    const cutValue: nat
    const keepSizeBefore: nat
    const keepSizeAfter: nat
    const hashMask: bv32
    const crc: Table
    const bufferBase: array<octet>
    const hash: array<nat>
    const son: array<nat>
    const stream: ByteSource

    var buffer: nat
    var pos: nat
    var posLimit: nat
    var streamPos: nat
    var lenLimit: nat
    var cyclicBufferPos: nat
    var streamEndWasReached: bool
    var result: bool

    ghost var text: seq<octet>   // all bytes read so far
    ghost var at: nat            // the position in it
    ghost var bounds: Bounds
    ghost var plain: Refs        // heads and sons as they would be without renormalisation

    ghost function V(): View
      reads this`text, this`at, this`pos, this`lenLimit
    {
      View(text, at, pos, cyclicBufferSize, lenLimit)
    }

    ghost function F(): Setup {
      Setup(numHashBytes, crc, hashMask, cutValue)
    }

    /** The view with positions that only grow. */
    ghost function U(): View
      reads this`text, this`at, this`lenLimit
    {
      View(text, at, at + cyclicBufferSize, cyclicBufferSize, lenLimit)
    }

    /** The view of one who has all the text at hand. */
    ghost function WholeView(): View
      requires at <= |text|
      reads this`text, this`at, stream
    {
      ViewAt(text + stream.Rest(), at, cyclicBufferSize, matchMaxLen)
    }

    /** The references are the plain ones, renormalised. */
    ghost predicate Shadowed()
      reads this`at, this`pos, this`plain, hash, son
    {
      pos <= at + cyclicBufferSize && |plain.heads| == hash.Length && |plain.son| == son.Length &&
      hash[..] == Lowered(plain.heads, at + cyclicBufferSize - pos) && son[..] == Lowered(plain.son, at + cyclicBufferSize - pos)
    }

    ghost predicate Sizes() {
      2 <= numHashBytes <= 4 && 0 < historySize <= MAX_HISTORY_SIZE && cyclicBufferSize == historySize + 1 &&
      matchMaxLen <= keepSizeAfter && cyclicBufferSize <= keepSizeBefore && keepSizeBefore + keepSizeAfter < bufferBase.Length &&
      son.Length == 2 * cyclicBufferSize &&
      hash.Length >= HeadCount(F()) &&
      bufferBase as object != son && bufferBase as object != hash && hash != son
    }

    /** The buffer holds the text that was read, from far enough back. */
    ghost predicate Window()
      reads this`text, this`at, this`buffer, this`pos, this`streamPos, bufferBase
    {
      at <= |text| && buffer <= at && streamPos == pos + (|text| - at) && (buffer == at || keepSizeBefore <= buffer) &&
      buffer + (|text| - at) <= bufferBase.Length && bufferBase[..buffer + (|text| - at)] == text[at - buffer..]
    }

    /** Nothing is left in the stream once its end was seen. */
    ghost predicate EndSeen()
      reads this`streamEndWasReached, stream
    {
      streamEndWasReached ==> stream.Rest() == []
    }

    /** There is more ahead than has to be kept, or all there is, unless the stream failed. */
    ghost predicate Supplied()
      reads this`text, this`at, this`streamEndWasReached, this`result, stream
    {
      EndSeen() && (|text| - at > keepSizeAfter || streamEndWasReached || !result)
    }

    ghost predicate Limits()
      reads this`text, this`at, this`pos, this`posLimit, this`lenLimit, this`cyclicBufferPos
    {
      at <= |text| && cyclicBufferSize <= pos <= posLimit <= MAX_VAL_FOR_NORMALIZE && cyclicBufferSize > 0 &&
      cyclicBufferPos == Slot(at, cyclicBufferSize) && posLimit - pos <= cyclicBufferSize - cyclicBufferPos &&
      lenLimit == Min(matchMaxLen, |text| - at) && (pos < posLimit || at == |text|) &&
      (posLimit > pos + 1 ==> |text| - at - (posLimit - pos) >= keepSizeAfter)
    }

    /** The heads and trees for the positions before top, as long as there are bytes to hash. */
    ghost predicate RefsOk(w: View, top: nat)
      reads this`bounds, hash, son
    {
      Inserts(w) ==> TreeOk(w, son[..], bounds, top, 2 * cyclicBufferSize, 2 * cyclicBufferSize) &&
                        HeadsOk(w, crc, numHashBytes, hash[..])
    }

    predicate Inserts(w: View) {
      w.limit >= numHashBytes
    }

    ghost predicate Ready()
      reads this, bufferBase, hash, son, stream
    {
      Sizes() && Window() && Limits() && Supplied() && RefsOk(V(), at)
    }

    ghost predicate Valid()
      reads this, bufferBase, hash, son, stream
    {
      Ready() && Shadowed() && Entire()
    }

    /** Every position in the window can still be found. */
    ghost predicate Entire()
      reads this`text, this`at, this`lenLimit, this`plain
    {
      FindsAll(F(), U(), plain)
    }

    /** Unless the stream failed, matches may be as long as the whole text allows, however the
        stream delivers it. */
    lemma NothingCutShort()
      requires Valid() && result
      ensures lenLimit == Min(matchMaxLen, |text + stream.Rest()| - at)
    {
    }

    /** MatchFinder_Create: the sums are those of 32-bit numbers. */
    constructor (numHashBytes: nat, historySize: nat, keepAddBufferBefore: nat, matchMaxLen: nat, keepAddBufferAfter: nat,
                 cutValue: nat, crc: Table, stream: ByteSource)
      requires 2 <= numHashBytes <= 4 && 0 < historySize <= MAX_HISTORY_SIZE
      requires BlockSize(historySize, keepAddBufferBefore + matchMaxLen + keepAddBufferAfter) <= MAX_VAL_FOR_NORMALIZE
      ensures Sizes() && this.numHashBytes == numHashBytes && this.historySize == historySize && this.matchMaxLen == matchMaxLen
      ensures this.stream == stream && fresh(bufferBase) && fresh(hash) && fresh(son)
      ensures keepSizeBefore == historySize + keepAddBufferBefore + 1 && keepSizeAfter == matchMaxLen + keepAddBufferAfter
      ensures bufferBase.Length == BlockSize(historySize, keepAddBufferBefore + matchMaxLen + keepAddBufferAfter)
      ensures numHashBytes > 2 ==> hashMask == HashMask(numHashBytes, historySize)
    {
      this.numHashBytes := numHashBytes;
      this.historySize := historySize;
      cyclicBufferSize := historySize + 1;
      this.matchMaxLen := matchMaxLen;
      this.cutValue := cutValue;
      keepSizeBefore := historySize + keepAddBufferBefore + 1;
      keepSizeAfter := matchMaxLen + keepAddBufferAfter;
      var mask := if numHashBytes == 2 then 0xFFFF else HashMask(numHashBytes, historySize);
      SmallMasks();
      hashMask := mask;
      this.crc := crc;
      this.stream := stream;
      bufferBase := new octet[BlockSize(historySize, keepAddBufferBefore + matchMaxLen + keepAddBufferAfter)];
      hash := new nat[Num(mask) + 1 + (if numHashBytes > 2 then HASH2_SIZE else 0) + (if numHashBytes > 3 then HASH3_SIZE else 0)];
      son := new nat[2 * (historySize + 1)];
    }

    // ---------- The buffer ----------

    /** Writes data into the buffer, as the stream does. */
    method Store(dest: nat, data: seq<octet>)
      requires dest + |data| <= bufferBase.Length
      modifies bufferBase
      ensures bufferBase[..dest + |data|] == old(bufferBase[..dest]) + data
    {
      var i := 0;
      while i < |data|
        invariant i <= |data| && bufferBase[..dest + i] == old(bufferBase[..dest]) + data[..i]
      {
        bufferBase[dest + i] := data[i];
        i := i + 1;
      }
    }

    /** One call of the stream. */
    method ReadPiece() returns (more: bool)
      requires Sizes() && Window() && result && !streamEndWasReached
      modifies this`text, this`streamPos, this`streamEndWasReached, this`result, bufferBase, stream
      ensures Window() && old(text) <= text && text + stream.Rest() == old(text + stream.Rest()) && (result ==> old(result))
      ensures if more then |text| > |old(text)| && result && !streamEndWasReached
              else EndSeen() && (Supplied() || buffer + (|text| - at) == bufferBase.Length)
    {
      hide Window, AllData, Sizes;
      Room();
      var dest := buffer + (streamPos - pos);
      var size := bufferBase.Length - dest;
      if size == 0 {
        return false;
      }
      var ok, data := stream.Read(size);
      Conserved(text, data, stream.Rest());
      if !ok {
        result := false;
        return false;
      }
      if |data| == 0 {
        streamEndWasReached := true;
        return false;
      }
      Append(data);
      Room();
      more := streamPos - pos <= keepSizeAfter;
    }

    lemma Room()
      requires Sizes() && Window()
      ensures at <= |text| && streamPos == pos + (|text| - at) && buffer + (|text| - at) <= bufferBase.Length
    {
    }

    method Append(data: seq<octet>)
      requires Sizes() && Window() && buffer + (streamPos - pos) + |data| <= bufferBase.Length
      modifies this`text, this`streamPos, bufferBase
      ensures Window() && text == old(text) + data
    {
      Store(buffer + (streamPos - pos), data);
      ghost var text0 := text;
      text := text + data;
      streamPos := streamPos + |data|;
      assert text[at - buffer..] == text0[at - buffer..] + data;
    }

    /** MatchFinder_ReadBlock: reads until there is more than keepSizeAfter ahead, the buffer is
        full, or the stream ends or fails. */
    method ReadBlock()
      requires Sizes() && Window() && EndSeen()
      modifies this`text, this`streamPos, this`streamEndWasReached, this`result, bufferBase, stream
      ensures Window() && old(text) <= text && text + stream.Rest() == old(text + stream.Rest()) && (result ==> old(result))
      ensures Supplied() || (EndSeen() && buffer + (|text| - at) == bufferBase.Length)
    {
      if streamEndWasReached || !result {
        return;
      }
      var more := true;
      while more
        invariant Window() && old(text) <= text && text + stream.Rest() == old(text + stream.Rest()) && (result ==> old(result))
        invariant if more then result && !streamEndWasReached else EndSeen() && (Supplied() || buffer + (|text| - at) == bufferBase.Length)
        decreases bufferBase.Length - buffer - (|text| - at), more
      {
        more := ReadPiece();
      }
    }

    /** MatchFinder_MoveBlock: the history and what is ahead go to the start of the buffer. */
    method MoveBlock()
      requires Sizes() && Window() && keepSizeBefore <= buffer
      modifies bufferBase, this`buffer
      ensures Window() && buffer == keepSizeBefore
    {
      var from := buffer - keepSizeBefore;
      ghost var shown := bufferBase[..buffer + (|text| - at)];
      MoveDown(bufferBase, from, streamPos - pos + keepSizeBefore);
      assert shown[from..] == text[at - keepSizeBefore..];
      buffer := keepSizeBefore;
    }

    /** MatchFinder_CheckAndMoveAndRead: room is made before the buffer could be full too early. */
    method CheckAndMoveAndRead()
      requires Sizes() && Window() && EndSeen()
      modifies this`text, this`streamPos, this`streamEndWasReached, this`result, this`buffer, bufferBase, stream
      ensures Window() && Supplied() && old(text) <= text && text + stream.Rest() == old(text + stream.Rest()) && (result ==> old(result))
    {
      if bufferBase.Length - buffer <= keepSizeAfter {
        MoveBlock();
      }
      ReadBlock();
    }

    // ---------- From one position to the next ----------

    /** After a step: the limits of the position before still hold. */
    ghost predicate Placed()
      reads this, bufferBase, stream
    {
      Sizes() && Window() && EndSeen() && (|text| - at >= keepSizeAfter || streamEndWasReached || !result) && cyclicBufferSize <= pos <= MAX_VAL_FOR_NORMALIZE &&
      (cyclicBufferPos == Slot(at, cyclicBufferSize) || (cyclicBufferPos == cyclicBufferSize && Slot(at, cyclicBufferSize) == 0)) &&
      lenLimit == Min(matchMaxLen, |text| - at + 1)
    }

    ghost predicate Moved()
      reads this, bufferBase, hash, son, stream
    {
      Placed() && RefsOk(V(), at)
    }

    /** MatchFinder_Normalize: positions are counted anew, and nothing else changes. */
    method Normalize()
      requires Moved() && pos == posLimit == MAX_VAL_FOR_NORMALIZE
      modifies this`pos, this`posLimit, this`streamPos, hash, son
      ensures Moved() && pos < MAX_VAL_FOR_NORMALIZE
      ensures old(pos) - pos + cyclicBufferSize <= old(pos)
      ensures son[..] == Lowered(old(son[..]), old(pos) - pos) && hash[..] == Lowered(old(hash[..]), old(pos) - pos)
    {
      hide TreeOk, HeadsOk, Placed, Lowered;
      SubValue(pos);
      var subValue := (pos - historySize - 1) / NORMALIZE_STEP_MIN * NORMALIZE_STEP_MIN;
      ghost var w, heads0, son0 := V(), hash[..], son[..];
      Normalize3(subValue, hash);
      Normalize3(subValue, son);
      ReduceOffsets(subValue);
      if Inserts(w) {
        LoweredTree(w, son0, bounds, subValue);
        LoweredHeads(w, crc, numHashBytes, heads0, subValue);
      }
    }

    /** MatchFinder_ReduceOffsets. */
    method ReduceOffsets(subValue: nat)
      requires Placed() && pos == posLimit && subValue + cyclicBufferSize <= pos
      modifies this`pos, this`posLimit, this`streamPos
      ensures Placed() && pos == old(pos) - subValue && posLimit == pos
    {
      hide Slot, AllData, Sizes;
      posLimit := posLimit - subValue;
      pos := pos - subValue;
      streamPos := streamPos - subValue;
    }

    /** MatchFinder_GetSubValue: as much as the window leaves, in whole steps. */
    lemma SubValue(pos: nat)
      requires Placed() && pos == MAX_VAL_FOR_NORMALIZE
      ensures 0 <= pos - historySize - 1
      ensures var subValue := (pos - historySize - 1) / NORMALIZE_STEP_MIN * NORMALIZE_STEP_MIN;
              0 < subValue && subValue + cyclicBufferSize <= pos && 0 < cyclicBufferSize == historySize + 1
      ensures hash != son && bufferBase as object != hash && bufferBase as object != son
    {
    }

    method ReadMore()
      requires Moved() && streamPos - pos == keepSizeAfter
      modifies this`text, this`streamPos, this`streamEndWasReached, this`result, this`buffer, bufferBase, stream
      ensures Moved() && Supplied() && old(text) <= text && text + stream.Rest() == old(text + stream.Rest()) && (result ==> old(result))
    {
      hide TreeOk, HeadsOk, Slot, Window;
      ghost var w := V();
      Ahead();
      CheckAndMoveAndRead();
      Ahead();
      if Inserts(w) {
        ghost var more := Behind(w.text, text);
        LongerText(w, more, son[..], bounds);
        LongerTextHeads(w, more, crc, numHashBytes, hash[..]);
      }
    }

    lemma Ahead()
      requires Sizes() && Window()
      ensures at <= |text| && streamPos - pos == |text| - at && matchMaxLen <= keepSizeAfter && 0 < cyclicBufferSize
    {
    }

    /** MatchFinder_SetLimits: how far the finder may go before it has to look again. */
    method SetLimits(ghost was: nat)
      requires Sizes() && Window() && Supplied() && cyclicBufferSize <= pos < MAX_VAL_FOR_NORMALIZE && cyclicBufferPos == Slot(at, cyclicBufferSize)
      requires Min(matchMaxLen, |text| - at) <= was && RefsOk(V().(limit := was), at)
      modifies this`lenLimit, this`posLimit, this`bounds
      ensures Ready() && lenLimit <= was
    {
      hide RefsOk, Slot, Window, Supplied, AllData, Sizes;
      Ahead();
      var limit := MAX_VAL_FOR_NORMALIZE - pos;
      var limit2 := cyclicBufferSize - cyclicBufferPos;
      if limit2 < limit {
        limit := limit2;
      }
      limit2 := streamPos - pos;
      if limit2 <= keepSizeAfter {
        if limit2 > 0 {
          limit2 := 1;
        }
      } else {
        limit2 := limit2 - keepSizeAfter;
      }
      if limit2 < limit {
        limit := limit2;
      }
      lenLimit := streamPos - pos;
      if lenLimit > matchMaxLen {
        lenLimit := matchMaxLen;
      }
      posLimit := pos + limit;
      ShortenRefs(was);
    }

    ghost method ShortenRefs(was: nat)
      requires lenLimit <= was && RefsOk(V().(limit := was), at)
      modifies this`bounds
      ensures RefsOk(V(), at)
    {
      hide TreeOk, HeadsOk, Pow256, Shortened;
      var w := V().(limit := was);
      if Inserts(V()) {
        ShorterLimit(w, son[..], bounds, lenLimit);
        ShorterHeads(w, crc, numHashBytes, hash[..], lenLimit);
        bounds := Shortened(bounds, Pow256(w.limit - lenLimit));
      }
    }

    method CheckLimits()
      requires Moved() && pos == posLimit
      modifies this`pos, this`posLimit, this`streamPos, this`lenLimit, this`cyclicBufferPos, this`buffer, this`bounds, this`text,
               this`streamEndWasReached, this`result, bufferBase, hash, son, stream
      ensures Ready() && old(text) <= text && text + stream.Rest() == old(text + stream.Rest()) && (result ==> old(result))
      ensures lenLimit <= old(lenLimit)
      ensures pos <= old(pos) && son[..] == Lowered(old(son[..]), old(pos) - pos) && hash[..] == Lowered(old(hash[..]), old(pos) - pos)
    {
      hide Moved, Ready, Lowered;
      LoweredByNone(son[..]);
      LoweredByNone(hash[..]);
      BelowMax();
      if pos == MAX_VAL_FOR_NORMALIZE {
        Normalize();
      }
      Refill();
    }

    lemma BelowMax()
      requires Moved()
      ensures pos <= MAX_VAL_FOR_NORMALIZE && bufferBase as object != hash && bufferBase as object != son
    {
    }

    /** What MatchFinder_CheckLimits does whether or not positions were renormalised. */
    method Refill()
      requires Moved() && pos < MAX_VAL_FOR_NORMALIZE
      modifies this`posLimit, this`streamPos, this`lenLimit, this`cyclicBufferPos, this`buffer, this`bounds, this`text,
               this`streamEndWasReached, this`result, bufferBase, stream
      ensures Ready() && old(text) <= text && text + stream.Rest() == old(text + stream.Rest()) && (result ==> old(result))
      ensures lenLimit <= old(lenLimit)
    {
      hide TreeOk, HeadsOk, Slot, RefsOk, Window;
      Ahead();
      if !streamEndWasReached && keepSizeAfter == streamPos - pos {
        ReadMore();
      }
      if cyclicBufferPos == cyclicBufferSize {
        cyclicBufferPos := 0;
      }
      SetLimits(lenLimit);
    }

    /** The view of the finder once it has moved on. */
    ghost function Next(): View
      reads this`text, this`at, this`pos, this`lenLimit
    {
      V().(at := at + 1, pos := pos + 1)
    }

    /** MOVE_POS. */
    method MovePos()
      requires Sizes() && Window() && Limits() && Supplied() && at < |text| && RefsOk(Next(), at + 1)
      modifies this, bufferBase, hash, son, stream
      ensures Ready() && at == old(at) + 1 && old(text) <= text && text + stream.Rest() == old(text + stream.Rest()) && (result ==> old(result))
      ensures pos <= old(pos) + 1 && plain == old(plain) && lenLimit <= old(lenLimit)
      ensures son[..] == Lowered(old(son[..]), old(pos) + 1 - pos) && hash[..] == Lowered(old(hash[..]), old(pos) + 1 - pos)
    {
      hide Moved, Ready, Lowered, Window, Limits, Supplied, RefsOk, Sizes;
      LoweredByNone(son[..]);
      LoweredByNone(hash[..]);
      StepForward();
      if pos == posLimit {
        CheckLimits();
      }
    }

    method StepForward()
      requires Sizes() && Window() && Limits() && Supplied() && at < |text| && RefsOk(Next(), at + 1)
      modifies this`cyclicBufferPos, this`buffer, this`pos, this`at
      ensures pos == old(pos) + 1 && at == old(at) + 1 && if pos == posLimit then Moved() else Ready()
    {
      hide TreeOk, HeadsOk, Slot;
      NextSlot(at, cyclicBufferSize);
      cyclicBufferPos := cyclicBufferPos + 1;
      buffer := buffer + 1;
      pos := pos + 1;
      at := at + 1;
    }

    // ---------- Finding and skipping ----------

    /** The buffer shows the history and what is ahead. */
    lemma WindowShows()
      requires Sizes() && Window() && Limits()
      ensures Shows(bufferBase[..], buffer, V()) && ValidView(V())
    {
      hide Shows, Slot;
      ShowsText(bufferBase[..], buffer, V());
    }

    /** Byte k from here. */
    method Cur(k: nat) returns (b: octet)
      requires Sizes() && Window() && Limits() && k < lenLimit
      ensures b == At(text, at, k)
    {
      WindowShows();
      Seen(bufferBase[..], buffer, V(), at, k);
      b := bufferBase[buffer + k];
    }

    /** HASH4_CALC. */
    method HashValues4() returns (h2: nat, h3: nat, hv: nat)
      requires Sizes() && Window() && Limits() && 4 <= lenLimit
      ensures h2 == Hash2At(crc, text, at) && h3 == Hash3At(crc, text, at) && hv <= Num(hashMask)
      ensures numHashBytes == 4 ==> FIX4_HASH_SIZE + hv == MainAt(F(), text, at)
      ensures h2 < HASH2_SIZE && h3 < HASH3_SIZE
    {
      hide Slot, Hash2, Hash3, Hash4, Num, Window, Limits;
      var b0 := Cur(0);
      var b1 := Cur(1);
      var b2 := Cur(2);
      var b3 := Cur(3);
      SmallMasks();
      h2, h3, hv := Hash2(crc, b0, b1), Hash3(crc, b0, b1, b2, 0xFFFF), Hash4(crc, b0, b1, b2, b3, hashMask);
    }

    /** Takes the heads for four bytes and leaves this position in them. */
    method Heads4() returns (d2: nat, d3: nat, curMatch: nat)
      requires Valid() && numHashBytes == 4 <= lenLimit
      modifies hash
      ensures HeadsOk(Next(), crc, numHashBytes, hash[..])
      ensures Nearest(V(), d2, 2) && Nearest(V(), d3, 3)
      ensures Searchable(curMatch)
      ensures hash.Length >= HeadCount(F()) && hash[..] == Headed(F(), V(), old(hash[..]))
      ensures HeadsTaken(old(hash[..]), curMatch) && d2 == pos - old(hash[..])[Hash2At(crc, text, at)]
      ensures d3 == pos - old(hash[..])[FIX3_HASH_SIZE + Hash3At(crc, text, at)]
    {
      hide TreeOk, Slot, Hash2At, Hash3At, MainAt, Nearest, Head2Ok, Head3Ok, Num, Window, Limits, Shadowed, Entire, Supplied;
      MainInHeads(F(), text, at);
      var h2, h3, hv := HashValues4();
      ghost var w, heads := V(), hash[..];
      assert HeadOk(w, crc, 4, h2, heads[h2]) && HeadOk(w, crc, 4, FIX3_HASH_SIZE + h3, heads[FIX3_HASH_SIZE + h3]);
      assert HeadOk(w, crc, 4, FIX4_HASH_SIZE + hv, heads[FIX4_HASH_SIZE + hv]);
      Head2Nearest(w, crc, hash[h2]);
      Head3Nearest(w, crc, hash[FIX3_HASH_SIZE + h3]);
      d2 := pos - hash[h2];
      d3 := pos - hash[FIX3_HASH_SIZE + h3];
      curMatch := hash[FIX4_HASH_SIZE + hv];
      hash[h2] := pos;
      hash[FIX3_HASH_SIZE + h3] := pos;
      hash[FIX4_HASH_SIZE + hv] := pos;
      NewHeads(w, crc, 4, heads, hash[..]);
    }

    /** The main head for the bytes at hand. */
    ghost predicate HeadsTaken(heads: seq<nat>, curMatch: nat)
      reads this`text, this`at
    {
      |heads| >= HeadCount(F()) && MainAt(F(), text, at) < |heads| && curMatch == heads[MainAt(F(), text, at)] &&
      (numHashBytes > 2 ==> |heads| > FIX3_HASH_SIZE) && (numHashBytes > 3 ==> |heads| > FIX4_HASH_SIZE)
    }

    ghost predicate Searchable(curMatch: nat)
      reads this`text, this`at, this`pos, this`lenLimit, this`bounds, hash, son
    {
      son.Length == 2 * cyclicBufferSize && curMatch < pos && (Dead(V(), curMatch) || 0 <= Idx(V(), curMatch)) &&
      TreeOk(V(), son[..], bounds, at, 2 * cyclicBufferSize, 2 * cyclicBufferSize) && HeadsOk(Next(), crc, numHashBytes, hash[..])
    }

    /** The search of the tree, inserting this position. */
    method TreeMatches(curMatch: nat, maxLen: nat) returns (distances: seq<Found>)
      requires Sizes() && Window() && Limits() && Searchable(curMatch) && maxLen < lenLimit
      modifies son, this`bounds
      ensures RefsOk(Next(), at + 1) && Reported(V(), maxLen, distances)
      ensures distances == Pairs(V(), old(son[..]), curMatch, cutValue, maxLen) && son[..] == Inserted(V(), old(son[..]), curMatch, cutValue)
      ensures cutValue >= cyclicBufferSize ==> Unbeaten(V(), old(son[..]), curMatch, Longest(maxLen, distances))
    {
      hide TreeOk, HeadsOk, Slot, Shows, Reported, Window, Unbeaten, Pairs, Inserted;
      WindowShows();
      ghost var b;
      distances, b := GetMatchesSpec1(lenLimit, curMatch, pos, bufferBase, buffer, son, cyclicBufferPos, cyclicBufferSize, cutValue,
                                      maxLen, V(), bounds);
      NextPosition(V(), son[..], b);
      bounds := b;
    }

    method TreeSkip(curMatch: nat)
      requires Sizes() && Window() && Limits() && Searchable(curMatch) && 0 < lenLimit
      modifies son, this`bounds
      ensures RefsOk(Next(), at + 1) && son[..] == Inserted(V(), old(son[..]), curMatch, cutValue)
    {
      hide TreeOk, HeadsOk, Slot, Shows, Window, Inserted;
      WindowShows();
      ghost var b := SkipMatchesSpec(lenLimit, curMatch, pos, bufferBase, buffer, son, cyclicBufferPos, cyclicBufferSize, cutValue, V(), bounds);
      NextPosition(V(), son[..], b);
      bounds := b;
    }

    /** Whether the first byte agrees at distance d in the history. */
    method Hit(d: nat, ghost n: nat) returns (hit: bool)
      requires Sizes() && Window() && Limits() && Nearest(V(), d, n) && 0 < lenLimit
      ensures hit <==> d < cyclicBufferSize && At(text, at - d, 0) == At(text, at, 0)
      ensures 0 < d && (hit ==> d <= at && Agree(text, at, at - d, n)) && (hit <==> Hits(V(), d))
    {
      hide Slot, Shows, Agree, Nearest, Window, Limits;
      hit := false;
      NearestHits(V(), d, n);
      if d < cyclicBufferSize {
        WindowShows();
        Seen(bufferBase[..], buffer, V(), at, 0);
        Seen(bufferBase[..], buffer, V(), at - d, 0);
        hit := bufferBase[buffer - d] == bufferBase[buffer];
      }
    }

    /** The matches that the small hashes give; the last one is made as long as possible. */
    method ShortMatches4(d2: nat, d3: nat) returns (distances: seq<Found>, maxLen: nat)
      requires Sizes() && Window() && Limits() && Nearest(V(), d2, 2) && Nearest(V(), d3, 3) && 4 <= lenLimit
      ensures Reported(V(), 1, distances) && maxLen == Longest(0, distances) <= lenLimit && distances == HeadMatches4(V(), d2, d3)
    {
      hide Nearest, Window, Limits, Slot, Shows, Agree, Reported, Hits, Whole;
      distances, maxLen := [], 0;
      NothingReported(V(), 1);
      var d := d2;
      ghost var kept: seq<Found> := [];
      var hit2 := Hit(d2, 2);
      if hit2 {
        distances, maxLen := [Found(2, d2 - 1)], 2;
      }
      if d2 != d3 {
        var hit3 := Hit(d3, 3);
        if hit3 {
          if hit2 {
            JustTwo(V(), d2, d3);
            ReportedMore(V(), 1, [], Found(2, d2 - 1));
            kept := [Found(2, d2 - 1)];
          }
          distances, maxLen := distances + [Found(3, d3 - 1)], 3;
          d := d3;
        }
      }
      if |distances| != 0 {
        maxLen := Lengthen(d, maxLen);
        ReportedMore(V(), 1, kept, Found(maxLen, d - 1));
        distances := distances[|distances| - 1 := Found(maxLen, d - 1)];
        assert distances == kept + [Found(maxLen, d - 1)];
      }
    }

    /** UPDATE_maxLen. */
    method Lengthen(d: nat, len0: nat) returns (len: nat)
      requires Sizes() && Window() && Limits() && 0 < d <= at && d < cyclicBufferSize && 0 < len0 <= lenLimit && Agree(text, at, at - d, len0)
      ensures len0 <= len <= lenLimit && Genuine(V(), Found(len, d - 1)) && Found(len, d - 1) == Whole(V(), d)
    {
      hide Slot, Shows, Agree, Window, Common;
      WindowShows();
      Seen(bufferBase[..], buffer, V(), at - d, 0);
      len := CommonLength(bufferBase, buffer, d, len0, lenLimit, V());
      CommonIs(text, at, at - d, 0, lenLimit, len);
    }

    /** What every step keeps: the finder moves on by one, and bytes are only read, never lost. */
    twostate predicate Stepped()
      reads this, bufferBase, hash, son, stream
    {
      Valid() && Further()
    }

    twostate predicate Further()
      reads this, stream
    {
      at == old(at) + 1 && old(text) <= text && text + stream.Rest() == old(text + stream.Rest()) && (result ==> old(result))
    }

    /** What a step leaves: what the finder without renormalisation leaves, renormalised. */
    ghost method Shadow(heads: seq<nat>, sons: seq<nat>)
      requires Sizes() && Limits() && at < |text|
      requires pos <= at + cyclicBufferSize && |plain.heads| == |heads| == hash.Length && |plain.son| == |sons| == son.Length
      requires heads == Lowered(plain.heads, at + cyclicBufferSize - pos) && sons == Lowered(plain.son, at + cyclicBufferSize - pos)
      requires Sized(F(), V(), Refs(heads, sons)) && Refs(hash[..], son[..]) == Stored(F(), V(), Refs(heads, sons))
      modifies this`plain
      ensures Sized(F(), U(), old(plain)) && plain == Stored(F(), U(), old(plain)) && Shadowed()
      ensures Reports(F(), V(), Refs(heads, sons)) == Reports(F(), U(), old(plain))
    {
      hide Reports, Stored, Lowered, Slot;
      FinderUnmoved(F(), U(), plain, at + cyclicBufferSize - pos);
      plain := Stored(F(), U(), plain);
    }

    /** MOVE_POS, once the references are in step. */
    method MoveOn()
      requires Sizes() && Window() && Limits() && Supplied() && at < |text| && RefsOk(Next(), at + 1) && Shadowed()
      modifies this, bufferBase, hash, son, stream
      ensures Ready() && Shadowed() && Further() && plain == old(plain) && lenLimit <= old(lenLimit)
    {
      hide Window, Limits, Supplied, RefsOk, Lowered, Sizes;
      ghost var k, h, s, was := at + cyclicBufferSize - pos, plain.heads, plain.son, pos;
      MovePos();
      LoweredTwice(h, k, was + 1 - pos);
      LoweredTwice(s, k, was + 1 - pos);
    }

    /** The end of every step: the plain references are brought up to date, and the finder moves on. */
    method Finish(ghost heads: seq<nat>, ghost sons: seq<nat>)
      requires Sizes() && Window() && Limits() && Supplied() && at < |text| && RefsOk(Next(), at + 1)
      requires pos <= at + cyclicBufferSize && |plain.heads| == |heads| == hash.Length && |plain.son| == |sons| == son.Length
      requires heads == Lowered(plain.heads, at + cyclicBufferSize - pos) && sons == Lowered(plain.son, at + cyclicBufferSize - pos)
      requires Sized(F(), V(), Refs(heads, sons)) && Refs(hash[..], son[..]) == Stored(F(), V(), Refs(heads, sons)) && Entire()
      modifies this, bufferBase, hash, son, stream
      ensures Stepped() && Sized(F(), old(U()), old(plain)) && plain == Stored(F(), old(U()), old(plain))
      ensures Reports(F(), old(V()), Refs(heads, sons)) == Reports(F(), old(U()), old(plain))
    {
      hide Reports, Stored, Lowered, Slot, Window, Limits, Supplied, RefsOk, Sizes, FindsAll;
      ghost var w, refs := U(), plain;
      TextAhead();
      Shadow(heads, sons);
      MoveOn();
      FindsAllNext(F(), w, refs, Behind(w.text, text), lenLimit);
    }

    lemma TextAhead()
      requires Sizes() && Window() && Limits()
      ensures ValidView(U())
    {
      hide Slot;
    }

    lemma HasSizes()
      requires Sizes()
      ensures Sized(F(), V(), Refs(hash[..], son[..]))
    {
    }

    /** What is reported and what is left does not depend on how much of the text is in the buffer. */
    lemma AsWhole()
      requires Valid()
      ensures Sized(F(), V(), Refs(hash[..], son[..])) && Sized(F(), U(), plain) && Sized(F(), WholeView(), plain)
      ensures result ==> Reports(F(), U(), plain) == Reports(F(), WholeView(), plain) && Stored(F(), U(), plain) == Stored(F(), WholeView(), plain)
      ensures NothingMissed(F(), U(), Reports(F(), U(), plain))
    {
      hide Reports, Stored, RefsOk, Slot, Lowered, FindsAll, NothingMissed;
      TextAhead();
      MissesNothing(F(), U(), plain);
      if result {
        NothingCutShort();
        FinderInLonger(F(), U(), plain, stream.Rest());
      }
    }

    /** What a call reports, with what it leaves, is what the finder without renormalisation does at this position of the
        whole text; an uncut search leaves nothing longer behind. */
    twostate predicate Told(distances: seq<Found>)
      reads this, hash, son, stream
    {
      old(at) <= |old(text)| && Sized(F(), old(U()), old(plain)) &&
      distances == Reports(F(), old(U()), old(plain)) && plain == Stored(F(), old(U()), old(plain)) &&
      (old(result) ==> distances == Reports(F(), old(WholeView()), old(plain)) && plain == Stored(F(), old(WholeView()), old(plain))) &&
      NothingLonger(F(), old(V()), Refs(old(hash[..]), old(son[..])), distances) && NothingMissed(F(), old(U()), distances)
    }

    /** The search for one position, short matches first; only the longest of them counts for the tree. */
    method Search(short: seq<Found>, maxLen: nat, curMatch: nat) returns (distances: seq<Found>)
      requires Sizes() && Window() && Limits() && Searchable(curMatch) && maxLen == ToBeat(F(), short) <= lenLimit
      requires Reported(V(), 1, short) && (short == [] || short[|short| - 1].len <= maxLen)
      modifies son, this`bounds
      ensures RefsOk(Next(), at + 1) && Reported(V(), 1, distances)
      ensures distances == Sought(F(), V(), short, old(son[..]), curMatch) && son[..] == Inserted(V(), old(son[..]), curMatch, cutValue)
      ensures cutValue >= cyclicBufferSize ==> Unbeaten(V(), old(son[..]), curMatch, ToBeat(F(), distances))
    {
      hide TreeOk, HeadsOk, Slot, Window, Limits, Reported, Pairs, Inserted, Unbeaten, Shadowed;
      ghost var w, sons := V(), son[..];
      distances := short;
      if maxLen == lenLimit {
        TreeSkip(curMatch);
        UnbeatenAtLimit(w, sons, curMatch);
      } else {
        var more := TreeMatches(curMatch, maxLen);
        ReportedJoin(w, short, more, Longest(0, short), maxLen);
        ReportedLast(w, maxLen, more);
        distances := short + more;
      }
    }

    /** What is left in the heads and sons, and with it what is reported. */
    ghost predicate Left(refs: Refs)
      reads this`text, this`at, this`pos, this`lenLimit, hash, son
    {
      Sized(F(), V(), refs) && Refs(hash[..], son[..]) == Stored(F(), V(), refs)
    }

    ghost predicate Searched(refs: Refs, distances: seq<Found>)
      reads this`text, this`at, this`pos, this`lenLimit, hash, son
    {
      Left(refs) && distances == Reports(F(), V(), refs) && NothingLonger(F(), V(), refs, distances)
    }

    lemma NothingSought(refs: Refs)
      requires Sized(F(), V(), refs) && refs == Refs(hash[..], son[..]) && lenLimit < numHashBytes
      ensures Searched(refs, []) && RefsOk(Next(), at + 1)
    {
      StoredIs(F(), V(), refs);
    }

    lemma SearchDone(refs: Refs, short: seq<Found>, curMatch: nat, distances: seq<Found>)
      requires Sized(F(), V(), refs) && numHashBytes <= lenLimit && short == HeadMatches(F(), V(), refs) && HeadsTaken(refs.heads, curMatch)
      requires hash[..] == Headed(F(), V(), refs.heads) && son[..] == Inserted(V(), refs.son, curMatch, cutValue)
      requires distances == Sought(F(), V(), short, refs.son, curMatch)
      requires cutValue >= cyclicBufferSize ==> Unbeaten(V(), refs.son, curMatch, ToBeat(F(), distances))
      ensures Searched(refs, distances)
    {
      hide HeadMatches, Headed, Inserted, Sought, Unbeaten, ToBeat, Reports, Stored;
      StoredIs(F(), V(), refs);
    }

    method Step4() returns (distances: seq<Found>)
      requires Valid() && numHashBytes == 4
      modifies hash, son, this`bounds
      ensures RefsOk(Next(), at + 1) && Reported(V(), 1, distances) && Searched(Refs(old(hash[..]), old(son[..])), distances)
    {
      hide TreeOk, HeadsOk, Slot, Nearest, Window, Limits, Supplied, Shadowed, Entire, NothingMissed, Reported, Inserted, Unbeaten, Headed, Searched, Sought, ToBeat, HeadMatches4, HeadMatches3, MainAt, HeadCount, RefsOk, Nearest;
      distances := [];
      NothingReported(V(), 1);
      ghost var refs := Refs(hash[..], son[..]);
      HasSizes();
      if lenLimit < numHashBytes {
        NothingSought(refs);
      }
      if lenLimit >= 4 {
        var d2, d3, curMatch := Heads4();
        var maxLen;
        distances, maxLen := ShortMatches4(d2, d3);
        if maxLen < 3 {
          maxLen := 3;
        }
        ghost var short := distances;
        Beaten4(F(), short, maxLen);
        MatchesOf4(F(), V(), refs, d2, d3);
        distances := Search(distances, maxLen, curMatch);
        SearchDone(refs, short, curMatch, distances);
      }
    }

    /** Bt4_MatchFinder_GetMatches. */
    method Bt4GetMatches() returns (distances: seq<Found>)
      requires Valid() && numHashBytes == 4 && at < |text|
      modifies this, bufferBase, hash, son, stream
      ensures Stepped() && Reported(old(V()), 1, distances) && Told(distances)
    {
      hide TreeOk, HeadsOk, Slot, Window, Limits, Supplied, RefsOk, Reported, Lowered, Reports, Stored, NothingLonger, NothingMissed, Entire;
      ghost var heads, sons := hash[..], son[..];
      AsWhole();
      distances := Step4();
      Finish(heads, sons);
    }

    /** The references after num positions that were skipped are those after num positions that were searched. */
    twostate predicate Skipped(num: nat)
      reads this, bufferBase, hash, son, stream
    {
      Valid() && at == old(at) + num && old(text) <= text && text + stream.Rest() == old(text + stream.Rest()) && (result ==> old(result)) &&
      old(at) + num <= |old(text + stream.Rest())| && Sized(F(), ViewAt(old(text + stream.Rest()), old(at), cyclicBufferSize, matchMaxLen), old(plain)) &&
      (result ==> plain == StoredFrom(F(), old(text + stream.Rest()), old(at), num, cyclicBufferSize, matchMaxLen, old(plain)))
    }

    /** One position further. */
    lemma SkippedOne(all: seq<octet>, i: nat, n: nat, p0: Refs, p: Refs)
      requires i + n < |all| && Sized(F(), ViewAt(all, i, cyclicBufferSize, matchMaxLen), p0)
      requires p == StoredFrom(F(), all, i, n, cyclicBufferSize, matchMaxLen, p0)
      ensures Sized(F(), ViewAt(all, i + n, cyclicBufferSize, matchMaxLen), p)
      ensures Stored(F(), ViewAt(all, i + n, cyclicBufferSize, matchMaxLen), p) == StoredFrom(F(), all, i, n + 1, cyclicBufferSize, matchMaxLen, p0)
    {
      hide Stored;
    }

    lemma SkippedNone(p: Refs)
      requires Valid() && Sized(F(), WholeView(), p)
      ensures p == StoredFrom(F(), text + stream.Rest(), at, 0, cyclicBufferSize, matchMaxLen, p)
    {
    }

    method SkipStep4()
      requires Valid() && numHashBytes == 4
      modifies hash, son, this`bounds
      ensures RefsOk(Next(), at + 1) && Left(Refs(old(hash[..]), old(son[..])))
    {
      hide TreeOk, HeadsOk, Slot, Nearest, Window, Limits, Supplied, Shadowed, Entire, NothingMissed, Reported, Pairs, Inserted, Unbeaten, Headed, Reports, Stored;
      ghost var refs := Refs(hash[..], son[..]);
      HasSizes();
      StoredIs(F(), V(), refs);
      if lenLimit >= 4 {
        var d2, d3, curMatch := Heads4();
        TreeSkip(curMatch);
      }
    }

    /** Bt4_MatchFinder_Skip. */
    method Bt4Skip(num0: nat)
      requires Valid() && numHashBytes == 4 && 0 < num0 <= |text| - at
      modifies this, bufferBase, hash, son, stream
      ensures Skipped(num0)
    {
      hide TreeOk, HeadsOk, Slot, Window, Limits, Supplied, RefsOk, Lowered, Stored, StoredFrom, Reports, NothingMissed, Entire;
      var num := num0;
      AsWhole();
      SkippedNone(plain);
      while num != 0
        invariant num <= num0 && num <= |text| - at && Skipped(num0 - num)
      {
        ghost var heads, sons, all, p := hash[..], son[..], text + stream.Rest(), plain;
        AsWhole();
        SkipStep4();
        Finish(heads, sons);
        if result {
          SkippedOne(all, old(at), num0 - num, old(plain), p);
        }
        num := num - 1;
      }
    }

    /** Takes the heads for three bytes. */
    method Heads3() returns (d2: nat, curMatch: nat)
      requires Valid() && numHashBytes == 3 <= lenLimit
      modifies hash
      ensures HeadsOk(Next(), crc, numHashBytes, hash[..]) && Nearest(V(), d2, 2)
      ensures Searchable(curMatch)
      ensures hash.Length >= HeadCount(F()) && hash[..] == Headed(F(), V(), old(hash[..]))
      ensures HeadsTaken(old(hash[..]), curMatch) && d2 == pos - old(hash[..])[Hash2At(crc, text, at)]
    {
      hide TreeOk, Slot, Hash2, Hash3, Nearest, Head2Ok, Num, Window, Limits, Shadowed, Entire, Supplied;
      var b0 := Cur(0);
      var b1 := Cur(1);
      var b2 := Cur(2);
      var h2, hv := Hash2(crc, b0, b1), Hash3(crc, b0, b1, b2, hashMask);
      ghost var w, heads := V(), hash[..];
      assert HeadOk(w, crc, 3, h2, heads[h2]) && HeadOk(w, crc, 3, FIX3_HASH_SIZE + hv, heads[FIX3_HASH_SIZE + hv]);
      Head2Nearest(w, crc, hash[h2]);
      d2 := pos - hash[h2];
      curMatch := hash[FIX3_HASH_SIZE + hv];
      hash[h2] := pos;
      hash[FIX3_HASH_SIZE + hv] := pos;
      NewHeads(w, crc, 3, heads, hash[..]);
    }

    method Step3() returns (distances: seq<Found>)
      requires Valid() && numHashBytes == 3
      modifies hash, son, this`bounds
      ensures RefsOk(Next(), at + 1) && Reported(V(), 1, distances) && Searched(Refs(old(hash[..]), old(son[..])), distances)
    {
      hide TreeOk, HeadsOk, Slot, Nearest, Window, Limits, Supplied, Shadowed, Entire, NothingMissed, Reported, Inserted, Unbeaten, Headed, Searched, Sought, ToBeat, HeadMatches4, HeadMatches3, MainAt, HeadCount, RefsOk, Nearest;
      distances := [];
      NothingReported(V(), 1);
      ghost var refs := Refs(hash[..], son[..]);
      HasSizes();
      if lenLimit < numHashBytes {
        NothingSought(refs);
      }
      if lenLimit >= 3 {
        var d2, curMatch := Heads3();
        var maxLen;
        distances, maxLen := ShortMatches3(d2);
        ghost var short := distances;
        Beaten3(F(), short, maxLen);
        MatchesOf3(F(), V(), refs, d2);
        distances := Search(distances, maxLen, curMatch);
        SearchDone(refs, short, curMatch, distances);
      }
    }

    /** Bt3_MatchFinder_GetMatches. */
    method Bt3GetMatches() returns (distances: seq<Found>)
      requires Valid() && numHashBytes == 3 && at < |text|
      modifies this, bufferBase, hash, son, stream
      ensures Stepped() && Reported(old(V()), 1, distances) && Told(distances)
    {
      hide TreeOk, HeadsOk, Slot, Window, Limits, Supplied, RefsOk, Reported, Lowered, Reports, Stored, NothingLonger, NothingMissed, Entire;
      ghost var heads, sons := hash[..], son[..];
      AsWhole();
      distances := Step3();
      Finish(heads, sons);
    }

    method ShortMatches3(d2: nat) returns (distances: seq<Found>, maxLen: nat)
      requires Sizes() && Window() && Limits() && Nearest(V(), d2, 2) && 3 <= lenLimit
      ensures Reported(V(), 1, distances) && maxLen == Longest(2, distances) && Longest(0, distances) <= maxLen <= lenLimit && 2 <= maxLen
      ensures distances == HeadMatches3(V(), d2)
    {
      hide Nearest, Window, Limits, Slot, Shows, Agree, Reported, Hits, Whole;
      distances, maxLen := [], 2;
      NothingReported(V(), 1);
      var hit := Hit(d2, 2);
      if hit {
        maxLen := Lengthen(d2, maxLen);
        ReportedMore(V(), 1, [], Found(maxLen, d2 - 1));
        distances := [Found(maxLen, d2 - 1)];
      }
    }

    method SkipStep3()
      requires Valid() && numHashBytes == 3
      modifies hash, son, this`bounds
      ensures RefsOk(Next(), at + 1) && Left(Refs(old(hash[..]), old(son[..])))
    {
      hide TreeOk, HeadsOk, Slot, Nearest, Window, Limits, Supplied, Shadowed, Entire, NothingMissed, Reported, Pairs, Inserted, Unbeaten, Headed, Reports, Stored;
      ghost var refs := Refs(hash[..], son[..]);
      HasSizes();
      StoredIs(F(), V(), refs);
      if lenLimit >= 3 {
        var d2, curMatch := Heads3();
        TreeSkip(curMatch);
      }
    }

    /** Bt3_MatchFinder_Skip. */
    method Bt3Skip(num0: nat)
      requires Valid() && numHashBytes == 3 && 0 < num0 <= |text| - at
      modifies this, bufferBase, hash, son, stream
      ensures Skipped(num0)
    {
      hide TreeOk, HeadsOk, Slot, Window, Limits, Supplied, RefsOk, Lowered, Stored, StoredFrom, Reports, NothingMissed, Entire;
      var num := num0;
      AsWhole();
      SkippedNone(plain);
      while num != 0
        invariant num <= num0 && num <= |text| - at && Skipped(num0 - num)
      {
        ghost var heads, sons, all, p := hash[..], son[..], text + stream.Rest(), plain;
        AsWhole();
        SkipStep3();
        Finish(heads, sons);
        if result {
          SkippedOne(all, old(at), num0 - num, old(plain), p);
        }
        num := num - 1;
      }
    }

    /** HASH2_CALC: the two bytes themselves. */
    method Heads2() returns (curMatch: nat)
      requires Valid() && numHashBytes == 2 <= lenLimit
      modifies hash
      ensures HeadsOk(Next(), crc, numHashBytes, hash[..])
      ensures Searchable(curMatch)
      ensures hash.Length >= HeadCount(F()) && hash[..] == Headed(F(), V(), old(hash[..])) && HeadsTaken(old(hash[..]), curMatch)
    {
      hide TreeOk, Slot, Head2Ok, Head3Ok, Num, Window, Limits, Value, Shadowed;
      var b0 := Cur(0);
      var b1 := Cur(1);
      var hv := Value(b0) + 0x100 * Value(b1);
      ghost var w, heads := V(), hash[..];
      assert HeadOk(w, crc, 2, hv, heads[hv]);
      curMatch := hash[hv];
      hash[hv] := pos;
      NewHeads(w, crc, 2, heads, hash[..]);
    }

    method Step2() returns (distances: seq<Found>)
      requires Valid() && numHashBytes == 2
      modifies hash, son, this`bounds
      ensures RefsOk(Next(), at + 1) && Reported(V(), 1, distances) && Searched(Refs(old(hash[..]), old(son[..])), distances)
    {
      hide TreeOk, HeadsOk, Slot, Nearest, Window, Limits, Supplied, Shadowed, Entire, NothingMissed, Reported, Inserted, Unbeaten, Headed, Searched, Sought, ToBeat, HeadMatches4, HeadMatches3, MainAt, HeadCount, RefsOk, Nearest;
      distances := [];
      NothingReported(V(), 1);
      ghost var refs := Refs(hash[..], son[..]);
      HasSizes();
      if lenLimit < numHashBytes {
        NothingSought(refs);
      }
      if lenLimit >= 2 {
        var curMatch := Heads2();
        Beaten2(F());
        distances := Search([], 1, curMatch);
        SearchDone(refs, [], curMatch, distances);
      }
    }

    /** Bt2_MatchFinder_GetMatches. */
    method Bt2GetMatches() returns (distances: seq<Found>)
      requires Valid() && numHashBytes == 2 && at < |text|
      modifies this, bufferBase, hash, son, stream
      ensures Stepped() && Reported(old(V()), 1, distances) && Told(distances)
    {
      hide TreeOk, HeadsOk, Slot, Window, Limits, Supplied, RefsOk, Reported, Lowered, Reports, Stored, NothingLonger, NothingMissed, Entire;
      ghost var heads, sons := hash[..], son[..];
      AsWhole();
      distances := Step2();
      Finish(heads, sons);
    }

    method SkipStep2()
      requires Valid() && numHashBytes == 2
      modifies hash, son, this`bounds
      ensures RefsOk(Next(), at + 1) && Left(Refs(old(hash[..]), old(son[..])))
    {
      hide TreeOk, HeadsOk, Slot, Nearest, Window, Limits, Supplied, Shadowed, Entire, NothingMissed, Reported, Pairs, Inserted, Unbeaten, Headed, Reports, Stored;
      ghost var refs := Refs(hash[..], son[..]);
      HasSizes();
      StoredIs(F(), V(), refs);
      if lenLimit >= 2 {
        var curMatch := Heads2();
        TreeSkip(curMatch);
      }
    }

    /** Bt2_MatchFinder_Skip. */
    method Bt2Skip(num0: nat)
      requires Valid() && numHashBytes == 2 && 0 < num0 <= |text| - at
      modifies this, bufferBase, hash, son, stream
      ensures Skipped(num0)
    {
      hide TreeOk, HeadsOk, Slot, Window, Limits, Supplied, RefsOk, Lowered, Stored, StoredFrom, Reports, NothingMissed, Entire;
      var num := num0;
      AsWhole();
      SkippedNone(plain);
      while num != 0
        invariant num <= num0 && num <= |text| - at && Skipped(num0 - num)
      {
        ghost var heads, sons, all, p := hash[..], son[..], text + stream.Rest(), plain;
        AsWhole();
        SkipStep2();
        Finish(heads, sons);
        if result {
          SkippedOne(all, old(at), num0 - num, old(plain), p);
        }
        num := num - 1;
      }
    }

    /** MatchFinder_Init: everything is empty, and the first block is read. */
    method Init()
      requires Sizes()
      modifies this, bufferBase, hash, stream
      ensures Valid() && at == 0 && text + stream.Rest() == old(stream.Rest())
      ensures plain == Refs(seq(hash.Length, _ => 0), son[..])
    {
      hide Window, Limits, Supplied, RefsOk, FindsAll, Lowered;
      ReadFirst();
      plain := Refs(hash[..], son[..]);
      LoweredByNone(hash[..]);
      LoweredByNone(son[..]);
      FindsAllStart(F(), U(), plain);
    }

    method ReadFirst()
      requires Sizes()
      modifies this, bufferBase, hash, stream
      ensures Ready() && at == 0 && pos == cyclicBufferSize && text + stream.Rest() == old(stream.Rest())
      ensures forall i | 0 <= i < hash.Length :: hash[i] == 0
    {
      hide TreeOk, HeadsOk, Window, Slot;
      Clear();
      Reset();
      ReadBlock();
      EmptyTree();
      FirstSlot();
      Ahead();
      SetLimits(matchMaxLen);
    }

    lemma FirstSlot()
      requires Sizes()
      ensures Slot(0, cyclicBufferSize) == 0 && cyclicBufferSize < MAX_VAL_FOR_NORMALIZE
    {
    }

    method Reset()
      requires Sizes()
      modifies this
      ensures Window() && text == [] && at == 0 && bounds == Bounds([], []) && pos == cyclicBufferSize && cyclicBufferPos == 0
      ensures buffer == 0 && result && !streamEndWasReached
    {
      cyclicBufferPos := 0;
      buffer := 0;
      pos, streamPos := cyclicBufferSize, cyclicBufferSize;
      posLimit, lenLimit := pos, 0;
      result := true;
      streamEndWasReached := false;
      text, at, bounds := [], 0, Bounds([], []);
    }

    lemma EmptyTree()
      requires Sizes() && at == 0 && bounds == Bounds([], []) && pos == cyclicBufferSize && forall i | 0 <= i < hash.Length :: hash[i] == 0
      ensures RefsOk(V().(limit := matchMaxLen), 0)
    {
      hide Hash2At, Hash3At;
    }

    method Clear()
      modifies hash
      ensures forall i | 0 <= i < hash.Length :: hash[i] == 0
    {
      var i := 0;
      while i < hash.Length
        invariant i <= hash.Length && forall j | 0 <= j < i :: hash[j] == 0
      {
        hash[i] := 0;
        i := i + 1;
      }
    }
  }

  /** The short matches, then those of the tree that are longer. */
  function Sought(f: Setup, w: View, short: seq<Found>, son: seq<nat>, curMatch: nat): seq<Found>
    requires w.size > 0 && |son| == 2 * w.size
  {
    if ToBeat(f, short) == w.limit then short else short + Pairs(w, son, curMatch, f.cutValue, ToBeat(f, short))
  }

  /** Unless the search was cut short, no match in the tree is longer than those reported, if it is long enough to be. */
  ghost predicate NothingLonger(f: Setup, w: View, refs: Refs, distances: seq<Found>) {
    Sized(f, w, refs) && MainAt(f, w.text, w.at) < |refs.heads| &&
    (w.limit >= f.numHashBytes && f.cutValue >= w.size ==> Unbeaten(w, refs.son, refs.heads[MainAt(f, w.text, w.at)], ToBeat(f, distances)))
  }

  lemma Beaten4(f: Setup, short: seq<Found>, maxLen: nat)
    requires f.numHashBytes == 4 && maxLen == if Longest(0, short) < 3 then 3 else Longest(0, short)
    ensures maxLen == ToBeat(f, short) && (short == [] || short[|short| - 1].len <= maxLen)
  {
  }

  lemma Beaten3(f: Setup, short: seq<Found>, maxLen: nat)
    requires f.numHashBytes == 3 && maxLen == Longest(2, short) >= 2
    ensures maxLen == ToBeat(f, short) && (short == [] || short[|short| - 1].len <= maxLen)
  {
  }

  lemma Beaten2(f: Setup)
    ensures f.numHashBytes == 2 ==> ToBeat(f, []) == 1
  {
  }

  lemma MatchesOf4(f: Setup, w: View, refs: Refs, d2: int, d3: int)
    requires Sized(f, w, refs) && f.numHashBytes == 4 && |refs.heads| > FIX4_HASH_SIZE
    requires d2 == w.pos - refs.heads[Hash2At(f.crc, w.text, w.at)] && d3 == w.pos - refs.heads[FIX3_HASH_SIZE + Hash3At(f.crc, w.text, w.at)]
    ensures HeadMatches(f, w, refs) == HeadMatches4(w, d2, d3)
  {
  }

  lemma MatchesOf3(f: Setup, w: View, refs: Refs, d2: int)
    requires Sized(f, w, refs) && f.numHashBytes == 3 && |refs.heads| > FIX3_HASH_SIZE
    requires d2 == w.pos - refs.heads[Hash2At(f.crc, w.text, w.at)]
    ensures HeadMatches(f, w, refs) == HeadMatches3(w, d2)
  {
  }

  lemma StoredIs(f: Setup, w: View, refs: Refs)
    requires Sized(f, w, refs)
    ensures MainAt(f, w.text, w.at) < |refs.heads|
    ensures if w.limit < f.numHashBytes then Reports(f, w, refs) == [] && Stored(f, w, refs) == refs
            else
              var curMatch := refs.heads[MainAt(f, w.text, w.at)];
              Reports(f, w, refs) == Sought(f, w, HeadMatches(f, w, refs), refs.son, curMatch) &&
              Stored(f, w, refs) == Refs(Headed(f, w, refs.heads), Inserted(w, refs.son, curMatch, f.cutValue))
  {
    hide MainAt, HeadMatches, Pairs, Inserted, Headed, HeadCount;
    MainInHeads(f, w.text, w.at);
  }

  lemma ReportedLast(w: View, maxLen: nat, ds: seq<Found>)
    requires Reported(w, maxLen, ds)
    ensures Longest(maxLen, ds) >= maxLen
  {
    if ds != [] {
      ReportedLast(w, maxLen, ds[..|ds| - 1]);
    }
  }

  lemma {:induction false} ReportedJoin(w: View, short: seq<Found>, more: seq<Found>, found: nat, maxLen: nat)
    requires Reported(w, 1, short) && Reported(w, maxLen, more) && found == Longest(0, short) <= maxLen && 1 <= maxLen
    ensures Reported(w, 1, short + more)
    decreases |more|
  {
    hide Genuine;
    if more == [] {
      assert short + more == short;
    } else {
      var rest, f := more[..|more| - 1], more[|more| - 1];
      ReportedJoin(w, short, rest, found, maxLen);
      ReportedMore(w, 1, short + rest, f);
      assert short + more == short + rest + [f];
    }
  }

  /** When both small hashes hit at different distances, the nearer match has just two bytes. */
  lemma JustTwo(w: View, d2: nat, d3: nat)
    requires Nearest(w, d2, 2) && Nearest(w, d3, 3) && d2 != d3 && 0 < w.size
    requires d2 <= w.at && d2 < w.size && Agree(w.text, w.at, w.at - d2, 2)
    requires d3 <= w.at && d3 < w.size && Agree(w.text, w.at, w.at - d3, 3)
    ensures At(w.text, w.at, 2) != At(w.text, w.at - d2, 2)
  {
    assert Recent(w, w.at - d2) && Recent(w, w.at - d3);
    assert Agree(w.text, w.at, w.at - d3, 2);
    assert Agree(w.text, w.at, w.at - d2, 3) <==> At(w.text, w.at, 2) == At(w.text, w.at - d2, 2);
  }

  ghost predicate Holds(win: seq<octet>, cur: nat, w: View) {
    w.at + w.limit <= |w.text| && cur <= w.at && (cur == w.at || w.size <= cur) &&
    cur + (|w.text| - w.at) <= |win| && win[..cur + (|w.text| - w.at)] == w.text[w.at - cur..]
  }

  lemma ShowsText(win: seq<octet>, cur: nat, w: View)
    requires Holds(win, cur, w)
    ensures Shows(win, cur, w)
  {
    hide Holds, Shown;
    forall p: nat, k: nat | Recent(w, p) && k < w.limit ensures Shown(win, cur, w, p, k) {
      ShowsByte(win, cur, w, p, k);
    }
  }

  lemma ShowsByte(win: seq<octet>, cur: nat, w: View, p: nat, k: nat)
    requires Holds(win, cur, w) && Recent(w, p) && k < w.limit
    ensures Shown(win, cur, w, p, k)
  {
    SameByte(win, cur + (|w.text| - w.at), w.text, w.at - cur, cur - (w.at - p) + k);
  }

  lemma SameByte(win: seq<octet>, n: nat, text: seq<octet>, from: nat, j: nat)
    requires n <= |win| && from <= |text| && win[..n] == text[from..] && j < n
    ensures from + j < |text| && win[j] == text[from + j]
  {
    assert win[..n][j] == text[from..][j];
  }

  lemma TimesNext(q: nat, m: nat)
    ensures (q + 1) * m == q * m + m
  {
  }

  lemma NextSlot(p: nat, size: nat)
    requires size > 0
    ensures Slot(p + 1, size) == (if Slot(p, size) + 1 == size then 0 else Slot(p, size) + 1)
  {
    var q, r := p / size, p % size;
    DivMod(p, size);
    if r + 1 == size {
      TimesNext(q, size);
      ModUnique(p + 1, size, q + 1, 0);
    } else {
      ModUnique(p + 1, size, q, r + 1);
    }
  }

  lemma Conserved(text: seq<octet>, data: seq<octet>, rest: seq<octet>)
    ensures text + (data + rest) == text + data + rest && (data == [] ==> text + data == text)
  {
  }

  ghost function Behind(a: seq<octet>, b: seq<octet>): (more: seq<octet>)
    requires a <= b
    ensures a + more == b
  {
    b[|a|..]
  }

  /** memmove to the start of the array. */
  method MoveDown(a: array<octet>, from: nat, n: nat)
    requires from + n <= a.Length
    modifies a
    ensures a[..n] == old(a[..from + n])[from..]
  {
    ghost var before := a[..];
    var i := 0;
    while i < n
      invariant i <= n && forall j | 0 <= j < i :: a[j] == before[from + j]
      invariant forall j | i <= j < a.Length :: a[j] == before[j]
    {
      a[i] := a[from + i];
      i := i + 1;
    }
  }

  /** MatchFinder_Normalize3. */
  method Normalize3(subValue: nat, items: array<nat>)
    modifies items
    ensures items[..] == Lowered(old(items[..]), subValue)
  {
    var i := 0;
    while i < items.Length
      invariant i <= items.Length
      invariant forall j | 0 <= j < items.Length :: items[j] == if j < i then Reduced(old(items[j]), subValue) else old(items[j])
    {
      var value := items[i];
      if value <= subValue {
        value := 0;
      } else {
        value := value - subValue;
      }
      items[i] := value;
      i := i + 1;
    }
  }
}
