/** The LZMA decoder: bits are taken from the input while a circular dictionary is filled. */
module LzmaDecoder {
  import opened Arith
  import opened Bytes
  import opened RangeCoder
  import opened LzmaModel
  import opened LzmaTokens
  import opened LzmaStream
  import opened LzmaLookahead
  import opened LzmaInputBound
  import opened LzmaFollow
  import opened LzmaDummy

  const MATCH_SPEC_LEN_START := 274

  // ---------- The circular dictionary ----------

  /** Index of the byte j positions before dicPos. */
  function Back(dicPos: nat, size: nat, j: nat): (i: nat)
    requires 1 <= j <= size && dicPos <= size
    ensures i < size
  {
    if j <= dicPos then dicPos - j else dicPos + size - j
  }

  /** The dictionary holds the last bytes of the text, as many as fit. */
  ghost predicate Window(dic: seq<byte>, dicPos: nat, text: seq<byte>) {
    dicPos <= |dic| &&
    forall j | 1 <= j <= |dic| && j <= |text| :: dic[Back(dicPos, |dic|, j)] == text[|text| - j]
  }

  lemma WindowEnds(dic: seq<byte>, dicPos: nat, text: seq<byte>)
    requires Window(dic, dicPos, text)
    ensures dicPos <= |dic|
  {
  }

  /** At its end the dictionary reads like one that starts over. */
  lemma WindowWraps(dic: seq<byte>, text: seq<byte>)
    requires Window(dic, |dic|, text)
    ensures Window(dic, 0, text)
  {
    forall j {:trigger Back(0, |dic|, j)} | 1 <= j <= |dic| && j <= |text| ensures dic[Back(0, |dic|, j)] == text[|text| - j] {
      assert Back(0, |dic|, j) == Back(|dic|, |dic|, j);
    }
  }

  lemma WindowPush(dic: seq<byte>, dicPos: nat, text: seq<byte>, b: byte)
    requires Window(dic, dicPos, text) && dicPos < |dic|
    ensures Window(dic[dicPos := b], dicPos + 1, text + [b])
  {
    var dic', text' := dic[dicPos := b], text + [b];
    forall j {:trigger Back(dicPos + 1, |dic'|, j)} | 1 <= j <= |dic'| && j <= |text'|
      ensures dic'[Back(dicPos + 1, |dic'|, j)] == text'[|text'| - j]
    {
      if j > 1 {
        assert Back(dicPos + 1, |dic'|, j) == Back(dicPos, |dic|, j - 1);
      }
    }
  }

  const RC_INIT_SIZE := 5

  datatype SRes = Ok | ErrorData | ErrorInputEof | ErrorFail
  datatype Status = NotSpecified | FinishedWithMark | NotFinished | NeedsMoreInput | MaybeFinishedWithoutMark
  datatype FinishMode = FinishAny | FinishEnd

  /** Where the decoder was at the start of a call: what it had taken and what it had written. */
  datatype Moment = Moment(stream: seq<byte>, text: seq<byte>, dicPos: nat)

  /** How much text the decoder will have written when it reaches dicLimit. */
  function Reach(was: Moment, dicLimit: nat): int {
    |was.text| + dicLimit - was.dicPos
  }

  /** How one symbol ended. */
  datatype Outcome = Done | DataError | EndMarked

  class LzmaDec {
    const props: Props
    const probs: array<nat>
    const dic: array<byte>

    var mem: seq<byte>        // what buf points into
    var buf: nat
    var range: nat
    var code: nat
    var dicPos: nat
    var processedPos: nat
    var checkDicSize: nat
    var state: nat
    var rep0: nat
    var rep1: nat
    var rep2: nat
    var rep3: nat
    var remainLen: nat
    var needFlush: bool
    var needInitState: bool
    const tempBuf: array<byte>
    var tempBufSize: nat

    ghost var text: seq<byte>   // everything written to dic so far
    ghost var lz: Lz            // the machine after the last token, with a cut match completed
    ghost var stream: seq<byte> // all the input taken so far
    ghost var base: seq<byte>   // the part of the stream before mem
    ghost var count: nat        // tokens read so far

    /** The decoder as the reading functions see it. */
    ghost function D(): Dec
      reads this`range, this`code, this`buf, probs
    {
      Dec(Reader(range, code, buf), probs[..], true)
    }

    ghost predicate Sound()
      reads this`lz, this`state, this`rep0, this`rep1, this`rep2, this`rep3, probs
    {
      ValidProps(props) && probs.Length == NumProbs(props) && GoodProbs(probs[..]) &&
      ValidLz(props, lz) && state == lz.state && RepsAre(lz.reps)
    }

    ghost predicate Valid()
      reads this, probs
    {
      Sound() && buf <= |mem| && 0x10000 <= range < WORD
    }

    /** The decoder counts distances from 1. */
    ghost predicate RepsAre(r: Reps)
      reads this`rep0, this`rep1, this`rep2, this`rep3
    {
      rep0 == r.r0 + 1 && rep1 == r.r1 + 1 && rep2 == r.r2 + 1 && rep3 == r.r3 + 1
    }

    /** The dictionary holds the text, and the size check is armed when it has to be. */
    ghost predicate TextOk()
      reads this`dicPos, this`text, this`processedPos, this`checkDicSize, dic
    {
      Window(dic[..], dicPos, text) && processedPos == Wrap(|text|) &&
      (checkDicSize == 0 ==> processedPos == |text| <= props.dicSize) &&
      (checkDicSize != 0 ==> checkDicSize == props.dicSize <= |text|) &&
      (dic.Length >= props.dicSize || |text| <= dicPos)
    }

    // ---------- Bits ----------

    method NormalizeCode()
      requires Normalize(mem, D().rd).Some?
      modifies this`range, this`code, this`buf
      ensures D().rd == Normalize(mem, old(D()).rd).value
    {
      if range < TOP {
        range := range * 256;
        code := (code * 256 + mem[buf]) % WORD;
        buf := buf + 1;
      }
    }

    method BitDecode(a: nat) returns (bit: bool)
      requires GoodProbs(probs[..]) && ReadModelled(mem, D(), a).Some?
      modifies this`range, this`code, this`buf, probs
      ensures GoodProbs(probs[..]) && ReadModelled(mem, old(D()), a) == Some((bit, D()))
    {
      var ttt := probs[a];
      NormalizeCode();
      var bound := range / BIT_MODEL_TOTAL * ttt;
      if code < bound {
        range := bound;
        probs[a] := ttt + (BIT_MODEL_TOTAL - ttt) / 32;
        bit := false;
      } else {
        range := range - bound;
        code := code - bound;
        probs[a] := ttt - ttt / 32;
        bit := true;
      }
    }

    /** TREE_DECODE before its offset is taken away: node numbers until limit is reached. */
    method TreeDecode(base: nat, n: nat) returns (m: nat)
      requires n > 0 && GoodProbs(probs[..]) && TreeRead(mem, D(), base, 1, n).Some?
      modifies this`range, this`code, this`buf, probs
      ensures GoodProbs(probs[..]) && TreeRead(mem, old(D()), base, 1, n) == Some((m, D()))
    {
      hide Wrap, ReadModelled;
      var limit := Pow2(n);
      m := 1;
      ghost var left := n;
      ghost var goal := TreeRead(mem, D(), base, 1, n);
      while m < limit
        invariant 0 <= left <= n && GoodProbs(probs[..]) && Pow2(n - left) <= m < Pow2(n - left + 1)
        invariant TreeRead(mem, D(), base, m, left) == goal
        decreases left
      {
        var bit := BitDecode(base + m);
        m := m + m + (if bit then 1 else 0);
        left := left - 1;
      }
      Pow2Order(n - left + 1, n);
    }

    method ReverseDecode(base: nat, n: nat, mask0: nat, distance0: nat) returns (distance: nat)
      requires GoodProbs(probs[..]) && ReverseRead(mem, D(), base, 1, n, mask0, distance0).Some?
      modifies this`range, this`code, this`buf, probs
      ensures GoodProbs(probs[..]) && ReverseRead(mem, old(D()), base, 1, n, mask0, distance0) == Some((distance, D()))
    {
      hide Wrap, ReadModelled;
      distance := distance0;
      var mask, i: nat, numBits := mask0, 1, n;
      ghost var goal := ReverseRead(mem, D(), base, 1, n, mask0, distance0);
      while numBits != 0
        invariant GoodProbs(probs[..]) && mask >= 0
        invariant ReverseRead(mem, D(), base, i, numBits, mask, distance) == goal
      {
        var bit := BitDecode(base + i);
        i := i + i + (if bit then 1 else 0);
        if bit {
          distance := distance + mask;   // distance |= mask
        }
        mask := mask * 2;
        numBits := numBits - 1;
      }
    }

    method DirectDecode(n: nat, distance0: nat) returns (distance: nat)
      requires DirectRead(mem, D(), n, distance0).Some?
      modifies this`range, this`code, this`buf
      ensures DirectRead(mem, old(D()), n, distance0) == Some((distance, D()))
    {
      distance := distance0;
      var numDirectBits := n;
      ghost var goal := DirectRead(mem, D(), n, distance0);
      while numDirectBits != 0
        invariant DirectRead(mem, D(), numDirectBits, distance) == goal
      {
        NormalizeCode();
        range := range / 2;
        code := (code - range) % WORD;
        var t := code >= WORD / 2;   // the sign bit of code
        distance := distance * 2 + (if t then 0 else 1);
        if t {
          code := (code + range) % WORD;
        }
        numDirectBits := numDirectBits - 1;
      }
    }

    method MatchedDecode(base: nat, match0: byte) returns (symbol: nat)
      requires GoodProbs(probs[..]) && MatchedRead(mem, D(), base, 1, 8, match0, true).Some?
      modifies this`range, this`code, this`buf, probs
      ensures GoodProbs(probs[..]) && MatchedRead(mem, old(D()), base, 1, 8, match0, true) == Some((symbol, D()))
    {
      hide Wrap, ReadModelled;
      symbol := 1;
      var matchByte: nat, offs := match0, 0x100;
      var i := 0;
      ghost var goal := MatchedRead(mem, D(), base, 1, 8, match0, true);
      while i < 8
        invariant i <= 8 && GoodProbs(probs[..]) && matchByte == match0 * Pow2(i) && (offs == 0x100 || offs == 0)
        invariant MatchedRead(mem, D(), base, symbol, 8 - i, match0, offs == 0x100) == goal
      {
        ShiftedMatch(match0, i);
        matchByte := matchByte * 2;
        var bit := AndMask(matchByte, offs);
        var b := BitDecode(base + offs + bit + symbol);
        symbol := symbol + symbol + (if b then 1 else 0);
        offs := if b then bit else offs - bit;                                       // offs &= bit, offs &= ~bit
        i := i + 1;
      }
    }

    // ---------- Parts of a symbol ----------

    method LenDecode(base: nat, posState: nat) returns (len: nat)
      requires GoodProbs(probs[..]) && LenRead(mem, D(), base, posState).Some?
      modifies this`range, this`code, this`buf, probs
      ensures GoodProbs(probs[..]) && LenRead(mem, old(D()), base, posState) == Some((len, D()))
    {
      hide Wrap, ReadModelled, TreeRead;
      Powers();
      var choice := BitDecode(base + LEN_CHOICE);
      if !choice {
        len := TreeDecode(base + LEN_LOW + posState * 8, 3);
        len := len - 8;
      } else {
        var choice2 := BitDecode(base + LEN_CHOICE2);
        if !choice2 {
          len := TreeDecode(base + LEN_MID + posState * 8, 3);
        } else {
          len := TreeDecode(base + LEN_HIGH, 8);
          len := len - 0x100 + 16;
        }
      }
    }

    method DistanceDecode(len: nat) returns (distance: nat)
      requires GoodProbs(probs[..]) && DistanceRead(mem, D(), len).Some?
      modifies this`range, this`code, this`buf, probs
      ensures GoodProbs(probs[..]) && DistanceRead(mem, old(D()), len) == Some((distance, D()))
    {
      hide Wrap, ReadModelled, TreeRead, ReverseRead, DirectRead;
      Powers();
      var posSlot := TreeDecode(POS_SLOT + (if len < 3 then len else 3) * 64, 6);
      posSlot := posSlot - 0x40;
      distance := posSlot;
      if posSlot >= START_POS_MODEL {
        var numDirectBits := posSlot / 2 - 1;
        distance := 2 + posSlot % 2;
        if posSlot < END_POS_MODEL {
          SpecBase(posSlot);
          distance := distance * Pow2(numDirectBits);
          distance := ReverseDecode(SPEC_POS + distance - posSlot - 1, numDirectBits, 1, distance);
        } else {
          distance := DirectDecode(numDirectBits - 4, distance);
          distance := ReverseDecode(ALIGN, 4, 1, distance * 16);
        }
      }
    }

    /** The choice bits of a repeated match: the chosen distance comes to the front. */
    method RepDecode(posState: nat, ghost c: Context) returns (long: bool, ghost index: nat)
      requires c.state == state && c.posState == posState
      requires GoodProbs(probs[..]) && RepRead(mem, D(), c).Some?
      modifies this`range, this`code, this`buf, probs, this`rep0, this`rep1, this`rep2, this`rep3
      ensures GoodProbs(probs[..]) && index < 4 && (!long ==> index == 0)
      ensures forall r: Reps :: old(RepsAre(r)) ==> RepsAre(r.ToFront(index))
      ensures !long ==> RepRead(mem, old(D()), c) == Some((ShortRep, D()))
      ensures long ==> LenRead(mem, D(), REP_LEN_CODER, posState).Some?
      ensures long ==> var (len, d) := LenRead(mem, D(), REP_LEN_CODER, posState).value;
                       RepRead(mem, old(D()), c) == Some((Rep(index, len + MATCH_MIN_LEN), d))
    {
      hide Wrap, ReadModelled, LenRead;
      var g0 := BitDecode(IS_REP_G0 + state);
      if !g0 {
        index := 0;
        long := BitDecode(IS_REP0_LONG + state * 16 + posState);
      } else {
        long := true;
        var distance;
        var g1 := BitDecode(IS_REP_G1 + state);
        if !g1 {
          index := 1;
          distance := rep1;
        } else {
          var g2 := BitDecode(IS_REP_G2 + state);
          if !g2 {
            index := 2;
            distance := rep2;
          } else {
            index := 3;
            distance := rep3;
            rep3 := rep2;
          }
          rep2 := rep1;
        }
        rep1 := rep0;
        rep0 := distance;
      }
    }

    // ---------- The dictionary ----------

    /** dic at distance rep0: dicPos - rep0 + (dicPos < rep0 ? dicBufSize : 0). */
    method ByteAtRep0() returns (b: byte)
      requires Window(dic[..], dicPos, text) && 1 <= rep0 <= |text| && rep0 <= dic.Length
      ensures b == text[|text| - rep0]
    {
      assert dic[..][Back(dicPos, dic.Length, rep0)] == text[|text| - rep0];
      b := dic[if dicPos < rep0 then dicPos - rep0 + dic.Length else dicPos - rep0];
    }

    method PutByte(b: byte)
      requires dicPos < dic.Length && Window(dic[..], dicPos, text)
      modifies dic, this`dicPos, this`text
      ensures dicPos == old(dicPos) + 1 && text == old(text) + [b] && Window(dic[..], dicPos, text)
    {
      WindowPush(dic[..], dicPos, text, b);
      dic[dicPos] := b;
      dicPos := dicPos + 1;
      text := text + [b];
      assert dic[..] == old(dic[..])[old(dicPos) := b];
    }

    /** The copy of a match, in its straight and its wrapping form. */
    method CopyBlock(curLen: nat)
      requires curLen >= 1 && dicPos + curLen <= dic.Length && Window(dic[..], dicPos, text)
      requires 1 <= rep0 <= |text| && rep0 <= dic.Length
      modifies dic, this`dicPos, this`text
      ensures dicPos == old(dicPos) + curLen && text == CopyMatch(old(text), rep0 - 1, curLen)
      ensures Window(dic[..], dicPos, text)
    {
      hide Wrap, Window, CopyMatch;
      var left := curLen;
      var pos := if dicPos < rep0 then dicPos - rep0 + dic.Length else dicPos - rep0;
      var straight := curLen <= dic.Length - pos;
      ghost var goal := CopyMatch(text, rep0 - 1, curLen);
      while left != 0
        invariant left <= curLen && dicPos == old(dicPos) + curLen - left
        invariant Window(dic[..], dicPos, text) && rep0 <= |text|
        invariant left > 0 ==> pos == Back(dicPos, dic.Length, rep0)
        invariant straight ==> left == 0 || left <= dic.Length - pos
        invariant CopyMatch(text, rep0 - 1, left) == goal
      {
        CopyStep(dic[..], dicPos, text, rep0, left);
        PutByte(dic[pos]);
        pos := pos + 1;
        if !straight && pos == dic.Length {
          pos := 0;
        }
        left := left - 1;
      }
      CopyNothing(text, rep0 - 1);
    }

    // ---------- Literals ----------

    /** The decoder's own way to the literal coder finds the one of the context. */
    lemma LiteralContext()
      requires Sound() && TextOk()
      ensures dicPos <= dic.Length && ((processedPos != 0 || checkDicSize != 0) <==> text != [])
      ensures text != [] ==>
                dic.Length > 0 && dic[(if dicPos == 0 then dic.Length else dicPos) - 1] == text[|text| - 1] &&
                forall prev: byte :: LiteralBase(props, processedPos, prev) == LiteralBase(props, |text|, prev)
    {
      if text != [] {
        assert dic[..][Back(dicPos, dic.Length, 1)] == text[|text| - 1];
        PositionWraps(|text|, props.lp);
      }
    }

    /** Where the literal coder of the context is. */
    method LiteralProb(ghost c: Context) returns (prob: nat)
      requires Sound() && TextOk() && text == lz.text && c == ContextOf(props, lz)
      ensures prob == c.lit && prob + LITERAL_SIZE <= probs.Length && state == c.state < NUM_STATES
    {
      hide Wrap, Window, LiteralBase, GoodProbs;
      ContextIsValid(props, lz);
      LiteralContext();
      prob := LITERAL;
      if processedPos != 0 || checkDicSize != 0 {
        prob := LiteralBase(props, processedPos, dic[(if dicPos == 0 then dic.Length else dicPos) - 1]);
      }
    }

    method MatchByte(ghost c: Context) returns (b: byte)
      requires Sound() && TextOk() && text == lz.text && c == ContextOf(props, lz) && state >= NUM_LIT_STATES
      ensures b == c.matchByte
    {
      hide Wrap, Window, LiteralBase, GoodProbs;
      LiteralContext();
      RepFits(props, lz, 0, dicPos, dic.Length);
      b := ByteAtRep0();
    }

    method LiteralDecode(ghost c: Context) returns (b: byte)
      requires Sound() && TextOk() && text == lz.text && c == ContextOf(props, lz) && dicPos < dic.Length
      requires LiteralRead(mem, D(), c).Some?
      modifies this`range, this`code, this`buf, probs, this`state
      ensures GoodProbs(probs[..]) && LiteralRead(mem, old(D()), c) == Some((Literal(b), D()))
      ensures state == LiteralNext(old(state))
    {
      hide TextOk, TreeRead, MatchedRead, ContextOf, GoodProbs, ValidLz;
      var prob := LiteralProb(c);
      var symbol;
      Powers();
      if state < NUM_LIT_STATES {
        state := state - (if state < 4 then state else 3);
        symbol := TreeDecode(prob, 8);
      } else {
        var matchByte := MatchByte(c);
        state := state - (if state < 10 then 3 else 6);
        symbol := MatchedDecode(prob, matchByte);
      }
      b := symbol % 256;
    }

    // ---------- Matches ----------

    /** The end of a match: as much as the limit allows is copied, the rest stays in remainLen. */
    method CopyOut(limit: nat, len0: nat) returns (ok: bool)
      requires TextOk() && dicPos <= limit <= dic.Length && len0 >= 1
      requires 1 <= rep0 <= |text| && rep0 <= props.dicSize < WORD
      requires checkDicSize == 0 ==> |text| + (limit - dicPos) <= props.dicSize
      modifies dic, this`dicPos, this`text, this`processedPos, this`remainLen
      ensures ok <==> old(dicPos) < limit
      ensures TextOk() && old(dicPos) <= dicPos <= limit && (!ok ==> text == old(text))
      ensures ok ==> remainLen <= len0 && text == CopyMatch(old(text), rep0 - 1, len0 - remainLen)
      ensures |text| + old(dicPos) == |old(text)| + dicPos
      ensures ok ==> old(dicPos) < dicPos <= limit && (remainLen > 0 ==> dicPos == limit)
    {
      hide Wrap, Window, CopyMatch;
      var rem := limit - dicPos;
      ok := rem != 0;
      if ok {
        var curLen := if rem < len0 then rem else len0;
        WrapAdd(|text|, curLen);
        WrapSmall(|text| + curLen);
        processedPos := Wrap(processedPos + curLen);
        remainLen := len0 - curLen;
        CopyBlock(curLen);
      }
    }

    /** A match that is not repeated, after its length. */
    method MatchDistance(len: nat) returns (distance: nat, ok: bool)
      requires TextOk() && ValidProps(props) && state < NUM_STATES && RepsAre(lz.reps)
      requires GoodProbs(probs[..]) && DistanceRead(mem, D(), len).Some?
      modifies this`range, this`code, this`buf, probs, this`rep0, this`rep1, this`rep2, this`rep3, this`state
      ensures GoodProbs(probs[..]) && DistanceRead(mem, old(D()), len) == Some((distance, D()))
      ensures distance == END_MARKER_DISTANCE ==> ok && state == old(state) && RepsAre(lz.reps)
      ensures distance != END_MARKER_DISTANCE ==>
                (ok <==> Reachable(props, text, distance)) && (ok ==> state == MatchNext(old(state)) && RepsAre(lz.reps.Push(distance)))
    {
      hide Wrap, DistanceRead, Window, GoodProbs, Reachable;
      DistanceCheck(props, text, processedPos, checkDicSize);
      distance := DistanceDecode(len);
      ok := true;
      if distance != END_MARKER_DISTANCE {
        rep3 := rep2;
        rep2 := rep1;
        rep1 := rep0;
        rep0 := distance + 1;
        if checkDicSize == 0 {
          ok := distance < processedPos;
        } else {
          ok := distance < checkDicSize;
        }
        if ok {
          state := if state < NUM_LIT_STATES then NUM_LIT_STATES else NUM_LIT_STATES + 3;
        }
      }
    }

    // ---------- One symbol ----------

    /** What remainLen stands for: the part of the last match that the limit cut off. */
    ghost predicate PendingOk(limit: nat)
      reads this`remainLen, this`lz, this`text, this`dicPos, this`rep0
    {
      if remainLen == 0 then lz.text == text
      else
        remainLen < MATCH_SPEC_LEN_START && dicPos == limit && 1 <= rep0 <= |text| && lz.text == CopyMatch(text, rep0 - 1, remainLen)
    }

    /** There is room up to limit, and the dictionary size is not passed unnoticed. */
    ghost predicate LimitOk(limit: nat)
      reads this`dicPos, this`checkDicSize, this`text
    {
      dicPos <= limit <= dic.Length && (checkDicSize == 0 ==> |text| + (limit - dicPos) <= props.dicSize)
    }

    /** The machine moved on by t. */
    twostate predicate MovedBy(t: Token)
      reads this
    {
      Applicable(props, old(lz), t) && lz == Next(props, old(lz), t) && state == lz.state && RepsAre(lz.reps)
    }

    method DecodeRep(limit: nat, posState: nat, ghost c: Context) returns (ok: bool)
      requires Sound() && TextOk() && text == lz.text && LimitOk(limit) && dicPos < limit && remainLen == 0
      requires c == ContextOf(props, lz) && posState == c.posState && RepRead(mem, D(), c).Some?
      modifies this`range, this`code, this`buf, this`state, this`rep0, this`rep1, this`rep2, this`rep3, this`remainLen,
               this`dicPos, this`processedPos, this`text, this`lz, probs, dic
      ensures GoodProbs(probs[..])
      ensures |text| + old(dicPos) == |old(text)| + dicPos
      ensures var (t, d) := old(RepRead(mem, D(), c).value);
              (ok <==> Applicable(props, old(lz), t)) && (ok ==> MovedBy(t) && D() == d) && (!ok ==> lz == old(lz) && text == old(text))
      ensures TextOk() && dicPos <= limit && (ok ==> PendingOk(limit) && old(dicPos) < dicPos)
    {
      hide Wrap, RepRead, LenRead, Window, CopyMatch, ContextOf, ValidLz, Reachable, Next, Applicable, Normalize, GoodProbs;
      StartTest();
      if checkDicSize == 0 && processedPos == 0 {
        RepTokenShape(mem, D(), c);
        NothingToRepeat(props, lz, RepRead(mem, D(), c).value.0);
        return false;
      }
      var long := ChooseRep(posState, c);
      if !long {
        ShortRepOut(limit);
        ok := true;
      } else {
        ok := RepOut(limit, posState);
      }
      CopyNothing(text, rep0 - 1);
    }

    /** The choice of a repeated match, and where the whole match will take the machine. */
    method ChooseRep(posState: nat, ghost c: Context) returns (long: bool)
      requires Sound() && TextOk() && text == lz.text != [] && dicPos <= dic.Length
      requires c == ContextOf(props, lz) && posState == c.posState && RepRead(mem, D(), c).Some?
      modifies this`range, this`code, this`buf, probs, this`rep0, this`rep1, this`rep2, this`rep3, this`lz
      ensures GoodProbs(probs[..]) && 1 <= rep0 <= |text| && rep0 <= dic.Length && rep0 <= props.dicSize && state < NUM_STATES
      ensures var (t, d) := old(RepRead(mem, D(), c).value);
              Applicable(props, old(lz), t) && lz == Next(props, old(lz), t) && RepsAre(lz.reps) &&
              (!long ==> D() == d && lz.state == ShortRepNext(state) && lz.text == CopyMatch(text, rep0 - 1, 1)) &&
              (long ==> LenRead(mem, D(), REP_LEN_CODER, posState).Some? && lz.state == RepNext(state) &&
                        var (len, d') := LenRead(mem, D(), REP_LEN_CODER, posState).value;
                        d' == d && lz.text == CopyMatch(text, rep0 - 1, len + MATCH_MIN_LEN))
    {
      hide Wrap, RepRead, LenRead, Window, CopyMatch, ContextOf, ValidLz, Reachable, Next, Applicable, Normalize, GoodProbs;
      ghost var t := RepRead(mem, D(), c).value.0;
      RepTokenShape(mem, D(), c);
      ContextState(props, lz);
      ghost var index;
      long, index := RepDecode(posState, c);
      RepFits(props, lz, index, dicPos, dic.Length);
      RepMoves(props, lz, t, index);
      lz := Next(props, lz, t);
    }

    /** The single byte of a short repeat. */
    method ShortRepOut(ghost limit: nat)
      requires TextOk() && LimitOk(limit) && dicPos < limit && state < NUM_STATES && ValidProps(props)
      requires 1 <= rep0 <= |text| && rep0 <= dic.Length
      modifies dic, this`dicPos, this`text, this`processedPos, this`state
      ensures TextOk() && text == CopyMatch(old(text), rep0 - 1, 1) && dicPos == old(dicPos) + 1
      ensures state == ShortRepNext(old(state)) && |text| + old(dicPos) == |old(text)| + dicPos
    {
      hide Wrap, Window, CopyMatch;
      CopyOne(text, rep0 - 1);
      var b := ByteAtRep0();
      WrapAdd(|text|, 1);
      WrapSmall(|text| + 1);
      PutByte(b);
      processedPos := Wrap(processedPos + 1);
      state := if state < NUM_LIT_STATES then 9 else 11;
    }

    /** The length and the copy of a repeated match. */
    method RepOut(limit: nat, posState: nat) returns (ok: bool)
      requires TextOk() && LimitOk(limit) && dicPos < limit && state < NUM_STATES && ValidProps(props)
      requires 1 <= rep0 <= |text| && rep0 <= dic.Length && rep0 <= props.dicSize
      requires GoodProbs(probs[..]) && LenRead(mem, D(), REP_LEN_CODER, posState).Some?
      modifies this`range, this`code, this`buf, probs, dic, this`dicPos, this`text, this`processedPos, this`state, this`remainLen
      ensures GoodProbs(probs[..]) && ok && TextOk() && old(dicPos) < dicPos <= limit
      ensures state == RepNext(old(state)) && |text| + old(dicPos) == |old(text)| + dicPos
      ensures var (len, d) := old(LenRead(mem, D(), REP_LEN_CODER, posState).value);
              D() == d && rep0 <= |text| && remainLen <= len + MATCH_MIN_LEN && (remainLen > 0 ==> dicPos == limit) &&
              CopyMatch(text, rep0 - 1, remainLen) == CopyMatch(old(text), rep0 - 1, len + MATCH_MIN_LEN)
    {
      hide Wrap, LenRead, Window, CopyMatch;
      state := if state < NUM_LIT_STATES then 8 else 11;
      var len := LenDecode(REP_LEN_CODER, posState);
      ok := CopyOut(limit, len + MATCH_MIN_LEN);
      CopyTwice(old(text), rep0 - 1, len + MATCH_MIN_LEN - remainLen, remainLen);
    }

    method DecodeMatch(limit: nat, posState: nat, ghost c: Context) returns (res: Outcome)
      requires Sound() && TextOk() && text == lz.text && LimitOk(limit) && remainLen == 0
      requires c == ContextOf(props, lz) && posState == c.posState && MatchRead(mem, D(), c).Some?
      modifies this`range, this`code, this`buf, this`state, this`rep0, this`rep1, this`rep2, this`rep3, this`remainLen,
               this`dicPos, this`processedPos, this`text, this`lz, probs, dic
      ensures GoodProbs(probs[..])
      ensures |text| + old(dicPos) == |old(text)| + dicPos
      ensures var (t, d) := old(MatchRead(mem, D(), c).value);
              (res == EndMarked <==> t.distance == END_MARKER_DISTANCE) &&
              (res == DataError <==> res != EndMarked && (!Applicable(props, old(lz), t) || old(dicPos) == limit)) &&
              (res == Done ==> MovedBy(t)) && (res != DataError ==> D() == d) && (res == DataError ==> lz == old(lz) && text == old(text)) &&
              (res == EndMarked ==> remainLen == t.len - MATCH_MIN_LEN + MATCH_SPEC_LEN_START >= MATCH_SPEC_LEN_START)
      ensures TextOk() && dicPos <= limit && (res == Done ==> PendingOk(limit) && old(dicPos) < dicPos)
      ensures res == EndMarked ==> lz == old(lz) && text == lz.text && state == lz.state && RepsAre(lz.reps) && dicPos == old(dicPos)
    {
      hide Wrap, LenRead, DistanceRead, Window, CopyMatch, ContextOf, Reachable, Next, Applicable, Normalize, GoodProbs, ValidLz;
      StateBound(props, lz);
      ghost var t := MatchRead(mem, D(), c).value.0;
      MatchTokenShape(mem, D(), c);
      var len := LenDecode(LEN_CODER, posState);
      DistanceInWord(mem, D(), len);
      var distance, ok := MatchDistance(len);
      if distance == END_MARKER_DISTANCE {
        remainLen := len + MATCH_SPEC_LEN_START;
        return EndMarked;
      }
      if !ok {
        MatchMoves(props, lz, distance, len + MATCH_MIN_LEN);
        return DataError;
      }
      ok := MatchOut(limit, len, distance);
      res := if ok then Done else DataError;
    }

    /** The copy of a match whose distance has been accepted. */
    method MatchOut(limit: nat, len: nat, ghost distance: nat) returns (ok: bool)
      requires TextOk() && text == lz.text && LimitOk(limit) && lz.state < NUM_STATES && ValidProps(props)
      requires Reachable(props, text, distance) && ValidToken(Match(distance, len + MATCH_MIN_LEN))
      requires RepsAre(lz.reps.Push(distance)) && state == MatchNext(lz.state)
      modifies dic, this`dicPos, this`text, this`processedPos, this`remainLen, this`lz
      ensures |text| + old(dicPos) == |old(text)| + dicPos
      ensures Applicable(props, old(lz), Match(distance, len + MATCH_MIN_LEN)) && (ok <==> old(dicPos) < limit)
      ensures if ok then MovedBy(Match(distance, len + MATCH_MIN_LEN)) else lz == old(lz) && text == old(text)
      ensures TextOk() && dicPos <= limit && (ok ==> PendingOk(limit) && old(dicPos) < dicPos)
    {
      hide Wrap, Window, CopyMatch, Reachable, Next, Applicable;
      MatchMoves(props, lz, distance, len + MATCH_MIN_LEN);
      ghost var text0 := text;
      ok := CopyOut(limit, len + MATCH_MIN_LEN);
      if ok {
        lz := Next(props, lz, Match(distance, len + MATCH_MIN_LEN));
        CopyTwice(text0, rep0 - 1, len + MATCH_MIN_LEN - remainLen, remainLen);
        CopyNothing(text, rep0 - 1);
      }
    }

    method DecodeLiteral(ghost limit: nat, ghost c: Context)
      requires Sound() && TextOk() && text == lz.text && LimitOk(limit) && dicPos < limit && remainLen == 0
      requires c == ContextOf(props, lz) && LiteralRead(mem, D(), c).Some?
      modifies this`range, this`code, this`buf, this`state, this`rep0, this`rep1, this`rep2, this`rep3, this`remainLen,
               this`dicPos, this`processedPos, this`text, this`lz, probs, dic
      ensures GoodProbs(probs[..])
      ensures |text| + old(dicPos) == |old(text)| + dicPos
      ensures var (t, d) := old(LiteralRead(mem, D(), c).value); MovedBy(t) && D() == d
      ensures TextOk() && PendingOk(limit) && dicPos == old(dicPos) + 1
    {
      hide Wrap, LiteralRead, Window, ContextOf, Normalize, GoodProbs, Next, Applicable, ValidLz, LiteralBase, Run, CopyMatch;
      var b := LiteralDecode(c);
      StateBound(props, lz);
      LiteralMoves(props, lz, b);
      WrapAdd(|text|, 1);
      WrapSmall(|text| + 1);
      processedPos := Wrap(processedPos + 1);
      PutByte(b);
      lz := Next(props, lz, Literal(b));
    }

    /** A match or a repeated match. */
    method DecodeNonLiteral(limit: nat, posState: nat, ghost c: Context) returns (res: Outcome)
      requires Sound() && TextOk() && text == lz.text && LimitOk(limit) && remainLen == 0
      requires c == ContextOf(props, lz) && posState == c.posState && NonLiteralRead(mem, D(), c).Some?
      requires dicPos < limit || NonLiteralRead(mem, D(), c).value.0.Match?
      modifies this`range, this`code, this`buf, this`state, this`rep0, this`rep1, this`rep2, this`rep3, this`remainLen,
               this`dicPos, this`processedPos, this`text, this`lz, probs, dic
      ensures GoodProbs(probs[..]) && |text| + old(dicPos) == |old(text)| + dicPos
      ensures var (t, d) := old(NonLiteralRead(mem, D(), c).value);
              !t.Literal? && (res == EndMarked <==> IsEndMarker(t)) &&
              (res == DataError <==> res != EndMarked && (!Applicable(props, old(lz), t) || old(dicPos) == limit)) &&
              (res == Done ==> MovedBy(t)) && (res != DataError ==> D() == d) && (res != Done ==> lz == old(lz) && text == lz.text)
      ensures TextOk() && dicPos <= limit && (res == Done ==> PendingOk(limit) && old(dicPos) < dicPos)
      ensures res == EndMarked ==> text == lz.text && state == lz.state && RepsAre(lz.reps) && dicPos == old(dicPos) &&
                                   remainLen >= MATCH_SPEC_LEN_START
    {
      hide GoodProbs, Wrap, ReadModelled, RepRead, MatchRead, Window, ContextOf, Normalize, Next, Applicable, ValidLz, CopyMatch, PendingOk;
      ContextState(props, lz);
      var isRep := BitDecode(IS_REP + state);
      if !isRep {
        MatchTokenShape(mem, D(), c);
        res := DecodeMatch(limit, posState, c);
      } else {
        RepTokenShape(mem, D(), c);
        var ok := DecodeRep(limit, posState, c);
        res := if ok then Done else DataError;
      }
    }

    /** One round of the loop of LzmaDec_DecodeReal. */
    method DecodeOne(limit: nat) returns (res: Outcome)
      requires Valid() && TextOk() && text == lz.text && LimitOk(limit) && remainLen == 0
      requires TokenRead(mem, D(), ContextOf(props, lz)).Some?
      requires dicPos < limit || TokenRead(mem, D(), ContextOf(props, lz)).value.0.Match?
      modifies this`range, this`code, this`buf, this`state, this`rep0, this`rep1, this`rep2, this`rep3, this`remainLen,
               this`dicPos, this`processedPos, this`text, this`lz, probs, dic
      ensures |text| + old(dicPos) == |old(text)| + dicPos
      ensures res == DataError ==> lz == old(lz) && text == lz.text
      ensures var (t, d) := old(TokenRead(mem, D(), ContextOf(props, lz)).value);
              (res == EndMarked <==> t.Match? && t.distance == END_MARKER_DISTANCE) &&
              (res == DataError <==> res != EndMarked && (!Applicable(props, old(lz), t) || old(dicPos) == limit)) &&
              (res == Done ==> Applicable(props, old(lz), t) && lz == Next(props, old(lz), t) && D() == d) &&
              (res == EndMarked ==> lz == old(lz) && D() == d && remainLen >= MATCH_SPEC_LEN_START)
      ensures TextOk() && dicPos <= limit && (res == Done ==> Valid() && PendingOk(limit) && old(dicPos) < dicPos)
      ensures res == EndMarked ==> Valid() && text == lz.text && dicPos == old(dicPos)
    {
      hide GoodProbs, Wrap, ReadModelled, LiteralRead, RepRead, MatchRead, Window, ContextOf, Normalize, Next, Applicable, ValidLz, CopyMatch, PendingOk;
      ghost var c, lz0 := ContextOf(props, lz), lz;
      ghost var t, d := TokenRead(mem, D(), c).value.0, TokenRead(mem, D(), c).value.1;
      PositionWraps(|text|, props.pb);
      ContextState(props, lz);
      ContextIsValid(props, lz);
      TokenKeepsGood(mem, D(), c);
      var posState := processedPos % Pow2(props.pb);
      var isMatch := BitDecode(IS_MATCH + state * 16 + posState);
      if !isMatch {
        LiteralTokenShape(mem, D(), c);
        DecodeLiteral(limit, c);
        res := Done;
      } else {
        res := DecodeNonLiteral(limit, posState, c);
      }
      if res == Done {
        NextIsValid(props, lz0, t);
      }
    }

    // ---------- Many symbols ----------

    /** The reader, as a position in the whole stream. */
    ghost function StreamReader(): Reader
      reads this`range, this`code, this`base, this`buf
    {
      Reader(range, code, |base| + buf)
    }

    ghost predicate Following()
      reads this, probs
    {
      Follows(props, base + mem, count, lz, StreamReader(), probs[..]) && Begun(base + mem)
    }

    /** A match that was cut off had its first bytes written. */
    ghost predicate Begun(input: seq<byte>)
      reads this`remainLen, this`count, this`text
    {
      props.lc <= 8 && (0 < remainLen < MATCH_SPEC_LEN_START ==> TextBefore(props, input, count) < |text|)
    }

    /** The next symbol, with the normalisation behind it. */
    ghost function Ahead(): Option<(Token, Dec)>
      reads this, probs
      requires props.lc <= 8
    {
      SymbolRead(mem, D(), ContextOf(props, lz))
    }

    /** Ready for a symbol: it is in the input, and it fits or is a match. */
    ghost predicate Ready(limit: nat)
      reads this, probs, dic
    {
      Valid() && TextOk() && text == lz.text && remainLen == 0 && LimitOk(limit) && Following() &&
      Ahead().Some? && (dicPos < limit || Ahead().value.0.Match?)
    }

    /** One symbol, with the stream followed. */
    method DecodeSymbol(limit: nat) returns (res: Outcome)
      requires Ready(limit)
      modifies this`range, this`code, this`buf, this`state, this`rep0, this`rep1, this`rep2, this`rep3, this`remainLen,
               this`dicPos, this`processedPos, this`text, this`lz, this`count, probs, dic
      ensures |text| + old(dicPos) == |old(text)| + dicPos
      ensures TextOk() && dicPos <= limit
      ensures res == DataError ==> FaultAt(props, base + mem, count, lz, old(dicPos) == limit) && text == lz.text
      ensures res == Done ==> Valid() && PendingOk(limit) && Following() && old(dicPos) < dicPos && remainLen < MATCH_SPEC_LEN_START
      ensures res == EndMarked ==> Valid() && text == lz.text && dicPos == old(dicPos) && remainLen >= MATCH_SPEC_LEN_START &&
                                   MarkAt(props, base + mem, count, lz, StreamReader())
      ensures if res == DataError then lz == old(lz) && count == old(count) else Normalize(mem, D().rd) == Some(old(Ahead()).value.1.rd)
      ensures old(lz.text) <= lz.text
    {
      hide Wrap, TokenRead, Window, ContextOf, Next, Applicable, ValidLz, Normalize, Follows, TextBefore, GoodProbs, CopyMatch, FaultAt, MarkAt;
      StreamAhead(limit);
      res := DecodeOne(limit);
      if res == Done {
        count := count + 1;
      }
    }

    /** What the next symbol is in the stream. */
    lemma StreamAhead(limit: nat)
      requires Ready(limit)
      ensures var (t, d) := TokenRead(mem, D(), ContextOf(props, lz)).value;
              var rd := Moved(d.rd, |base|);
              if IsEndMarker(t) then MarkAt(props, base + mem, count, lz, rd)
              else if Applicable(props, lz, t) && dicPos < limit then
                lz.text <= Next(props, lz, t).text && TextBefore(props, base + mem, count + 1) == |lz.text| &&
                Follows(props, base + mem, count + 1, Next(props, lz, t), rd, d.probs)
              else FaultAt(props, base + mem, count, lz, dicPos == limit)
    {
      hide Wrap, TokenRead, Window, ContextOf, Next, Applicable, ValidLz, Normalize, Follows, TextBefore, GoodProbs, CopyMatch, FaultAt, MarkAt;
      var d := D();
      var t := TokenRead(mem, d, ContextOf(props, lz)).value.0;
      if IsEndMarker(t) {
        MarkInWindow(props, base, mem, count, lz, d);
      } else if Applicable(props, lz, t) && dicPos < limit {
        NextIsValid(props, lz, t);
        TextBeforeNext(props, base + mem, count, lz, StreamReader(), probs[..]);
        FollowsInWindow(props, base, mem, count, lz, d);
      } else {
        FaultInWindow(props, base, mem, count, lz, d, dicPos == limit);
      }
    }

    /** LzmaDec_DecodeReal: symbols until the limit or bufLimit is reached, then a normalisation.
        bufLimit either lets one symbol through or leaves REQUIRED_INPUT_MAX bytes behind it. */
    method DecodeReal(limit: nat, bufLimit: nat) returns (res: Outcome)
      requires Ready(limit) && (bufLimit == 0 || bufLimit + REQUIRED_INPUT_MAX <= |mem|)
      modifies this`range, this`code, this`buf, this`state, this`rep0, this`rep1, this`rep2, this`rep3, this`remainLen,
               this`dicPos, this`processedPos, this`text, this`lz, this`count, probs, dic
      ensures |text| + old(dicPos) == |old(text)| + dicPos
      ensures res == DataError ==> FaultAt(props, base + mem, count, lz, old(dicPos) == limit)
      ensures res == DataError ==> text == lz.text && if old(dicPos) == limit then lz == old(lz) && count == old(count)
                                                      else dicPos < limit
      ensures TextOk() && dicPos <= limit && (res != DataError ==> Valid() && range >= TOP && old(dicPos) <= dicPos)
      ensures res != DataError && bufLimit == 0 ==> buf == old(Ahead()).value.1.rd.pos
      ensures old(lz.text) <= lz.text
      ensures res == Done ==> PendingOk(limit) && Following() && old(dicPos) < dicPos && remainLen < MATCH_SPEC_LEN_START
      ensures res == EndMarked ==> text == lz.text && remainLen >= MATCH_SPEC_LEN_START &&
                                   MarkAt(props, base + mem, count, lz, StreamReader())
    {
      hide Wrap, SymbolRead, Window, ContextOf, ValidLz, Follows, TextBefore, GoodProbs, CopyMatch, FaultAt, MarkAt, Normalize;
      while true
        invariant |text| + old(dicPos) == |old(text)| + dicPos && old(dicPos) <= dicPos
        invariant dicPos == limit ==> old(dicPos) == limit
        invariant old(dicPos) == limit || bufLimit == 0 ==> lz == old(lz) && D() == old(D()) && count == old(count)
        invariant old(lz.text) <= lz.text
        invariant Ready(limit)
        decreases limit - dicPos
      {
        res := DecodeSymbol(limit);
        if res == DataError {
          return;
        }
        if res == EndMarked || dicPos >= limit || buf >= bufLimit {
          break;
        }
        StillReady(limit);
      }
      LastNormalize();
    }

    lemma StillReady(limit: nat)
      requires Valid() && TextOk() && PendingOk(limit) && Following() && LimitOk(limit) && dicPos < limit
      requires buf + REQUIRED_INPUT_MAX < |mem|
      ensures Ready(limit)
    {
      hide Wrap, TokenRead, Window, ContextOf, ValidLz, Follows, TextBefore, GoodProbs, SymbolRead;
      ContextIsValid(props, lz);
      RoomAhead(mem, D(), ContextOf(props, lz));
    }

    /** The normalisation after the loop. */
    method LastNormalize()
      requires Valid() && Normalize(mem, D().rd).Some?
      modifies this`range, this`code, this`buf
      ensures Valid() && range >= TOP && D().rd == Normalize(mem, old(D()).rd).value
      ensures old(Following()) ==> Following()
      ensures MarkAt(props, base + mem, count, lz, old(StreamReader())) ==> MarkAt(props, base + mem, count, lz, StreamReader())
    {
      hide Wrap, Follows, TextBefore, MarkAt, GoodProbs, ValidLz;
      FollowsAfterNormalize(props, base, mem, count, lz, D().rd, probs[..]);
      NormalizeCode();
    }

    // ---------- Between calls ----------

    /** The text is the machine's, but for a match cut off by an earlier limit. */
    ghost predicate PendingText()
      reads this`remainLen, this`lz, this`text, this`rep0
    {
      if remainLen == 0 || remainLen >= MATCH_SPEC_LEN_START then lz.text == text
      else 1 <= rep0 <= |text| && lz.text == CopyMatch(text, rep0 - 1, remainLen)
    }

    /** The size check is armed as soon as the dictionary is full. */
    ghost predicate CheckArmed()
      reads this`checkDicSize, this`text
    {
      checkDicSize == 0 ==> |text| < props.dicSize
    }

    /** LzmaDec_WriteRem: continues a cut match as far as the new limit allows. */
    method WriteRem(limit: nat)
      requires TextOk() && CheckArmed() && dicPos <= limit <= dic.Length && (remainLen != 0 ==> Sound() && PendingText())
      modifies dic, this`dicPos, this`text, this`processedPos, this`checkDicSize, this`remainLen
      ensures TextOk() && CheckArmed() && old(dicPos) <= dicPos <= limit
      ensures old(Sound() && PendingText()) ==> Sound() && PendingText()
      ensures old(remainLen) == 0 ==> text == old(text)
      ensures if old(remainLen) >= MATCH_SPEC_LEN_START then remainLen == old(remainLen) && dicPos == old(dicPos)
              else remainLen <= old(remainLen) && (remainLen > 0 ==> dicPos == limit)
      ensures |text| + old(dicPos) == |old(text)| + dicPos
    {
      hide Wrap, Window, CopyMatch, ValidLz, GoodProbs;
      if remainLen != 0 && remainLen < MATCH_SPEC_LEN_START {
        RepSize(props, lz, text, dicPos, dic.Length);
        ContinueMatch(limit);
        CopyNothing(text, rep0 - 1);
      }
    }

    method ContinueMatch(limit: nat)
      requires TextOk() && CheckArmed() && ValidProps(props) && dicPos <= limit <= dic.Length
      requires 0 < remainLen < MATCH_SPEC_LEN_START && 1 <= rep0 <= |text| && rep0 <= dic.Length
      modifies dic, this`dicPos, this`text, this`processedPos, this`checkDicSize, this`remainLen
      ensures TextOk() && CheckArmed() && old(dicPos) <= dicPos <= limit && |text| + old(dicPos) == |old(text)| + dicPos
      ensures remainLen <= old(remainLen) && (remainLen > 0 ==> dicPos == limit)
      ensures CopyMatch(text, rep0 - 1, remainLen) == CopyMatch(old(text), rep0 - 1, old(remainLen))
    {
      hide Wrap, Window, CopyMatch;
      var rem := limit - dicPos;
      var len := if rem < remainLen then rem else remainLen;
      if checkDicSize == 0 && props.dicSize - processedPos <= len {
        checkDicSize := props.dicSize;
      }
      WrapAdd(|text|, len);
      WrapSmall(|text| + len);
      processedPos := Wrap(processedPos + len);
      remainLen := remainLen - len;
      CopyTwice(text, rep0 - 1, len, remainLen);
      if len != 0 {
        CopyBlock(len);
      }
    }

    /** LzmaDec_DecodeReal2: stops DecodeReal where the size check has to be armed. */
    method DecodeReal2(limit: nat, bufLimit: nat) returns (res: Outcome)
      requires Valid() && range >= TOP && TextOk() && text == lz.text && remainLen == 0 && CheckArmed() && Following()
      requires dicPos <= limit <= dic.Length && (bufLimit == 0 || bufLimit + REQUIRED_INPUT_MAX <= |mem|)
      requires Ahead().Some? && (dicPos < limit || Ahead().value.0.Match?)
      modifies this`range, this`code, this`buf, this`state, this`rep0, this`rep1, this`rep2, this`rep3, this`remainLen,
               this`dicPos, this`processedPos, this`text, this`lz, this`count, this`checkDicSize, probs, dic
      ensures |text| + old(dicPos) == |old(text)| + dicPos
      ensures res == DataError ==> FaultAt(props, base + mem, count, lz, old(dicPos) == limit)
      ensures res == DataError ==> text == lz.text && if old(dicPos) == limit then lz == old(lz) && count == old(count)
                                                      else dicPos < limit
      ensures TextOk() && dicPos <= limit && (res != DataError ==> Valid() && range >= TOP && PendingText() && CheckArmed() && old(dicPos) <= dicPos)
      ensures res != DataError && bufLimit == 0 ==> buf == old(Ahead()).value.1.rd.pos
      ensures old(lz.text) <= lz.text
      ensures res == Done ==> Following() && remainLen < MATCH_SPEC_LEN_START && (remainLen > 0 ==> dicPos == limit) && old(dicPos) < dicPos
      ensures res == EndMarked ==> remainLen == MATCH_SPEC_LEN_START && MarkAt(props, base + mem, count, lz, StreamReader())
    {
      hide Wrap, SymbolRead, Window, ContextOf, ValidLz, Follows, TextBefore, GoodProbs, CopyMatch, FaultAt, MarkAt, Normalize;
      while true
        invariant old(dicPos) <= dicPos <= limit
        invariant dicPos == limit ==> old(dicPos) == limit
        invariant old(dicPos) == limit || bufLimit == 0 ==> lz == old(lz) && D() == old(D()) && count == old(count)
        invariant old(lz.text) <= lz.text
        invariant |text| + old(dicPos) == |old(text)| + dicPos
        invariant Valid() && range >= TOP && TextOk() && text == lz.text && remainLen == 0 && CheckArmed() && Following()
        invariant Ahead().Some? && (dicPos < limit || Ahead().value.0.Match?)
        decreases limit - dicPos
      {
        res := Round(limit, bufLimit);
        if res == DataError {
          return;
        }
        if dicPos >= limit || buf >= bufLimit || remainLen >= MATCH_SPEC_LEN_START {
          break;
        }
        MoreAhead();
      }
      if remainLen > MATCH_SPEC_LEN_START {
        remainLen := MATCH_SPEC_LEN_START;
      }
    }

    /** The body of the loop of DecodeReal2. */
    method Round(limit: nat, bufLimit: nat) returns (res: Outcome)
      requires Valid() && range >= TOP && TextOk() && text == lz.text && remainLen == 0 && CheckArmed() && Following()
      requires dicPos <= limit <= dic.Length && (bufLimit == 0 || bufLimit + REQUIRED_INPUT_MAX <= |mem|)
      requires Ahead().Some? && (dicPos < limit || Ahead().value.0.Match?)
      modifies this`range, this`code, this`buf, this`state, this`rep0, this`rep1, this`rep2, this`rep3, this`remainLen,
               this`dicPos, this`processedPos, this`text, this`lz, this`count, this`checkDicSize, probs, dic
      ensures |text| + old(dicPos) == |old(text)| + dicPos
      ensures res == DataError ==> FaultAt(props, base + mem, count, lz, old(dicPos) == limit)
      ensures res == DataError ==> text == lz.text && if old(dicPos) == limit then lz == old(lz) && count == old(count)
                                                      else dicPos < limit
      ensures TextOk() && dicPos <= limit && (res != DataError ==> Valid() && range >= TOP && PendingText() && CheckArmed() && old(dicPos) <= dicPos)
      ensures res != DataError && bufLimit == 0 ==> buf == old(Ahead()).value.1.rd.pos
      ensures old(lz.text) <= lz.text
      ensures res == Done ==> Following() && remainLen < MATCH_SPEC_LEN_START && (remainLen > 0 ==> dicPos == limit) && old(dicPos) < dicPos
      ensures res == EndMarked ==> remainLen >= MATCH_SPEC_LEN_START && MarkAt(props, base + mem, count, lz, StreamReader())
    {
      hide Wrap, SymbolRead, Window, ContextOf, ValidLz, Follows, TextBefore, GoodProbs, CopyMatch, FaultAt, MarkAt, Normalize, Ready, Ahead, Begun;
      var limit2 := limit;
      if checkDicSize == 0 {
        var rem := props.dicSize - processedPos;
        if limit - dicPos > rem {
          limit2 := dicPos + rem;
        }
      }
      StartRound(limit2);
      res := DecodeReal(limit2, bufLimit);
      if res == DataError {
        return;
      }
      ArmAndWrite(limit, limit2);
    }

    /** The size check is armed if need be, and the rest of a match written that only the armed check allows. */
    method ArmAndWrite(limit: nat, ghost limit2: nat)
      requires Valid() && TextOk() && dicPos <= limit2 <= limit <= dic.Length
      requires checkDicSize == 0 ==> |text| + (limit2 - dicPos) <= props.dicSize
      requires if remainLen < MATCH_SPEC_LEN_START then PendingOk(limit2) && Begun(base + mem) else text == lz.text
      modifies dic, this`dicPos, this`text, this`processedPos, this`checkDicSize, this`remainLen
      ensures Valid() && TextOk() && PendingText() && CheckArmed() && old(dicPos) <= dicPos <= limit && |text| + old(dicPos) == |old(text)| + dicPos
      ensures if old(remainLen) >= MATCH_SPEC_LEN_START then remainLen == old(remainLen) && dicPos == old(dicPos)
              else remainLen < MATCH_SPEC_LEN_START && (remainLen > 0 ==> dicPos == limit) && Begun(base + mem)
    {
      hide Wrap, Window, ValidLz, TextBefore, GoodProbs, CopyMatch;
      if checkDicSize == 0 && processedPos >= props.dicSize {
        checkDicSize := props.dicSize;
      }
      WriteRem(limit);
    }

    lemma StartRound(limit: nat)
      requires Valid() && TextOk() && text == lz.text && remainLen == 0 && CheckArmed() && Following() && LimitOk(limit)
      requires Ahead().Some? && (dicPos < limit || Ahead().value.0.Match?)
      ensures Ready(limit)
    {
    }

    lemma MoreAhead()
      requires Valid() && Following() && buf + REQUIRED_INPUT_MAX < |mem|
      ensures Ahead().Some?
    {
      hide Wrap, TokenRead, ContextOf, ValidLz, Follows, TextBefore, GoodProbs, SymbolRead;
      ContextIsValid(props, lz);
      RoomAhead(mem, D(), ContextOf(props, lz));
    }

    // ---------- Looking ahead ----------

    /** The next symbol as it would be read from input. */
    ghost function NextIn(input: seq<byte>): Option<(Token, Dec)>
      reads this`range, this`code, this`lz, probs
      requires props.lc <= 8
    {
      SymbolRead(input, Dec(Reader(range, code, 0), probs[..], true), ContextOf(props, lz))
    }

    /** LzmaDec_TryDummy: whether input holds the whole next symbol, and of which kind it is. */
    method TryDummy(input: seq<byte>) returns (res: Dummy)
      requires Sound() && TextOk() && text == lz.text
      ensures match NextIn(input) {
                case None => res == DummyError
                case Some((t, _)) => res == KindOf(t)
              }
    {
      hide Wrap, ReadModelled, LiteralRead, RepRead, LenRead, DistanceRead, Window, ContextOf, Normalize, ValidLz, GoodProbs;
      ghost var c := ContextOf(props, lz);
      PositionWraps(|text|, props.pb);
      ContextState(props, lz);
      ContextIsValid(props, lz);
      DummyIsExact(input, Dec(Reader(range, code, 0), probs[..], true), c);
      var posState := processedPos % Pow2(props.pb);
      var ok, isMatch, rd := CheckBit(input, probs, Reader(range, code, 0), IS_MATCH + state * 16 + posState);
      if !ok {
        return DummyError;
      }
      if !isMatch {
        ok, rd := DummyLiteral(input, rd, c);
        res := DummyLit;
      } else {
        ok, res, rd := DummyMatchOrRep(input, rd, posState, c);
      }
      if ok {
        ok, rd := CheckNormalize(input, rd);
      }
      res := if ok then res else DummyError;
    }

    method DummyMatchOrRep(input: seq<byte>, rd: Reader, posState: nat, ghost c: Context) returns (ok: bool, kind: Dummy, r: Reader)
      requires GoodProbs(probs[..]) && ValidContext(c, probs.Length) && c.state == state && c.posState == posState
      ensures match NonLiteralRead(input, Look(rd, probs[..]), c) {
                case None => !ok
                case Some((t, d)) => ok && kind == KindOf(t) && !t.Literal? && d == Look(r, probs[..])
              }
    {
      hide ReadModelled, RepRead, LenRead, DistanceRead, GoodProbs;
      var isRep, len, long;
      kind := DummyMatch;
      ok, isRep, r := CheckBit(input, probs, rd, IS_REP + state);
      if !ok {
        return;
      }
      if !isRep {
        ok, len, r := CheckLen(input, probs, r, LEN_CODER, posState);
        if ok {
          ok, r := CheckDistance(input, probs, r, len);
        }
      } else {
        kind := DummyRep;
        ghost var index;
        ok, long, r, index := CheckRep(input, probs, r, c, state, posState);
        if ok && long {
          ok, len, r := CheckLen(input, probs, r, REP_LEN_CODER, posState);
        }
      }
    }

    method DummyLiteral(input: seq<byte>, rd: Reader, ghost c: Context) returns (ok: bool, r: Reader)
      requires Sound() && TextOk() && text == lz.text && c == ContextOf(props, lz)
      ensures match LiteralRead(input, Look(rd, probs[..]), c) {
                case None => !ok
                case Some((t, d)) => ok && t.Literal? && d == Look(r, probs[..])
              }
    {
      hide TextOk, TreeRead, MatchedRead, ContextOf, GoodProbs, ValidLz;
      var symbol;
      var prob := LiteralProb(c);
      Powers();
      if state < NUM_LIT_STATES {
        ok, symbol, r := CheckTree(input, probs, rd, prob, 8);
      } else {
        var matchByte := MatchByte(c);
        ok, symbol, r := CheckMatched(input, probs, rd, prob, matchByte);
      }
    }

    // ---------- Resuming ----------

    ghost predicate Shaped()
      reads this`tempBufSize, this`stream
    {
      ValidProps(props) && probs.Length == NumProbs(props) && tempBuf.Length == REQUIRED_INPUT_MAX && tempBuf != dic &&
      tempBufSize <= REQUIRED_INPUT_MAX && tempBufSize <= |stream|
    }

    /** Input that was taken but is not yet a whole symbol. */
    ghost function Kept(): seq<byte>
      reads this`tempBufSize, tempBuf
      requires tempBufSize <= tempBuf.Length
    {
      tempBuf[..tempBufSize]
    }

    /** Behind a whole number of symbols of input, or behind the end marker. */
    ghost predicate Behind(input: seq<byte>, pos: nat)
      reads this`remainLen, this`count, this`lz, this`text, this`range, this`code, probs
    {
      if remainLen < MATCH_SPEC_LEN_START then Follows(props, input, count, lz, Reader(range, code, pos), probs[..]) && Begun(input)
      else remainLen == MATCH_SPEC_LEN_START && MarkAt(props, input, count, lz, Reader(range, code, pos))
    }

    ghost predicate InStream()
      reads this`lz, this`state, this`rep0, this`rep1, this`rep2, this`rep3, this`remainLen, this`text, this`range, this`code,
            this`count, this`stream, this`tempBufSize, probs, tempBuf
      requires Shaped()
    {
      Sound() && PendingText() && TOP <= range < WORD && Behind(stream, |stream| - tempBufSize) &&
      (remainLen >= MATCH_SPEC_LEN_START ==> tempBufSize == 0) && (tempBufSize > 0 ==> NextIn(Kept()).None?)
    }

    ghost function Now(): Moment
      reads this`stream, this`text, this`dicPos
    {
      Moment(stream, text, dicPos)
    }

    /** What holds between calls, whatever the input was cut into. */
    ghost predicate Stable()
      reads this, probs, dic, tempBuf
    {
      Shaped() && TextOk() && CheckArmed() && stream[|stream| - tempBufSize..] == Kept() &&
      if !needInitState then !needFlush && InStream()
      else
        text == [] && remainLen == 0 &&
        if needFlush then tempBufSize < RC_INIT_SIZE && stream == Kept()
        else tempBufSize == 0 && StartReader(stream) == Some(Reader(range, code, |stream|))
    }

    /** The input so far ends inside the header or inside a symbol. */
    ghost predicate Hungry()
      reads this`needFlush, this`needInitState, this`remainLen, this`range, this`code, this`lz, this`stream, this`tempBufSize,
            probs, tempBuf
      requires Shaped()
    {
      if needFlush then tempBufSize < RC_INIT_SIZE
      else !needInitState && remainLen == 0 && NextIn(Kept()).None?
    }

    constructor (props: Props, dicBufSize: nat)
      requires ValidProps(props)
      ensures Stable() && fresh(probs) && fresh(dic) && fresh(tempBuf) && this.props == props && dic.Length == dicBufSize
      ensures text == stream == []
    {
      this.props := props;
      probs := new nat[NumProbs(props)];
      dic := new byte[dicBufSize];
      tempBuf := new byte[REQUIRED_INPUT_MAX];
      dicPos, processedPos, checkDicSize, remainLen, tempBufSize := 0, 0, 0, 0, 0;
      needFlush, needInitState := true, true;
      text, stream := [], [];
    }

    /** LzmaDec_Init: ready for a new stream. */
    method Init()
      requires Shaped()
      modifies this
      ensures Stable() && text == stream == [] && dicPos == 0
    {
      hide Sound, InStream;
      dicPos := 0;
      needFlush := true;
      remainLen := 0;
      tempBufSize := 0;
      processedPos := 0;
      checkDicSize := 0;
      needInitState := true;
      text, stream := [], [];
    }

    /** LzmaDec_InitStateReal. */
    method InitStateReal()
      requires Stable() && needInitState && !needFlush
      modifies probs, this`rep0, this`rep1, this`rep2, this`rep3, this`state, this`needInitState, this`lz, this`count
      ensures Stable() && !needInitState && lz == LZ_START
    {
      hide Follows, StartReader, SymbolRead, MarkAt, CopyMatch, StartProbs, TextOk, CheckArmed, Sound;
      ResetMachine();
      needInitState := false;
      StartRange(stream);
      FollowsFromStart(props, stream, Reader(range, code, |stream|));
    }

    method ResetMachine()
      requires ValidProps(props) && probs.Length == NumProbs(props)
      modifies probs, this`rep0, this`rep1, this`rep2, this`rep3, this`state, this`lz, this`count
      ensures Sound() && lz == LZ_START && count == 0 && probs[..] == StartProbs(props)
    {
      hide GoodProbs, StartProbs;
      FillProbs();
      rep0, rep1, rep2, rep3 := 1, 1, 1, 1;
      state := 0;
      lz, count := LZ_START, 0;
      StartIsValid(props);
    }

    method FillProbs()
      requires probs.Length == NumProbs(props)
      modifies probs
      ensures probs[..] == StartProbs(props)
    {
      var i := 0;
      while i < probs.Length
        invariant i <= probs.Length && forall j | 0 <= j < i :: probs[j] == BIT_MODEL_TOTAL / 2
      {
        probs[i] := BIT_MODEL_TOTAL / 2;
        i := i + 1;
      }
    }

    lemma StartRange(input: seq<byte>)
      requires StartReader(input).Some?
      ensures StartReader(input).value.range == WORD - 1
    {
    }

    /** The first five bytes, from as many pieces as they come in. */
    method Flush(src: seq<byte>, srcLen0: nat) returns (res: SRes, srcLen: nat)
      requires Stable() && needFlush && srcLen0 <= |src|
      modifies tempBuf, this`tempBufSize, this`stream, this`code, this`range, this`needFlush
      ensures (res == Ok || res == ErrorData) && srcLen0 <= srcLen <= |src|
      ensures res == Ok ==> Stable() && stream == old(stream) + src[srcLen0..srcLen] && (needFlush ==> srcLen == |src|)
      ensures res == ErrorData ==> var all := old(stream) + src[srcLen0..]; |all| >= RC_INIT_SIZE && all[0] != 0
    {
      hide Window, Wrap, Follows, TextBefore, MarkAt, SymbolRead, GoodProbs, ValidLz, CopyMatch, StartReader, Sound, PendingText;
      srcLen := CollectHeader(src, srcLen0);
      if tempBufSize < RC_INIT_SIZE {
        return Ok, srcLen;
      }
      assert stream <= old(stream) + src[srcLen0..];
      if tempBuf[0] != 0 {
        return ErrorData, srcLen;
      }
      StartCode();
      res := Ok;
    }

    method StartCode()
      requires Shaped() && stream == Kept() && tempBufSize == RC_INIT_SIZE && tempBuf[0] == 0
      modifies this`tempBufSize, this`code, this`range, this`needFlush
      ensures !needFlush && tempBufSize == 0 && StartReader(stream) == Some(Reader(range, code, |stream|))
    {
      code := 0x1000000 * tempBuf[1] as int + 0x10000 * tempBuf[2] as int + 0x100 * tempBuf[3] as int + tempBuf[4] as int;
      range := 0xFFFF_FFFF;
      needFlush := false;
      tempBufSize := 0;
    }

    method CollectHeader(src: seq<byte>, srcLen0: nat) returns (srcLen: nat)
      requires Shaped() && stream == Kept() && tempBufSize < RC_INIT_SIZE && srcLen0 <= |src|
      modifies tempBuf, this`tempBufSize, this`stream
      ensures Shaped() && srcLen0 <= srcLen <= |src| && tempBufSize <= RC_INIT_SIZE
      ensures stream == Kept() == old(stream) + src[srcLen0..srcLen] && (tempBufSize == RC_INIT_SIZE || srcLen == |src|)
    {
      srcLen := srcLen0;
      while srcLen < |src| && tempBufSize < RC_INIT_SIZE
        invariant srcLen0 <= srcLen <= |src| && tempBufSize <= RC_INIT_SIZE && Shaped()
        invariant stream == Kept() == old(stream) + src[srcLen0..srcLen]
      {
        tempBuf[tempBufSize] := src[srcLen];
        tempBufSize := tempBufSize + 1;
        stream := stream + [src[srcLen]];
        srcLen := srcLen + 1;
      }
    }

    /** Symbols from input, which continues the stream behind before. */
    method Symbols(dicLimit: nat, input: seq<byte>, bufLimit: nat, ghost before: seq<byte>) returns (res: Outcome)
      requires Sound() && TextOk() && CheckArmed() && text == lz.text && remainLen == 0 && TOP <= range < WORD
      requires Follows(props, before + input, count, lz, Reader(range, code, |before|), probs[..])
      requires dicPos <= dicLimit <= dic.Length && (bufLimit == 0 || bufLimit + REQUIRED_INPUT_MAX <= |input|)
      requires NextIn(input).Some? && (dicPos < dicLimit || NextIn(input).value.0.Match?)
      modifies this`range, this`code, this`buf, this`state, this`rep0, this`rep1, this`rep2, this`rep3, this`remainLen, this`mem,
               this`base, this`dicPos, this`processedPos, this`text, this`lz, this`count, this`checkDicSize, probs, dic
      ensures |text| + old(dicPos) == |old(text)| + dicPos && old(lz.text) <= lz.text && TextOk() && dicPos <= dicLimit
      ensures if res == DataError
              then FaultAt(props, before + input, count, lz, old(dicPos) == dicLimit) &&
                   text == lz.text && (if old(dicPos) == dicLimit then lz == old(lz) && count == old(count) else dicPos < dicLimit)
              else Sound() && PendingText() && CheckArmed() && TOP <= range < WORD && buf <= |input| &&
                   Behind(before + input[..buf], |before| + buf) && old(dicPos) <= dicPos &&
                   (0 < remainLen < MATCH_SPEC_LEN_START ==> dicPos == dicLimit) &&
                   (if res == Done then old(dicPos) < dicPos else remainLen == MATCH_SPEC_LEN_START)
      ensures res != DataError && bufLimit == 0 ==> buf == old(NextIn(input)).value.1.rd.pos
    {
      hide Wrap, SymbolRead, Window, ContextOf, ValidLz, Follows, TextBefore, GoodProbs, FaultAt, MarkAt, CopyMatch;
      mem, base, buf := input, before, 0;
      res := DecodeReal2(dicLimit, bufLimit);
      if res != DataError {
        assert before + input == before + input[..buf] + input[buf..];
        if res == Done {
          FollowsInShorterInput(props, before + input[..buf], input[buf..], count, lz, StreamReader(), probs[..]);
          SameTextBefore(props, before + input[..buf], input[buf..], count, lz, StreamReader(), probs[..]);
        } else {
          MarkInShorterInput(props, before + input[..buf], input[buf..], count, lz, StreamReader());
        }
      }
    }

    /** Whether the next symbol is all there in input, which continues the stream behind before:
        with REQUIRED_INPUT_MAX bytes it is, otherwise TryDummy tells. At the limit nothing but
        a match will do. */
    method Probe(input: seq<byte>, checkEndMarkNow: bool, ghost before: seq<byte>) returns (stuck: bool, wrong: bool)
      requires Sound() && TextOk() && text == lz.text && TOP <= range < WORD
      requires Follows(props, before + input, count, lz, Reader(range, code, |before|), probs[..])
      ensures (stuck <==> NextIn(input).None?) && (stuck ==> |input| < REQUIRED_INPUT_MAX)
      ensures if wrong then checkEndMarkNow && FaultAt(props, before + input, count, lz, true)
              else !stuck && checkEndMarkNow ==> NextIn(input).value.0.Match?
    {
      hide Wrap, TokenRead, Window, ContextOf, ValidLz, Follows, TextBefore, GoodProbs, FaultAt, Applicable;
      stuck, wrong := false, false;
      ContextIsValid(props, lz);
      ghost var d := Dec(Reader(range, code, 0), probs[..], true);
      if |input| < REQUIRED_INPUT_MAX || checkEndMarkNow {
        var dummy := TryDummy(input);
        stuck := dummy == DummyError;
        wrong := !stuck && checkEndMarkNow && dummy != DummyMatch;
        if wrong {
          FaultInWindow(props, before, input, count, lz, d, true);
        }
      }
      if |input| >= REQUIRED_INPUT_MAX {
        RequiredInput(input, d, ContextOf(props, lz));
      }
    }

    /** What one round of LzmaDec_DecodeToDic does to the stream, the text and the limit. */
    twostate predicate Advanced(dicLimit: nat, src: seq<byte>, srcLen0: nat, res: SRes, stop: bool, srcLen: nat)
      requires srcLen0 <= |src|
      reads this, probs, dic, tempBuf
    {
      srcLen0 <= srcLen <= |src| && (res == Ok || res == ErrorData) &&
      TextOk() && dicPos <= dicLimit && |text| + old(dicPos) == |old(text)| + dicPos && old(lz.text) <= lz.text &&
      (res == Ok ==>
        Stable() && !needInitState && stream == old(stream) + src[srcLen0..srcLen] && old(dicPos) <= dicPos &&
        (0 < remainLen < MATCH_SPEC_LEN_START ==> dicPos == dicLimit) &&
        if stop then srcLen == |src| && Hungry() && dicPos == old(dicPos) && code == old(code)
        else old(dicPos) < dicPos || remainLen == MATCH_SPEC_LEN_START) &&
      (res == ErrorData ==>
        FaultAt(props, old(stream) + src[srcLen0..], count, lz, old(dicPos) == dicLimit) && text == lz.text &&
        if old(dicPos) == dicLimit then lz == old(lz) && count == old(count) else dicPos < dicLimit)
    }

    /** Fills tempBuf from the caller's input. */
    method TopUp(src: seq<byte>, srcLen0: nat) returns (rem: nat, lookAhead: nat)
      requires tempBuf.Length == REQUIRED_INPUT_MAX && tempBufSize <= REQUIRED_INPUT_MAX && srcLen0 <= |src|
      modifies tempBuf, this`tempBufSize
      ensures rem == tempBufSize == old(tempBufSize) + lookAhead <= REQUIRED_INPUT_MAX && srcLen0 + lookAhead <= |src|
      ensures Kept() == old(Kept()) + src[srcLen0..srcLen0 + lookAhead]
      ensures rem == REQUIRED_INPUT_MAX || srcLen0 + lookAhead == |src|
    {
      rem, lookAhead := tempBufSize, 0;
      while rem < REQUIRED_INPUT_MAX && lookAhead < |src| - srcLen0
        invariant rem == old(tempBufSize) + lookAhead <= REQUIRED_INPUT_MAX && srcLen0 + lookAhead <= |src|
        invariant tempBuf[..rem] == old(Kept()) + src[srcLen0..srcLen0 + lookAhead]
      {
        tempBuf[rem] := src[srcLen0 + lookAhead];
        rem := rem + 1;
        lookAhead := lookAhead + 1;
      }
      tempBufSize := rem;
    }

    /** Symbols straight from the caller's input, nothing being kept. */
    method FromSource(dicLimit: nat, src: seq<byte>, srcLen0: nat, checkEndMarkNow: bool)
      returns (res: SRes, stop: bool, srcLen: nat)
      requires Stable() && !needInitState && remainLen == 0 && tempBufSize == 0 && srcLen0 <= |src|
      requires dicPos <= dicLimit <= dic.Length && (checkEndMarkNow <==> dicPos == dicLimit)
      modifies this, probs, dic, tempBuf
      ensures Advanced(dicLimit, src, srcLen0, res, stop, srcLen)
    {
      hide SymbolRead, Follows, TextBefore, FaultAt, MarkAt, CopyMatch, Sound, TextOk, CheckArmed, NextIn, Unfinished;
      hide Stable, Behind, PendingText, InStream;
      var input := src[srcLen0..];
      var inSize := |src| - srcLen0;
      stop, srcLen := false, srcLen0;
      ghost var before := stream;
      Emptied(input);
      var stuck, wrong := Probe(input, checkEndMarkNow, before);
      if stuck {
        Keep(input);
        CutKept(before, input);
        return Ok, true, |src|;
      }
      if wrong {
        return ErrorData, true, srcLen;
      }
      var bufLimit := if inSize < REQUIRED_INPUT_MAX || checkEndMarkNow then 0 else inSize - REQUIRED_INPUT_MAX;
      var out := Symbols(dicLimit, input, bufLimit, before);
      if out == DataError {
        return ErrorData, true, srcLen;
      }
      srcLen := srcLen0 + buf;
      stream := before + input[..buf];
      assert src[srcLen0..srcLen] == input[..buf];
      NothingKept();
      res := Ok;
    }

    lemma NothingKept()
      requires Shaped() && tempBufSize == 0 && !needInitState && !needFlush
      requires Sound() && TextOk() && CheckArmed() && PendingText() && TOP <= range < WORD && Behind(stream, |stream|)
      ensures Stable()
    {
      hide Sound, TextOk, CheckArmed, PendingText, Behind;
    }

    /** Between symbols, with nothing kept: the stream goes on with whatever is given. */
    lemma Emptied(input: seq<byte>)
      requires Stable() && !needInitState && remainLen == 0 && tempBufSize == 0
      ensures Sound() && TextOk() && CheckArmed() && text == lz.text && TOP <= range < WORD && Shaped() && !needFlush
      ensures Follows(props, stream + input, count, lz, Reader(range, code, |stream|), probs[..])
    {
      hide Follows, Sound, TextOk, CheckArmed;
      FollowsInLongerInput(props, stream, input, count, lz, Reader(range, code, |stream|), probs[..]);
    }

    /** A symbol was cut off, and all there is of it is kept. */
    lemma CutKept(before: seq<byte>, input: seq<byte>)
      requires Shaped() && Kept() == input && stream == before + input && !needInitState && !needFlush && remainLen == 0
      requires Sound() && TextOk() && CheckArmed() && text == lz.text && TOP <= range < WORD && NextIn(input).None?
      requires Follows(props, before + input, count, lz, Reader(range, code, |before|), probs[..])
      ensures Stable() && Hungry()
    {
      hide Follows, Sound, TextOk, CheckArmed, NextIn;
    }

    /** memcpy(tempBuf, src, inSize). */
    method Keep(input: seq<byte>)
      requires Shaped() && tempBufSize == 0 && |input| < REQUIRED_INPUT_MAX
      modifies tempBuf, this`tempBufSize, this`stream
      ensures Shaped() && tempBufSize == |input| && Kept() == input && stream == old(stream) + input
    {
      while tempBufSize < |input|
        invariant tempBufSize <= |input| && Shaped() && Kept() == input[..tempBufSize] && stream == old(stream) + input[..tempBufSize]
      {
        tempBuf[tempBufSize] := input[tempBufSize];
        stream := stream + [input[tempBufSize]];
        tempBufSize := tempBufSize + 1;
      }
    }

    /** One symbol from the bytes kept and as many more as it may need. */
    method FromKept(dicLimit: nat, src: seq<byte>, srcLen0: nat, checkEndMarkNow: bool)
      returns (res: SRes, stop: bool, srcLen: nat)
      requires Stable() && !needInitState && remainLen == 0 && tempBufSize > 0 && srcLen0 <= |src|
      requires dicPos <= dicLimit <= dic.Length && (checkEndMarkNow <==> dicPos == dicLimit)
      modifies this, probs, dic, tempBuf
      ensures Advanced(dicLimit, src, srcLen0, res, stop, srcLen)
    {
      hide SymbolRead, Follows, TextBefore, FaultAt, MarkAt, CopyMatch, Sound, TextOk, CheckArmed, NextIn, Unfinished;
      ghost var before, kept := stream[..|stream| - tempBufSize], Kept();
      assert stream == before + kept;
      var rem, lookAhead := TopUp(src, srcLen0);
      ghost var more := src[srcLen0..srcLen0 + lookAhead];
      var input := tempBuf[..rem];
      stop, srcLen := false, srcLen0;
      assert before + input == old(stream) + more;
      FollowsInLongerInput(props, old(stream), more, count, lz, Reader(range, code, |before|), probs[..]);
      var stuck, wrong := Probe(input, checkEndMarkNow, before);
      if stuck {
        stream := old(stream) + more;
        return Ok, true, srcLen0 + lookAhead;
      }
      if wrong {
        FaultFurther(props, old(stream), src, srcLen0, lookAhead, count, lz, true);
        return ErrorData, true, srcLen;
      }
      res, srcLen := SymbolFromKept(dicLimit, src, srcLen0, lookAhead, rem, before, kept);
      stop := res != Ok;
    }

    /** Decodes the symbol that is now whole, and gives back what was read too far ahead. */
    method SymbolFromKept(dicLimit: nat, src: seq<byte>, srcLen0: nat, lookAhead0: nat, rem0: nat, ghost before: seq<byte>, ghost kept: seq<byte>)
      returns (res: SRes, srcLen: nat)
      requires ValidProps(props) && probs.Length == NumProbs(props) && tempBuf.Length == REQUIRED_INPUT_MAX && tempBuf != dic
      requires !needInitState && !needFlush && rem0 == tempBufSize <= tempBuf.Length && stream == before + kept
      requires Sound() && TextOk() && CheckArmed() && text == lz.text && remainLen == 0 && TOP <= range < WORD
      requires srcLen0 + lookAhead0 <= |src| && Kept() == kept + src[srcLen0..srcLen0 + lookAhead0]
      requires Follows(props, before + Kept(), count, lz, Reader(range, code, |before|), probs[..])
      requires dicPos <= dicLimit <= dic.Length && NextIn(kept).None?
      requires NextIn(Kept()).Some? && (dicPos < dicLimit || NextIn(Kept()).value.0.Match?)
      modifies this, probs, dic, tempBuf
      ensures Advanced(dicLimit, src, srcLen0, res, res != Ok, srcLen)
    {
      hide SymbolRead, Follows, TextBefore, FaultAt, MarkAt, CopyMatch, Sound, TextOk, CheckArmed, NextIn, Unfinished, Stable, Behind, PendingText;
      var rem, lookAhead := rem0, lookAhead0;
      srcLen := srcLen0;
      var input := tempBuf[..rem];
      MoreThanKept(kept, src[srcLen0..srcLen0 + lookAhead]);
      assert before + input == stream + src[srcLen0..srcLen0 + lookAhead];
      var out := Symbols(dicLimit, input, 0, before);
      if out == DataError {
        FaultFurther(props, stream, src, srcLen0, lookAhead, count, lz, old(dicPos) == dicLimit);
        return ErrorData, srcLen;
      }
      if rem < buf {
        return ErrorFail, srcLen;
      }
      rem := rem - buf;
      if lookAhead < rem {
        return ErrorFail, srcLen;
      }
      lookAhead := lookAhead - rem;
      CutWindow(before, kept, src, srcLen0, lookAhead + rem, buf);
      srcLen := srcLen0 + lookAhead;
      tempBufSize := 0;
      stream := before + input[..buf];
      NothingKept();
      res := Ok;
    }

    /** Why a call may end in SZ_ERROR_DATA, all being the input there is and reach the length of text asked for:
        a bad first byte, a symbol that does not apply or, with FinishEnd, does not end at the limit, or an end
        marker that leaves something in code. */
    ghost predicate Refused(all: seq<byte>, reach: int, finishMode: FinishMode)
      reads this, probs, dic, tempBuf
    {
      (|all| >= RC_INIT_SIZE && all[0] != 0) ||
      (FaultAt(props, all, count, lz, |lz.text| == reach) && text == lz.text && |lz.text| <= reach &&
        (|lz.text| == reach ==> finishMode == FinishEnd && Unfinished(props, all, count))) ||
      (Stable() && !needInitState && stream <= all && |text| <= reach &&
        if remainLen == MATCH_SPEC_LEN_START then code != 0
        else 0 < remainLen && finishMode == FinishEnd && |text| == reach)
    }

    /** What was written is in the dictionary, up to dicLimit at most, whatever the result. */
    ghost predicate Wrote(was: Moment, dicLimit: nat)
      reads this`dicPos, this`text, dic
    {
      Window(dic[..], dicPos, text) && dicPos <= dicLimit <= dic.Length && |text| + was.dicPos == |was.text| + dicPos && was.text <= text
    }

    /** What a status means when reach is the length of text asked for. */
    ghost predicate StatusMeans(reach: int, finishMode: FinishMode, allTaken: bool, status: Status)
      requires Shaped()
      reads this, probs, tempBuf
    {
      match status
      case FinishedWithMark => remainLen == MATCH_SPEC_LEN_START && code == 0
      case NeedsMoreInput => allTaken && Hungry() && (|text| == reach && !needFlush ==> finishMode == FinishEnd && code != 0)
      case NotFinished =>
        |text| == reach && finishMode == FinishAny && !needFlush && remainLen < MATCH_SPEC_LEN_START && (remainLen > 0 || code != 0)
      case MaybeFinishedWithoutMark => |text| == reach && remainLen == 0 && code == 0 && !needFlush
      case NotSpecified => false
    }

    /** Input was taken and text written, no more than asked for, and no match is left unwritten without need. */
    ghost predicate Progress(was: Moment, reach: int, src: seq<byte>, srcLen: nat)
      reads this, probs, dic, tempBuf
    {
      Stable() && srcLen <= |src| && stream == was.stream + src[..srcLen] && was.text <= text && |text| <= reach &&
      (0 < remainLen < MATCH_SPEC_LEN_START ==> |text| == reach)
    }

    /** Input was taken and text written, and the decoder is between two symbols. */
    ghost predicate OnTheWay(was: Moment, dicLimit: nat, src: seq<byte>, srcLen0: nat, srcLen: nat)
      requires srcLen0 <= |src|
      reads this, probs, dic, tempBuf
    {
      Stable() && dicPos <= dicLimit <= dic.Length && srcLen0 <= srcLen <= |src| && stream == was.stream + src[srcLen0..srcLen] &&
      |text| + was.dicPos == |was.text| + dicPos && was.text <= text &&
      (0 < remainLen < MATCH_SPEC_LEN_START ==> dicPos == dicLimit)
    }

    /** LzmaDec_DecodeToDic. SZ_ERROR_FAIL is never returned. */
    method DecodeToDic(dicLimit: nat, src: seq<byte>, finishMode: FinishMode) returns (res: SRes, srcLen: nat, status: Status)
      requires Stable() && dicPos <= dicLimit <= dic.Length
      modifies this, probs, dic, tempBuf
      ensures (res == Ok || res == ErrorData)
      ensures res == Ok ==> OnTheWay(old(Now()), dicLimit, src, 0, srcLen) && StatusMeans(Reach(old(Now()), dicLimit), finishMode, srcLen == |src|, status)
      ensures res == ErrorData ==> Refused(old(stream) + src, Reach(old(Now()), dicLimit), finishMode)
      ensures Wrote(old(Now()), dicLimit) && srcLen <= |src|
    {
      hide Stable, OnTheWay, Refused, Wrote, StatusMeans;
      srcLen := 0;
      ghost var was := Now();
      StartLimit(dicLimit);
      StartOnTheWay(was, dicLimit, src);
      status := NotSpecified;
      while remainLen != MATCH_SPEC_LEN_START
        invariant OnTheWay(was, dicLimit, src, 0, srcLen)
        decreases dicLimit - dicPos, MATCH_SPEC_LEN_START - remainLen
      {
        var stop;
        ghost var now, from := Now(), srcLen;
        OnTheWayIs(was, dicLimit, src, srcLen);
        Joined(was.stream, src, 0, from);
        res, stop, srcLen, status := Advance(dicLimit, src, srcLen, finishMode);
        Since(was, now, dicLimit, src, 0, from, srcLen);
        if res != Ok || stop {
          return;
        }
        Written(now, dicLimit);
        OnTheWayIs(was, dicLimit, src, srcLen);
      }
      OnTheWayIs(was, dicLimit, src, srcLen);
      EndMarkRead(was, dicLimit, src, finishMode, srcLen);
      if code == 0 {
        status := FinishedWithMark;
      }
      res := if code == 0 then Ok else ErrorData;
    }

    lemma StartOnTheWay(was: Moment, dicLimit: nat, src: seq<byte>)
      requires Stable() && dicPos <= dicLimit <= dic.Length && |text| + was.dicPos == |was.text| + dicPos && was.text <= text
      requires stream == was.stream && (0 < remainLen < MATCH_SPEC_LEN_START ==> dicPos == dicLimit)
      ensures OnTheWay(was, dicLimit, src, 0, 0)
    {
      hide Stable;
      assert stream == stream + src[0..0];
    }

    lemma OnTheWayIs(was: Moment, dicLimit: nat, src: seq<byte>, srcLen: nat)
      requires OnTheWay(was, dicLimit, src, 0, srcLen)
      ensures Stable() && dicPos <= dicLimit <= dic.Length && srcLen <= |src| && stream == was.stream + src[0..srcLen]
      ensures |text| + was.dicPos == |was.text| + dicPos && was.text <= text && remainLen <= MATCH_SPEC_LEN_START && Wrote(was, dicLimit)
      ensures 0 < remainLen < MATCH_SPEC_LEN_START ==> dicPos == dicLimit
    {
      hide Sound, TextOk, CheckArmed, Follows, TextBefore, MarkAt, PendingText, Kept, NextIn, Window, StartReader;
      InDictionary();
    }

    /** The end marker was read: the call succeeds if nothing is left in code. */
    lemma EndMarkRead(was: Moment, dicLimit: nat, src: seq<byte>, finishMode: FinishMode, srcLen: nat)
      requires OnTheWay(was, dicLimit, src, 0, srcLen) && remainLen == MATCH_SPEC_LEN_START
      ensures code == 0 ==> Shaped() && StatusMeans(Reach(was, dicLimit), finishMode, srcLen == |src|, FinishedWithMark)
      ensures code != 0 ==> Refused(was.stream + src, Reach(was, dicLimit), finishMode)
    {
      hide Sound, TextOk, CheckArmed, Follows, TextBefore, MarkAt, PendingText, Kept, NextIn, StartReader, InStream;
      assert was.stream + src[0..srcLen] <= was.stream + src;
    }

    /** The call starts with LzmaDec_WriteRem. */
    method StartLimit(dicLimit: nat)
      requires Stable() && dicPos <= dicLimit <= dic.Length
      modifies dic, this`dicPos, this`text, this`processedPos, this`checkDicSize, this`remainLen
      ensures Stable() && dicPos <= dicLimit && |text| + old(dicPos) == |old(text)| + dicPos && old(text) <= text
      ensures 0 < remainLen < MATCH_SPEC_LEN_START ==> dicPos == dicLimit
    {
      hide SymbolRead, Follows, TextBefore, MarkAt, CopyMatch, Sound, TextOk, CheckArmed, NextIn, StartReader, ValidProps;
      ghost var text0 := text;
      WriteRem(dicLimit);
      if !needInitState {
        TextGrows(text0, lz.text, lz.text, text);
      }
    }

    /** One round of the loop of LzmaDec_DecodeToDic. */
    method Advance(dicLimit: nat, src: seq<byte>, srcLen0: nat, finishMode: FinishMode)
      returns (res: SRes, stop: bool, srcLen: nat, status: Status)
      requires Stable() && dicPos <= dicLimit <= dic.Length && srcLen0 <= |src| && remainLen < MATCH_SPEC_LEN_START
      requires 0 < remainLen ==> dicPos == dicLimit
      modifies this, probs, dic, tempBuf
      ensures (res == Ok || res == ErrorData)
      ensures res == Ok ==> OnTheWay(old(Now()), dicLimit, src, srcLen0, srcLen)
      ensures res == Ok && stop ==> StatusMeans(Reach(old(Now()), dicLimit), finishMode, srcLen == |src|, status)
      ensures res == Ok && !stop ==> status == NotSpecified && (old(dicPos) < dicPos || remainLen == MATCH_SPEC_LEN_START)
      ensures res == ErrorData ==> Refused(old(stream) + src[srcLen0..], Reach(old(Now()), dicLimit), finishMode)
      ensures Wrote(old(Now()), dicLimit) && srcLen <= |src|
    {
      hide Stable, OnTheWay, Refused, Wrote, StatusMeans, Window;
      stop, srcLen, status := true, srcLen0, NotSpecified;
      ghost var was := Now();
      Unmoved(dicLimit, src, srcLen0);
      if needFlush {
        res, srcLen := Flush(src, srcLen0);
        if res != Ok {
          BadStart(was.stream + src[srcLen0..], Reach(was, dicLimit), finishMode);
          return;
        }
        if needFlush {
          HeaderCut(was, dicLimit, src, srcLen0, finishMode);
          return Ok, true, srcLen, NeedsMoreInput;
        }
      }
      ghost var now, from := Now(), srcLen;
      Joined(was.stream, src, srcLen0, from);
      res, stop, srcLen, status := AfterHeader(dicLimit, src, srcLen, finishMode);
      Since(was, now, dicLimit, src, srcLen0, from, srcLen);
    }

    lemma Unmoved(dicLimit: nat, src: seq<byte>, srcLen: nat)
      requires Stable() && dicPos <= dicLimit <= dic.Length && srcLen <= |src|
      ensures Wrote(Now(), dicLimit) && tempBuf != dic
    {
      InDictionary();
    }

    lemma BadStart(all: seq<byte>, reach: int, finishMode: FinishMode)
      requires |all| >= RC_INIT_SIZE && all[0] != 0
      ensures Refused(all, reach, finishMode)
    {
    }

    /** Nothing but a part of the header was there. */
    lemma HeaderCut(was: Moment, dicLimit: nat, src: seq<byte>, srcLen0: nat, finishMode: FinishMode)
      requires Stable() && needFlush && srcLen0 <= |src| && dicPos <= dicLimit <= dic.Length
      requires stream == was.stream + src[srcLen0..|src|] && text == was.text && dicPos == was.dicPos && remainLen < MATCH_SPEC_LEN_START
      requires 0 < remainLen ==> dicPos == dicLimit
      ensures OnTheWay(was, dicLimit, src, srcLen0, |src|) && Shaped() && StatusMeans(Reach(was, dicLimit), finishMode, true, NeedsMoreInput)
      ensures Wrote(was, dicLimit)
    {
      hide SymbolRead, Follows, TextBefore, FaultAt, MarkAt, CopyMatch, Sound, TextOk, CheckArmed, NextIn, InStream, Kept, StartReader;
      InDictionary();
    }

    /** What holds since a later moment holds since an earlier one. */
    lemma Since(was: Moment, now: Moment, dicLimit: nat, src: seq<byte>, srcLen0: nat, from: nat, srcLen: nat)
      requires srcLen0 <= from <= |src| && now.stream == was.stream + src[srcLen0..from]
      requires |now.text| + was.dicPos == |was.text| + now.dicPos && was.text <= now.text
      ensures Reach(now, dicLimit) == Reach(was, dicLimit) && now.stream + src[from..] == was.stream + src[srcLen0..]
      ensures OnTheWay(now, dicLimit, src, from, srcLen) ==> OnTheWay(was, dicLimit, src, srcLen0, srcLen)
      ensures Wrote(now, dicLimit) ==> Wrote(was, dicLimit)
    {
      hide Stable, Window;
      Joined(was.stream, src, srcLen0, from);
    }

    /** The rest of the round: is the limit reached, and if not, symbols. */
    method AfterHeader(dicLimit: nat, src: seq<byte>, srcLen0: nat, finishMode: FinishMode)
      returns (res: SRes, stop: bool, srcLen: nat, status: Status)
      requires Stable() && dicPos <= dicLimit <= dic.Length && srcLen0 <= |src| && remainLen < MATCH_SPEC_LEN_START
      requires !needFlush && (0 < remainLen ==> dicPos == dicLimit)
      modifies this, probs, dic, tempBuf
      ensures (res == Ok || res == ErrorData)
      ensures res == Ok ==> OnTheWay(old(Now()), dicLimit, src, srcLen0, srcLen)
      ensures res == Ok && stop ==> StatusMeans(Reach(old(Now()), dicLimit), finishMode, srcLen == |src|, status)
      ensures res == Ok && !stop ==> status == NotSpecified && (old(dicPos) < dicPos || remainLen == MATCH_SPEC_LEN_START)
      ensures res == ErrorData ==> Refused(old(stream) + src[srcLen0..], Reach(old(Now()), dicLimit), finishMode)
      ensures Wrote(old(Now()), dicLimit) && srcLen <= |src|
    {
      hide SymbolRead, Follows, TextBefore, FaultAt, MarkAt, CopyMatch, Sound, TextOk, CheckArmed, NextIn, Unfinished;
      stop, srcLen, status := true, srcLen0, NotSpecified;
      InDictionary();
      var checkEndMarkNow := false;
      if dicPos >= dicLimit {
        if remainLen == 0 && code == 0 {
          return Ok, true, srcLen, MaybeFinishedWithoutMark;
        }
        if finishMode == FinishAny {
          return Ok, true, srcLen, NotFinished;
        }
        if remainLen != 0 {
          return ErrorData, true, srcLen, NotFinished;
        }
        checkEndMarkNow := true;
      }
      if needInitState {
        InitStateReal();
      }
      res, stop, srcLen, status := TakeSymbols(dicLimit, src, srcLen, checkEndMarkNow);
    }

    lemma StaysUnfinished(more: seq<byte>)
      requires Stable() && !needInitState && remainLen == 0 && code != 0
      ensures Unfinished(props, stream + more, count)
    {
      hide SymbolRead, Follows, TextBefore, TextOk, CheckArmed, ReaderAfter;
      var rd := Reader(range, code, |stream| - tempBufSize);
      FollowsInLongerInput(props, stream, more, count, lz, rd, probs[..]);
      FollowsReader(props, stream + more, count, lz, rd, probs[..]);
    }

    /** Symbols, wherever the next byte is. */
    method TakeSymbols(dicLimit: nat, src: seq<byte>, srcLen0: nat, checkEndMarkNow: bool)
      returns (res: SRes, stop: bool, srcLen: nat, status: Status)
      requires Stable() && !needInitState && remainLen == 0 && srcLen0 <= |src|
      requires dicPos <= dicLimit <= dic.Length && (checkEndMarkNow <==> dicPos == dicLimit) && (checkEndMarkNow ==> code != 0)
      modifies this, probs, dic, tempBuf
      ensures (res == Ok || res == ErrorData)
      ensures res == Ok ==> OnTheWay(old(Now()), dicLimit, src, srcLen0, srcLen) && !needInitState
      ensures res == Ok && stop ==> status == NeedsMoreInput && srcLen == |src| && Hungry() && (dicPos == dicLimit ==> checkEndMarkNow && code != 0)
      ensures res == Ok && !stop ==> status == NotSpecified && (old(dicPos) < dicPos || remainLen == MATCH_SPEC_LEN_START)
      ensures res == ErrorData ==>
                FaultAt(props, old(stream) + src[srcLen0..], count, lz, checkEndMarkNow) && text == lz.text &&
                if checkEndMarkNow then text == old(text) && Unfinished(props, old(stream) + src[srcLen0..], count)
                else dicPos < dicLimit
      ensures Wrote(old(Now()), dicLimit) && srcLen <= |src|
    {
      hide SymbolRead, Follows, TextBefore, FaultAt, MarkAt, CopyMatch, Sound, TextOk, CheckArmed, NextIn, Unfinished;
      if checkEndMarkNow {
        StaysUnfinished(src[srcLen0..]);
      }
      if tempBufSize == 0 {
        res, stop, srcLen := FromSource(dicLimit, src, srcLen0, checkEndMarkNow);
      } else {
        res, stop, srcLen := FromKept(dicLimit, src, srcLen0, checkEndMarkNow);
      }
      status := if stop then NeedsMoreInput else NotSpecified;
      TextGrows(old(text), old(lz).text, lz.text, text);
      InDictionary();
    }

    /** LzmaDec_DecodeToBuf: the text passes through a circular dictionary into dest. */
    method DecodeToBuf(destLen: nat, src: seq<byte>, finishMode: FinishMode)
      returns (res: SRes, dest: seq<byte>, srcLen: nat, status: Status)
      requires Stable() && props.dicSize <= dic.Length
      modifies this, probs, dic, tempBuf
      ensures (res == Ok || res == ErrorData) && |dest| <= destLen && srcLen <= |src| && text == old(text) + dest
      ensures res == Ok ==>
                Progress(old(Now()), |old(text)| + destLen, src, srcLen) &&
                StatusMeans(|old(text)| + destLen, finishMode, srcLen == |src|, status)
      ensures res == ErrorData ==> Refused(old(stream) + src, |old(text)| + destLen, finishMode)
    {
      hide Stable, Refused, StatusMeans;
      dest, srcLen := [], 0;
      var outSize := destLen;
      while true
        invariant Stable() && srcLen <= |src| && stream == old(stream) + src[..srcLen] && text == old(text) + dest
        invariant |dest| <= destLen && outSize == destLen - |dest|
        decreases outSize
      {
        var n, block;
        Joined(old(stream), src, 0, srcLen);
        res, block, n, status := NextBlock(outSize, src[srcLen..], finishMode);
        dest := dest + block;
        assert src[srcLen..][..n] == src[srcLen..srcLen + n];
        srcLen := srcLen + n;
        if res != Ok {
          return;
        }
        outSize := outSize - |block|;
        if |block| == 0 || outSize == 0 {
          return;
        }
      }
    }

    /** One round of LzmaDec_DecodeToBuf: up to the end of the dictionary or of dest. */
    method NextBlock(outSize: nat, src: seq<byte>, finishMode: FinishMode)
      returns (res: SRes, block: seq<byte>, srcLen: nat, status: Status)
      requires Stable() && props.dicSize <= dic.Length
      modifies this, probs, dic, tempBuf
      ensures (res == Ok || res == ErrorData) && |block| <= outSize && srcLen <= |src| && text == old(text) + block
      ensures res == Ok ==> Stable() && stream == old(stream) + src[..srcLen]
      ensures res == Ok && (block == [] || |block| == outSize) ==>
                StatusMeans(|old(text)| + outSize, finishMode, srcLen == |src|, status) &&
                (0 < remainLen < MATCH_SPEC_LEN_START ==> |block| == outSize)
      ensures res == ErrorData ==> Refused(old(stream) + src, |old(text)| + outSize, finishMode)
    {
      hide Stable, Refused, Wrote, StatusMeans;
      WrapAround();
      var dicPos0 := dicPos;
      var outSizeCur, curFinishMode := dicPos0 + outSize, finishMode;
      if outSize > dic.Length - dicPos0 {
        outSizeCur, curFinishMode := dic.Length, FinishAny;
      }
      ghost var now, reach := Now(), Reach(Now(), outSizeCur);
      res, srcLen, status := DecodeToDic(outSizeCur, src, curFinishMode);
      Written(now, outSizeCur);
      if res == ErrorData {
        StillRefused(old(stream) + src, reach, curFinishMode, |old(text)| + outSize, finishMode);
      } else if |text| < reach {
        ShapedStill();
        StillMeans(reach, curFinishMode, |old(text)| + outSize, finishMode, srcLen == |src|, status);
      }
      outSizeCur := dicPos - dicPos0;
      block := dic[dicPos0..dicPos0 + outSizeCur];
    }

    lemma Written(was: Moment, dicLimit: nat)
      requires Wrote(was, dicLimit)
      ensures was.dicPos <= dicPos <= dicLimit <= dic.Length && text == was.text + dic[was.dicPos..dicPos]
    {
      hide Window;
      WindowTail(dicPos - was.dicPos);
      assert text == was.text + text[|was.text|..];
    }

    lemma ShapedStill()
      requires Stable()
      ensures Shaped()
    {
    }

    /** A status given before a nearer goal was reached is right for one farther off. */
    lemma StillMeans(reach: int, finishMode: FinishMode, reach': int, finishMode': FinishMode, allTaken: bool, status: Status)
      requires Shaped() && |text| < reach && StatusMeans(reach, finishMode, allTaken, status)
      requires (reach == reach' && finishMode == finishMode') || (reach < reach' && finishMode == FinishAny)
      ensures StatusMeans(reach', finishMode', allTaken, status)
    {
      hide Hungry;
    }

    /** What is refused with a nearer goal is refused with one farther off. */
    lemma StillRefused(all: seq<byte>, reach: int, finishMode: FinishMode, reach': int, finishMode': FinishMode)
      requires Refused(all, reach, finishMode)
      requires (reach == reach' && finishMode == finishMode') || (reach < reach' && finishMode == FinishAny)
      ensures Refused(all, reach', finishMode')
    {
      hide Stable, FaultAt, Unfinished;
    }

    /** A full dictionary is filled again from its start. */
    method WrapAround()
      requires Stable() && props.dicSize <= dic.Length
      modifies this`dicPos
      ensures Stable() && dicPos < dic.Length
      ensures dicPos == if old(dicPos) == dic.Length then 0 else old(dicPos)
    {
      hide Window, InStream, Wrap, StartReader;
      assert dicPos <= dic.Length by {
        WindowEnds(dic[..], dicPos, text);
      }
      if dicPos == dic.Length {
        WindowWraps(dic[..], text);
        dicPos := 0;
      }
    }

    lemma InDictionary()
      requires TextOk()
      ensures Window(dic[..], dicPos, text)
    {
    }

    lemma WindowTail(n: nat)
      requires Window(dic[..], dicPos, text) && n <= dicPos <= dic.Length && n <= |text|
      ensures dic[dicPos - n..dicPos] == text[|text| - n..]
    {
      forall i {:trigger dic[dicPos - n..dicPos][i]} | 0 <= i < n ensures dic[dicPos - n..dicPos][i] == text[|text| - n..][i] {
        assert dic[..][Back(dicPos, dic.Length, n - i)] == text[|text| - (n - i)];
      }
    }

    /** The symbol that did not fit in kept ends behind it. */
    lemma MoreThanKept(kept: seq<byte>, more: seq<byte>)
      requires Sound() && NextIn(kept).None? && NextIn(kept + more).Some?
      ensures NextIn(kept + more).value.1.rd.pos > |kept|
    {
      hide SymbolRead, ContextOf, ValidLz, GoodProbs;
      ContextIsValid(props, lz);
      StuckNeedsMore(kept, more, Dec(Reader(range, code, 0), probs[..], true), ContextOf(props, lz));
    }

    lemma StartTest()
      requires TextOk() && ValidProps(props)
      ensures checkDicSize == 0 && processedPos == 0 <==> text == []
    {
    }
  }

  /** Two beginnings of the same text. */
  lemma TextGrows(a: seq<byte>, b: seq<byte>, c: seq<byte>, d: seq<byte>)
    requires a <= b <= c && d <= c && |a| <= |d|
    ensures a <= d
  {
  }

  lemma Joined(before: seq<byte>, src: seq<byte>, a: nat, b: nat)
    requires a <= b <= |src|
    ensures before + src[a..b] + src[b..] == before + src[a..]
    ensures forall c | b <= c <= |src| :: before + src[a..b] + src[b..c] == before + src[a..c]
  {
  }

  /** The bytes used up, seen from the stream and from the caller's input. */
  lemma CutWindow(before: seq<byte>, kept: seq<byte>, src: seq<byte>, from: nat, k: nat, buf: nat)
    requires from + k <= |src| && |kept| <= buf <= |kept| + k
    ensures before + (kept + src[from..from + k])[..buf] == before + kept + src[from..from + (buf - |kept|)]
  {
    var more := src[from..from + k];
    assert (kept + more)[..buf] == kept + more[..buf - |kept|];
    assert more[..buf - |kept|] == src[from..from + (buf - |kept|)];
  }

  lemma FaultFurther(p: Props, stream: seq<byte>, src: seq<byte>, from: nat, k: nat, n: nat, lz: Lz, full: bool)
    requires ValidProps(p) && from + k <= |src| && FaultAt(p, stream + src[from..from + k], n, lz, full)
    ensures FaultAt(p, stream + src[from..], n, lz, full)
  {
    hide FaultAt;
    assert stream + src[from..] == stream + src[from..from + k] + src[from + k..];
    FaultInLongerInput(p, stream + src[from..from + k], src[from + k..], n, lz, full);
  }

  function KindOf(t: Token): Dummy {
    match t
    case Literal(_) => DummyLit
    case Match(_, _) => DummyMatch
    case _ => DummyRep
  }

  lemma ContextState(p: Props, lz: Lz)
    requires p.lc <= 8
    ensures ContextOf(p, lz).state == lz.state && ContextOf(p, lz).posState == |lz.text| % Pow2(p.pb)
  {
  }

  lemma RepTokenShape(input: seq<byte>, d: Dec, c: Context)
    requires RepRead(input, d, c).Some?
    ensures var t := RepRead(input, d, c).value.0;
            (t.ShortRep? || t.Rep?) && ValidToken(t)
  {
  }

  lemma LiteralTokenShape(input: seq<byte>, d: Dec, c: Context)
    requires LiteralRead(input, d, c).Some?
    ensures LiteralRead(input, d, c).value.0.Literal?
  {
  }

  lemma StateBound(p: Props, lz: Lz)
    requires ValidLz(p, lz)
    ensures lz.state < NUM_STATES
  {
  }

  lemma LiteralMoves(p: Props, lz: Lz, b: byte)
    requires lz.state < NUM_STATES
    ensures Applicable(p, lz, Literal(b))
    ensures Next(p, lz, Literal(b)) == Lz(LiteralNext(lz.state), lz.reps, lz.text + [b])
  {
  }

  lemma NothingToRepeat(p: Props, lz: Lz, t: Token)
    requires lz.text == [] && (t.ShortRep? || t.Rep?)
    ensures !Applicable(p, lz, t)
  {
  }

  /** Where a match takes the machine. */
  lemma MatchMoves(p: Props, lz: Lz, distance: nat, len: nat)
    requires lz.state < NUM_STATES && ValidToken(Match(distance, len))
    ensures Applicable(p, lz, Match(distance, len)) <==> Reachable(p, lz.text, distance)
    ensures Reachable(p, lz.text, distance) ==>
              distance < |lz.text| && distance < p.dicSize &&
              Next(p, lz, Match(distance, len)) == Lz(MatchNext(lz.state), lz.reps.Push(distance), CopyMatch(lz.text, distance, len))
  {
  }

  lemma {:induction false} ReverseBound(input: seq<byte>, d: Dec, base: nat, m: nat, n: nat, weight: nat, acc: nat)
    requires ReverseRead(input, d, base, m, n, weight, acc).Some?
    ensures ReverseRead(input, d, base, m, n, weight, acc).value.0 <= acc + weight * (Pow2(n) - 1)
    decreases n
  {
    hide ReadModelled;
    if n > 0 {
      var (bit, e) := ReadModelled(input, d, base + m).value;
      ReverseBound(input, e, base, Child(m, bit), n - 1, 2 * weight, if bit then acc + weight else acc);
      HalfWeight(weight, Pow2(n - 1));
    }
  }

  lemma HalfWeight(weight: nat, h: nat)
    ensures 2 * weight * (h - 1) + weight == weight * (2 * h - 1)
  {
  }

  lemma {:induction false} DirectBound(input: seq<byte>, d: Dec, n: nat, acc: nat)
    requires DirectRead(input, d, n, acc).Some?
    ensures DirectRead(input, d, n, acc).value.0 < (acc + 1) * Pow2(n)
    decreases n
  {
    hide ReadHalf;
    if n > 0 {
      var (bit, e) := ReadHalf(input, d).value;
      DirectBound(input, e, n - 1, Child(acc, bit));
      MulStep(Child(acc, bit) + 1, 2 * (acc + 1), Pow2(n - 1));
      TwiceUp(acc + 1, Pow2(n - 1));
    }
  }

  /** Distances are 32-bit numbers: nothing is lost when they are put together. */
  lemma TwiceUp(x: nat, h: nat)
    ensures 2 * x * h == x * (2 * h)
  {
  }

  lemma DistanceInWord(input: seq<byte>, d: Dec, len: nat)
    requires DistanceRead(input, d, len).Some?
    ensures DistanceRead(input, d, len).value.0 < WORD
  {
    hide TreeRead, ReverseRead, DirectRead;
    Powers();
    var (v, e) := TreeRead(input, d, SlotTree(len), 1, 6).value;
    var slot := v - 64;
    if START_POS_MODEL <= slot < END_POS_MODEL {
      SpecBase(slot);
      ReverseBound(input, e, SPEC_POS + SlotBase(slot) - slot - 1, 1, FooterBits(slot), 1, SlotBase(slot));
    } else if END_POS_MODEL <= slot {
      AlignedInWord(input, e, slot);
    }
  }

  lemma AlignedInWord(input: seq<byte>, d: Dec, slot: nat)
    requires END_POS_MODEL <= slot < 64 && AlignedRead(input, d, slot).Some?
    ensures AlignedRead(input, d, slot).value.0 < WORD
  {
    hide ReverseRead, DirectRead;
    Powers();
    var n, top := FooterBits(slot) - 4, 2 + slot % 2;
    var (high, e) := DirectRead(input, d, n, top).value;
    DirectBound(input, d, n, top);
    Pow2Grows(n, 26);
    Pow2Sum(8, 8);
    Pow2Sum(16, 8);
    Pow2Sum(24, 2);
    MulStep(Pow2(n), Pow2(26), 4);
    MulStep(top + 1, 4, Pow2(n));
    ReverseBound(input, e, ALIGN, 1, 4, 1, high * 16);
  }

  /** The two forms of the distance check. */
  lemma DistanceCheck(p: Props, text: seq<byte>, processedPos: nat, checkDicSize: nat)
    requires p.dicSize < WORD
    requires if checkDicSize == 0 then processedPos == |text| <= p.dicSize else checkDicSize == p.dicSize <= |text|
    ensures forall d: nat :: Reachable(p, text, d) <==> if checkDicSize == 0 then d < processedPos else d < checkDicSize
  {
  }

  lemma MatchTokenShape(input: seq<byte>, d: Dec, c: Context)
    requires MatchRead(input, d, c).Some?
    ensures var t := MatchRead(input, d, c).value.0;
            t.Match? && (t.distance < WORD ==> ValidToken(t))
  {
  }

  /** Where a repeated match takes the machine. */
  lemma RepMoves(p: Props, lz: Lz, t: Token, index: nat)
    requires lz.state < NUM_STATES && ValidToken(t) && Reachable(p, lz.text, lz.reps.Get(index)) && lz.reps.Get(index) < |lz.text|
    requires if t.Rep? then t.index == index else t.ShortRep? && index == 0
    ensures Applicable(p, lz, t)
    ensures var len := if t.Rep? then t.len else 1;
            Next(p, lz, t) == Lz(if t.Rep? then RepNext(lz.state) else ShortRepNext(lz.state), lz.reps.ToFront(index),
                                 CopyMatch(lz.text, lz.reps.Get(index), len))
  {
  }

  lemma CopyOne(text: seq<byte>, d: nat)
    requires d < |text|
    ensures CopyMatch(text, d, 1) == text + [text[|text| - 1 - d]]
  {
    CopyNothing(text + [text[|text| - 1 - d]], d);
  }

  lemma RepSize(p: Props, lz: Lz, text: seq<byte>, dicPos: nat, size: nat)
    requires ValidLz(p, lz) && |lz.text| > 0 && text != [] && (size >= p.dicSize || |text| <= dicPos) && dicPos <= size
    ensures lz.reps.r0 < p.dicSize && (lz.reps.r0 < |text| ==> lz.reps.r0 < size)
  {
  }

  lemma {:induction false} CopyTwice(text: seq<byte>, d: nat, a: nat, b: nat)
    requires d < |text|
    ensures CopyMatch(CopyMatch(text, d, a), d, b) == CopyMatch(text, d, a + b)
    decreases a
  {
    if a > 0 {
      CopyTwice(text + [text[|text| - 1 - d]], d, a - 1, b);
    }
  }

  /** Positions modulo 2^32 keep their low bits. */
  lemma PositionWraps(n: nat, bits: nat)
    requires bits <= 4
    ensures Wrap(n) % Pow2(bits) == n % Pow2(bits)
  {
    hide Pow2;
    PowersOfWord();
    Pow2Sum(bits, 32 - bits);
    assert bits + (32 - bits) == 32;
    ModOfMod(n, Pow2(bits), Pow2(32 - bits));
  }

  lemma PowersOfWord()
    ensures Pow2(32) == WORD
  {
    hide Pow2;
    Powers();
    Pow2Sum(8, 8);
    Pow2Sum(16, 16);
  }

  lemma CopyStep(dic: seq<byte>, dicPos: nat, text: seq<byte>, rep0: nat, left: nat)
    requires Window(dic, dicPos, text) && 1 <= rep0 <= |text| && rep0 <= |dic| && left > 0
    ensures var b := dic[Back(dicPos, |dic|, rep0)];
            CopyMatch(text, rep0 - 1, left) == CopyMatch(text + [b], rep0 - 1, left - 1)
  {
  }

  lemma CopyNothing(text: seq<byte>, d: nat)
    requires d < |text|
    ensures CopyMatch(text, d, 0) == text
  {
  }

  /** Every remembered distance can be copied from. */
  lemma RepFits(p: Props, lz: Lz, index: nat, dicPos: nat, size: nat)
    requires ValidLz(p, lz) && lz.text != [] && (size >= p.dicSize || |lz.text| <= dicPos) && dicPos <= size
    ensures var d := lz.reps.Get(index);
            Reachable(p, lz.text, d) && d < |lz.text| && d < size && d < p.dicSize && lz.state < NUM_STATES
    ensures lz.reps.Get(0) == lz.reps.r0
    ensures lz.reps.ToFront(index).r0 == lz.reps.Get(index)
  {
  }
}
