/** Valid streams in pieces: whatever the sizes of the input and output buffers, the decoder
    writes the text that was encoded, refuses nothing and stops where the stream stops. */
module LzmaResume {
  import opened Arith
  import opened Bytes
  import opened RangeCoder
  import opened LzmaModel
  import opened LzmaTokens
  import opened LzmaStream
  import opened LzmaLookahead
  import opened LzmaInputBound
  import opened LzmaFollow
  import opened LzmaDecoder

  // ---------- What is read is a parse ----------

  /** What is read is a parse, and leads where the parse leads. */
  lemma {:induction false} ReadParses(p: Props, input: seq<byte>, d: Dec, lz: Lz, n: nat)
    requires p.lc <= 8 && TokensRead(p, input, d, lz, n).Some?
    ensures var (us, lz1, d1) := TokensRead(p, input, d, lz, n).value;
            |us| == n && Parses(p, lz, us) && lz1 == After(p, lz, us)
    decreases n
  {
    hide TokenRead, ContextOf, Next, Applicable;
    if n > 0 {
      var (t, d1) := TokenRead(input, d, ContextOf(p, lz)).value;
      ReadParses(p, input, d1, Next(p, lz, t), n - 1);
      var us := TokensRead(p, input, d1, Next(p, lz, t), n - 1).value.0;
      assert ([t] + us)[1..] == us;
    }
  }

  lemma {:induction false} AfterExtends(p: Props, lz: Lz, ts: seq<Token>)
    requires ValidProps(p) && ValidLz(p, lz) && Parses(p, lz, ts)
    ensures ValidLz(p, After(p, lz, ts)) && lz.text <= After(p, lz, ts).text
    ensures |lz.text| + |ts| <= |After(p, lz, ts).text|
    decreases |ts|
  {
    hide ContextOf, Next, Applicable, ValidLz;
    if ts != [] {
      NextIsValid(p, lz, ts[0]);
      AfterExtends(p, Next(p, lz, ts[0]), ts[1..]);
    }
  }

  // ---------- A valid stream, with or without bytes behind it ----------

  /** Normalised, the reader is at position n with nothing left in code. */
  ghost predicate Finished(input: seq<byte>, rd: Reader, n: nat) {
    Normalize(input, rd).Some? && Normalize(input, rd).value.pos == n && Normalize(input, rd).value.code == 0
  }

  function TextOf(p: Props, ts: seq<Token>): seq<byte>
    requires Parses(p, LZ_START, ts)
  {
    After(p, LZ_START, ts).text
  }

  /** Bytes behind the stream do not disturb the round trip. */
  lemma ValidRead(p: Props, ts: seq<Token>, endMark: bool, output: seq<byte>, input: seq<byte>)
    requires IsStream(p, ts, endMark, output) && output <= input
    ensures StartDecoder(p, input).Some?
    ensures var r := TokensRead(p, input, StartDecoder(p, input).value, LZ_START, |ts|);
            r.Some? && var (us, lz, d) := r.value;
            us == ts && lz == After(p, LZ_START, ts) && |d.probs| == NumProbs(p) && d.adapts &&
            if !endMark then Finished(input, d.rd, |output|)
            else
              var t := TokenRead(input, d, ContextOf(p, lz));
              t.Some? && t.value.0 == END_MARKER && Finished(input, t.value.1.rd, |output|)
  {
    hide TokensRead, TokenRead, ContextOf, IsStream, Parses, After, ValidLz;
    StreamRoundTrip(p, ts, endMark, output);
    ValidPropsOf(p, ts, endMark, output);
    StartIsValid(p);
    var more := input[|output|..];
    assert input == output + more;
    var d0 := StartDecoder(p, output).value;
    assert StartDecoder(p, input) == Some(d0);
    TokensInLongerInput(p, output, more, d0, LZ_START, |ts|);
    var (us, lz, d) := TokensRead(p, output, d0, LZ_START, |ts|).value;
    if endMark {
      ContextIsValid(p, lz);
      SameToken(output, input, d, ContextOf(p, lz));
    }
  }

  lemma SameToken(output: seq<byte>, input: seq<byte>, d: Dec, c: Context)
    requires output <= input && ValidContext(c, |d.probs|) && d.rd.pos <= |output| && TokenRead(output, d, c).Some?
    ensures TokenRead(input, d, c) == TokenRead(output, d, c)
  {
    hide TokenRead;
    assert output[d.rd.pos..|output|] == input[d.rd.pos..|output|];
    TokenAlike(output, d, input, d, 0, |output|, true, c);
  }

  lemma ValidPropsOf(p: Props, ts: seq<Token>, endMark: bool, output: seq<byte>)
    requires IsStream(p, ts, endMark, output)
    ensures ValidProps(p) && Parses(p, LZ_START, ts)
  {
  }

  /** Reading any number of tokens from a valid stream gives those that were encoded. */
  lemma ValidTokens(p: Props, ts: seq<Token>, endMark: bool, output: seq<byte>, input: seq<byte>, n: nat)
    requires IsStream(p, ts, endMark, output) && output <= input && StartDecoder(p, input).Some?
    requires TokensRead(p, input, StartDecoder(p, input).value, LZ_START, n).Some?
    ensures var lz := TokensRead(p, input, StartDecoder(p, input).value, LZ_START, n).value.1;
            ValidLz(p, lz) &&
            if n <= |ts|
            then lz.text <= TextOf(p, ts) && (n == |ts| ==> lz == After(p, LZ_START, ts)) && (n < |ts| ==> |lz.text| < |TextOf(p, ts)|)
            else !endMark && TextOf(p, ts) <= lz.text && |TextOf(p, ts)| < |lz.text|
  {
    hide TokenRead, ContextOf, ValidLz, IsStream, Finished, Next, TokensRead, Parses;
    ValidRead(p, ts, endMark, output, input);
    ValidPropsOf(p, ts, endMark, output);
    StartIsValid(p);
    var d0 := StartDecoder(p, input).value;
    if n <= |ts| {
      ReadOn(p, input, d0, LZ_START, n, |ts| - n);
    } else {
      ReadOn(p, input, d0, LZ_START, |ts|, n - |ts|);
      NothingBehindMark(p, input, d0, |ts|, n - |ts|);
    }
  }

  /** Reading on only lengthens the text. */
  lemma ReadOn(p: Props, input: seq<byte>, d: Dec, lz: Lz, n: nat, k: nat)
    requires ValidProps(p) && ValidLz(p, lz) && TokensRead(p, input, d, lz, n + k).Some?
    ensures TokensRead(p, input, d, lz, n).Some?
    ensures var (lz1, lz2) := (TokensRead(p, input, d, lz, n).value.1, TokensRead(p, input, d, lz, n + k).value.1);
            ValidLz(p, lz1) && ValidLz(p, lz2) && lz1.text <= lz2.text && |lz1.text| + k <= |lz2.text|
  {
    hide TokenRead, ContextOf, ValidLz, Next, TokensRead, Parses, After;
    ReadSplit(p, input, d, lz, n, k);
    var (us, lz1, d1) := TokensRead(p, input, d, lz, n).value;
    ReadParses(p, input, d, lz, n);
    AfterExtends(p, lz, us);
    ReadParses(p, input, d1, lz1, k);
    AfterExtends(p, lz1, TokensRead(p, input, d1, lz1, k).value.0);
  }

  /** No token is read in the place of an end marker. */
  lemma NothingBehindMark(p: Props, input: seq<byte>, d: Dec, n: nat, k: nat)
    requires ValidProps(p) && TokensRead(p, input, d, LZ_START, n + k).Some? && k > 0 && TokensRead(p, input, d, LZ_START, n).Some?
    ensures var (us, lz, e) := TokensRead(p, input, d, LZ_START, n).value;
            !(TokenRead(input, e, ContextOf(p, lz)).Some? && TokenRead(input, e, ContextOf(p, lz)).value.0 == END_MARKER)
  {
    hide TokenRead, ContextOf, Next;
    ReadSplit(p, input, d, LZ_START, n, k);
  }

  /** The token after the first n. */
  lemma ValidNext(p: Props, ts: seq<Token>, endMark: bool, output: seq<byte>, input: seq<byte>, n: nat)
    requires IsStream(p, ts, endMark, output) && output <= input && n < |ts| && StartDecoder(p, input).Some?
    requires TokensRead(p, input, StartDecoder(p, input).value, LZ_START, n).Some?
    ensures var (us, lz, d) := TokensRead(p, input, StartDecoder(p, input).value, LZ_START, n).value;
            var r := TokenRead(input, d, ContextOf(p, lz));
            r.Some? && Applicable(p, lz, r.value.0) && Normalize(input, r.value.1.rd).Some?
  {
    hide TokenRead, ContextOf, ValidLz, IsStream, Next, Applicable, Parses, After;
    ValidRead(p, ts, endMark, output, input);
    ValidPropsOf(p, ts, endMark, output);
    var d0 := StartDecoder(p, input).value;
    var (us, lz, d) := TokensRead(p, input, d0, LZ_START, n).value;
    ReadSplit(p, input, d0, LZ_START, n, |ts| - n);
    var (t, d1) := TokenRead(input, d, ContextOf(p, lz)).value;
    var lz1 := Next(p, lz, t);
    if n + 1 < |ts| {
      NextStarts(input, d1, ContextOf(p, lz1));
    } else {
      assert TokensRead(p, input, d1, lz1, 0) == Some(([], lz1, d1));
      if endMark {
        NextStarts(input, d1, ContextOf(p, lz1));
      }
    }
  }

  lemma NextStarts(input: seq<byte>, d: Dec, c: Context)
    requires TokenRead(input, d, c).Some?
    ensures Normalize(input, d.rd).Some?
  {
  }

  // ---------- A stopped decoder on a valid stream ----------

  lemma ValidFollows(p: Props, ts: seq<Token>, endMark: bool, output: seq<byte>, input: seq<byte>, n: nat, lz: Lz, rd: Reader, probs: seq<nat>)
    requires IsStream(p, ts, endMark, output) && output <= input && Follows(p, input, n, lz, rd, probs)
    ensures if n <= |ts| then lz.text <= TextOf(p, ts) && (n == |ts| <==> lz.text == TextOf(p, ts))
            else !endMark && TextOf(p, ts) <= lz.text && |TextOf(p, ts)| < |lz.text|
  {
    hide IsStream, TokensRead, After;
    ValidTokens(p, ts, endMark, output, input, n);
  }

  /** A whole symbol is there, until the stream is used up. */
  lemma ValidAhead(p: Props, ts: seq<Token>, endMark: bool, output: seq<byte>, input: seq<byte>, n: nat, lz: Lz, rd: Reader, probs: seq<nat>)
    requires IsStream(p, ts, endMark, output) && output <= input && Follows(p, input, n, lz, rd, probs) && rd.range >= TOP
    requires n < |ts| || (n == |ts| && endMark)
    ensures SymbolRead(input, Dec(rd, probs, true), ContextOf(p, lz)).Some?
  {
    hide IsStream, TokensRead, TokenRead, After, Parses, Applicable, ContextOf;
    if n < |ts| {
      ValidNext(p, ts, endMark, output, input, n);
    } else {
      ValidRead(p, ts, endMark, output, input);
    }
    SameNext(p, input, n, lz, rd, probs);
  }

  /** Without an end marker the last token leaves nothing in code, and no byte unread. */
  lemma ValidEnd(p: Props, ts: seq<Token>, output: seq<byte>, input: seq<byte>, lz: Lz, rd: Reader, probs: seq<nat>)
    requires IsStream(p, ts, false, output) && output <= input && Follows(p, input, |ts|, lz, rd, probs) && rd.range >= TOP
    ensures rd.code == 0 && rd.pos == |output|
  {
    hide IsStream, TokensRead, After, Parses;
    ValidRead(p, ts, false, output, input);
  }

  /** A valid stream holds a fault for those only who stop inside its text or read past its end. */
  lemma ValidFault(p: Props, ts: seq<Token>, endMark: bool, output: seq<byte>, input: seq<byte>, n: nat, lz: Lz, full: bool)
    requires IsStream(p, ts, endMark, output) && output <= input && FaultAt(p, input, n, lz, full)
    ensures (full && |lz.text| < |TextOf(p, ts)|) ||
            (!endMark && |lz.text| >= |TextOf(p, ts)| && (|lz.text| == |TextOf(p, ts)| ==> !Unfinished(p, input, n)))
  {
    hide IsStream, TokensRead, TokenRead, After, Parses, Applicable, ContextOf;
    ValidTokens(p, ts, endMark, output, input, n);
    if n < |ts| {
      ValidNext(p, ts, endMark, output, input, n);
    } else if n == |ts| {
      ValidRead(p, ts, endMark, output, input);
    }
  }

  /** After the last token there is no end marker where none was written. */
  lemma NoMarkAtEnd(p: Props, ts: seq<Token>, output: seq<byte>, input: seq<byte>, lz: Lz, rd: Reader)
    requires IsStream(p, ts, false, output) && output <= input
    ensures !MarkAt(p, input, |ts|, lz, rd)
  {
    hide IsStream, TokensRead, TokenRead, After, Parses, ContextOf, ValidLz;
    ValidRead(p, ts, false, output, input);
    ValidPropsOf(p, ts, false, output);
    if MarkAt(p, input, |ts|, lz, rd) {
      ValidTokens(p, ts, false, output, input, |ts|);
      StartIsValid(p);
      ContextIsValid(p, lz);
      var d0 := StartDecoder(p, input).value;
      TokensKeepGood(p, input, d0, LZ_START, |ts|);
      CodeTellsLiteral(input, TokensRead(p, input, d0, LZ_START, |ts|).value.2, ContextOf(p, lz));
      assert false;
    }
  }

  /** An end marker is found where it was written. */
  lemma ValidMark(p: Props, ts: seq<Token>, endMark: bool, output: seq<byte>, input: seq<byte>, n: nat, lz: Lz, rd: Reader)
    requires IsStream(p, ts, endMark, output) && output <= input && MarkAt(p, input, n, lz, rd) && rd.range >= TOP
    ensures if endMark then lz.text == TextOf(p, ts) && rd.code == 0 && rd.pos == |output|
            else TextOf(p, ts) <= lz.text && |TextOf(p, ts)| < |lz.text|
  {
    hide IsStream, TokensRead, TokenRead, After, Parses, ContextOf;
    ValidTokens(p, ts, endMark, output, input, n);
    ValidPropsOf(p, ts, endMark, output);
    if n < |ts| {
      ValidNext(p, ts, endMark, output, input, n);
    } else if n == |ts| {
      ValidRead(p, ts, endMark, output, input);
      if !endMark {
        NoMarkAtEnd(p, ts, output, input, lz, rd);
      }
    }
  }

  /** Before an end marker something is left in code. */
  lemma ValidMarkAhead(p: Props, ts: seq<Token>, output: seq<byte>, input: seq<byte>, lz: Lz, rd: Reader, probs: seq<nat>)
    requires IsStream(p, ts, true, output) && output <= input && Follows(p, input, |ts|, lz, rd, probs)
    requires TOP <= rd.range < WORD && GoodProbs(probs) && |probs| == NumProbs(p)
    ensures rd.code != 0
  {
    hide IsStream, TokensRead, TokenRead, After, Parses, ContextOf, ValidLz;
    ValidRead(p, ts, true, output, input);
    ValidPropsOf(p, ts, true, output);
    ValidTokens(p, ts, true, output, input, |ts|);
    SameNext(p, input, |ts|, lz, rd, probs);
    ContextIsValid(p, lz);
    if rd.code == 0 {
      CodeTellsLiteral(input, Dec(rd, probs, true), ContextOf(p, lz));
      assert false;
    }
  }

  /** A match that goes past the end of the text begins behind it. */
  lemma ValidBegun(p: Props, ts: seq<Token>, endMark: bool, output: seq<byte>, input: seq<byte>, n: nat, lz: Lz, rd: Reader, probs: seq<nat>)
    requires IsStream(p, ts, endMark, output) && output <= input && Follows(p, input, n, lz, rd, probs) && n > |ts|
    ensures TextBefore(p, input, n) >= |TextOf(p, ts)|
  {
    hide IsStream, TokensRead, TokenRead, After, Parses, ContextOf;
    var d0 := StartDecoder(p, input).value;
    ReadSplit(p, input, d0, LZ_START, n - 1, 1);
    ValidTokens(p, ts, endMark, output, input, n - 1);
  }

  // ---------- The decoder itself ----------

  ghost predicate Comparable(a: seq<byte>, b: seq<byte>) {
    a <= b || b <= a
  }

  /** A decoder that was given the beginning of a valid stream, or the stream and more. */
  ghost predicate OnValid(dec: LzmaDec, ts: seq<Token>, endMark: bool, output: seq<byte>)
    reads dec, dec.probs, dec.dic, dec.tempBuf
  {
    dec.Stable() && IsStream(dec.props, ts, endMark, output) && Comparable(dec.stream, output)
  }

  /** The larger of two comparable inputs, and what is missing from the smaller. */
  lemma Covering(a: seq<byte>, b: seq<byte>) returns (input: seq<byte>, more: seq<byte>)
    requires Comparable(a, b)
    ensures b <= input && input == a + more && (b <= a ==> input == a)
  {
    if a <= b {
      input, more := b, b[|a|..];
    } else {
      input, more := a, [];
    }
  }

  /** The decoder behind the header, seen from an input that covers the whole stream. */
  lemma OnCovering(dec: LzmaDec, ts: seq<Token>, endMark: bool, output: seq<byte>)
    returns (input: seq<byte>, n: nat, lz: Lz, probs: seq<nat>)
    requires OnValid(dec, ts, endMark, output) && !dec.needFlush
    ensures output <= input && dec.stream <= input && (output <= dec.stream ==> input == dec.stream)
    ensures GoodProbs(probs) && |probs| == NumProbs(dec.props) && TOP <= dec.range < WORD
    ensures dec.text <= lz.text && (dec.text == lz.text <==> dec.remainLen == 0 || dec.remainLen >= MATCH_SPEC_LEN_START)
    ensures !dec.needInitState ==> lz == dec.lz && probs == dec.probs[..]
    ensures var rd := Reader(dec.range, dec.code, |dec.stream| - dec.tempBufSize);
            if dec.remainLen < MATCH_SPEC_LEN_START
            then Follows(dec.props, input, n, lz, rd, probs) && (dec.remainLen > 0 ==> TextBefore(dec.props, input, n) < |dec.text|)
            else dec.remainLen == MATCH_SPEC_LEN_START && MarkAt(dec.props, input, n, lz, rd) && dec.tempBufSize == 0
  {
    hide IsStream, Follows, TextBefore, MarkAt, GoodProbs, ValidLz, SymbolRead, ContextOf, CopyMatch, StartReader, StartProbs;
    var more;
    input, more := Covering(dec.stream, output);
    var rd := Reader(dec.range, dec.code, |dec.stream| - dec.tempBufSize);
    if dec.needInitState {
      n, lz, probs := 0, LZ_START, StartProbs(dec.props);
      FollowsFromStart(dec.props, dec.stream, rd);
      NormalStart(dec.stream);
      FollowsInLongerInput(dec.props, dec.stream, more, n, lz, rd, probs);
    } else {
      n, lz, probs := dec.count, dec.lz, dec.probs[..];
      if dec.remainLen < MATCH_SPEC_LEN_START {
        FollowsInLongerInput(dec.props, dec.stream, more, n, lz, rd, probs);
        SameTextBefore(dec.props, dec.stream, more, n, lz, rd, probs);
      } else {
        MarkInLongerInput(dec.props, dec.stream, more, n, lz, rd);
      }
    }
  }

  lemma NormalStart(input: seq<byte>)
    requires StartReader(input).Some?
    ensures TOP <= StartReader(input).value.range < WORD
  {
  }

  /** Between calls the text written is a beginning of the text that was encoded; without an end
      marker this holds as long as the caller asks for no more than was encoded. */
  lemma TextIsRight(dec: LzmaDec, ts: seq<Token>, endMark: bool, output: seq<byte>)
    requires OnValid(dec, ts, endMark, output)
    ensures var whole := TextOf(dec.props, ts);
            (if |dec.text| <= |whole| then dec.text <= whole else !endMark && whole <= dec.text) &&
            (|dec.text| <= |whole| && dec.remainLen > 0 ==>
              if dec.remainLen < MATCH_SPEC_LEN_START then |dec.text| < |whole| else dec.text == whole && dec.code == 0 && endMark)
  {
    hide IsStream, Follows, TextBefore, MarkAt, GoodProbs, ValidLz, SymbolRead, ContextOf, StartReader, After, Parses;
    ValidPropsOf(dec.props, ts, endMark, output);
    if !dec.needFlush {
      var input, n, lz, probs := OnCovering(dec, ts, endMark, output);
      var rd := Reader(dec.range, dec.code, |dec.stream| - dec.tempBufSize);
      if dec.remainLen < MATCH_SPEC_LEN_START {
        ValidFollows(dec.props, ts, endMark, output, input, n, lz, rd, probs);
        if n > |ts| {
          ValidBegun(dec.props, ts, endMark, output, input, n, lz, rd, probs);
        }
      } else {
        ValidMark(dec.props, ts, endMark, output, input, n, lz, rd);
      }
    }
  }

  // ---------- Single calls ----------

  /** What LzmaDec_DecodeToDic and LzmaDec_DecodeToBuf promise of a call that asks for the text up to length reach. */
  ghost predicate Called(dec: LzmaDec, was: Moment, reach: int, src: seq<byte>, finishMode: FinishMode, res: SRes, srcLen: nat, status: Status)
    reads dec, dec.probs, dec.dic, dec.tempBuf
  {
    (res == Ok || res == ErrorData) &&
    (res == Ok ==> dec.Progress(was, reach, src, srcLen) && dec.StatusMeans(reach, finishMode, srcLen == |src|, status)) &&
    (res == ErrorData ==> dec.Refused(was.stream + src, reach, finishMode))
  }

  /** A call of LzmaDec_DecodeToDic is one of them. */
  lemma CalledToDic(dec: LzmaDec, was: Moment, dicLimit: nat, src: seq<byte>, finishMode: FinishMode, res: SRes, srcLen: nat, status: Status)
    requires res == Ok || res == ErrorData
    requires res == Ok ==> dec.OnTheWay(was, dicLimit, src, 0, srcLen) && dec.StatusMeans(Reach(was, dicLimit), finishMode, srcLen == |src|, status)
    requires res == ErrorData ==> dec.Refused(was.stream + src, Reach(was, dicLimit), finishMode)
    ensures Called(dec, was, Reach(was, dicLimit), src, finishMode, res, srcLen, status)
  {
    hide LzmaDec.Stable, LzmaDec.StatusMeans, LzmaDec.Refused;
    if res == Ok {
      assert src[0..srcLen] == src[..srcLen];
    }
  }

  /** A valid stream is refused only by a caller that says FinishEnd inside the text; a caller
      may not ask for more than was encoded when there is no end marker to stop the decoder.
      Even then the text written is right. */
  lemma NoFalseAlarm(dec: LzmaDec, was: Moment, reach: int, src: seq<byte>, finishMode: FinishMode, res: SRes, srcLen: nat, status: Status,
                              ts: seq<Token>, endMark: bool, output: seq<byte>)
    requires Called(dec, was, reach, src, finishMode, res, srcLen, status)
    requires IsStream(dec.props, ts, endMark, output) && Comparable(was.stream + src, output)
    requires endMark || reach <= |TextOf(dec.props, ts)|
    ensures res == ErrorData ==> finishMode == FinishEnd && reach < |TextOf(dec.props, ts)|
    ensures dec.text <= TextOf(dec.props, ts)
  {
    hide IsStream, Follows, TextBefore, FaultAt, MarkAt, SymbolRead, After, Parses, Unfinished, LzmaDec.TextOk;
    var p, all := dec.props, was.stream + src;
    ValidPropsOf(p, ts, endMark, output);
    if res == ErrorData {
      StreamRoundTrip(p, ts, endMark, output);
      var input, more := Covering(all, output);
      var atLimit := |dec.lz.text| == reach;
      if FaultAt(p, all, dec.count, dec.lz, atLimit) && dec.text == dec.lz.text && |dec.lz.text| <= reach &&
         (atLimit ==> finishMode == FinishEnd && Unfinished(p, all, dec.count)) {
        FaultInLongerInput(p, all, more, dec.count, dec.lz, atLimit);
        ValidFault(p, ts, endMark, output, input, dec.count, dec.lz, atLimit);
        FaultText(p, ts, endMark, output, input, dec.count, dec.lz, atLimit);
        if atLimit {
          UnfinishedInLongerInput(p, all, more, dec.count);
        }
      } else if !(|all| >= RC_INIT_SIZE && all[0] != 0) {
        assert dec.stream <= all;
        TextIsRight(dec, ts, endMark, output);
      }
    } else {
      assert dec.stream <= all;
      TextIsRight(dec, ts, endMark, output);
    }
  }

  /** The text up to a fault is a beginning of the text, or goes past it. */
  lemma FaultText(p: Props, ts: seq<Token>, endMark: bool, output: seq<byte>, input: seq<byte>, n: nat, lz: Lz, full: bool)
    requires IsStream(p, ts, endMark, output) && output <= input && FaultAt(p, input, n, lz, full)
    ensures lz.text <= TextOf(p, ts) || |TextOf(p, ts)| < |lz.text|
  {
    hide IsStream, Parses, After, TokenRead;
    ValidTokens(p, ts, endMark, output, input, n);
  }

  /** A symbol that is in the stream is in the part of it that was kept. */
  lemma KeptHasSymbol(dec: LzmaDec)
    requires dec.Stable() && !dec.needInitState && dec.Hungry()
    ensures SymbolRead(dec.stream, Dec(Reader(dec.range, dec.code, |dec.stream| - dec.tempBufSize), dec.probs[..], true),
                       ContextOf(dec.props, dec.lz)).None?
  {
    hide SymbolRead, ContextOf, Follows, TextBefore, MarkAt, GoodProbs, ValidLz;
    var k := |dec.stream| - dec.tempBufSize;
    var kept := dec.Kept();
    var d := Dec(Reader(dec.range, dec.code, k), dec.probs[..], true);
    var c := ContextOf(dec.props, dec.lz);
    ContextIsValid(dec.props, dec.lz);
    if SymbolRead(dec.stream, d, c).Some? {
      var e := d.(rd := d.rd.(pos := 0));
      assert dec.stream[k..|dec.stream|] == kept[0..|kept|];
      SymbolAlike(dec.stream, d, kept, e, -k, |dec.stream|, true, c);
      assert false;
    }
  }

  /** Which symbols are behind a decoder that did not fail, seen from an input that covers the stream. */
  lemma WhereItStands(dec: LzmaDec, ts: seq<Token>, endMark: bool, output: seq<byte>)
    requires OnValid(dec, ts, endMark, output) && !dec.needFlush && |dec.text| <= |TextOf(dec.props, ts)|
    ensures dec.remainLen == MATCH_SPEC_LEN_START ==>
              endMark && dec.text == TextOf(dec.props, ts) && dec.code == 0 && |dec.stream| - dec.tempBufSize == |output| && dec.tempBufSize == 0
    ensures dec.text == TextOf(dec.props, ts) && dec.remainLen == 0 ==>
              if endMark then dec.code != 0 else dec.code == 0 && |dec.stream| - dec.tempBufSize == |output|
    ensures (dec.text != TextOf(dec.props, ts) || endMark) && output <= dec.stream && dec.remainLen == 0 ==> !dec.Hungry()
  {
    hide IsStream, Follows, TextBefore, FaultAt, MarkAt, SymbolRead, After, Parses, Unfinished, LzmaDec.TextOk, ContextOf, GoodProbs, ValidLz;
    var p := dec.props;
    ValidPropsOf(p, ts, endMark, output);
    TextIsRight(dec, ts, endMark, output);
    var input, n, lz, probs := OnCovering(dec, ts, endMark, output);
    var rd := Reader(dec.range, dec.code, |dec.stream| - dec.tempBufSize);
    if dec.remainLen == MATCH_SPEC_LEN_START {
      ValidMark(p, ts, endMark, output, input, n, lz, rd);
    } else if dec.remainLen == 0 {
      ValidFollows(p, ts, endMark, output, input, n, lz, rd, probs);
      if n == |ts| && endMark {
        ValidMarkAhead(p, ts, output, input, lz, rd, probs);
      }
      if n == |ts| && !endMark {
        ValidEnd(p, ts, output, input, lz, rd, probs);
      }
      if dec.Hungry() && output <= dec.stream && (n < |ts| || endMark) {
        KeptHasSymbol(dec);
        ValidAhead(p, ts, endMark, output, input, n, lz, rd, probs);
      }
    }
  }

  /** Given the whole stream, a call that does not fail writes all the text that was asked for, however the stream
      was cut up before; with room for all of it, it uses up the stream and nothing behind it. */
  lemma WholeStreamGiven(dec: LzmaDec, was: Moment, reach: int, src: seq<byte>, finishMode: FinishMode, srcLen: nat, status: Status,
                                  ts: seq<Token>, endMark: bool, output: seq<byte>)
    requires Called(dec, was, reach, src, finishMode, Ok, srcLen, status)
    requires IsStream(dec.props, ts, endMark, output) && output <= was.stream + src
    requires endMark || reach <= |TextOf(dec.props, ts)|
    ensures dec.text <= TextOf(dec.props, ts) && (dec.text == TextOf(dec.props, ts) || |dec.text| == reach)
    ensures reach >= |TextOf(dec.props, ts)| ==> dec.text == TextOf(dec.props, ts)
    ensures status != NeedsMoreInput
    ensures endMark && (reach > |TextOf(dec.props, ts)| || (reach == |TextOf(dec.props, ts)| && finishMode == FinishEnd)) ==>
              status == FinishedWithMark && dec.stream == output
    ensures endMark && reach == |TextOf(dec.props, ts)| ==> (status == FinishedWithMark && dec.stream == output) || status == NotFinished
    ensures !endMark && reach == |TextOf(dec.props, ts)| ==>
              status == MaybeFinishedWithoutMark && |dec.stream| - dec.tempBufSize == |output|
  {
    hide IsStream, After, Parses, LzmaDec.Stable;
    var p := dec.props;
    ValidPropsOf(p, ts, endMark, output);
    StreamLength(p, ts, endMark, output);
    assert dec.stream <= was.stream + src;
    TextIsRight(dec, ts, endMark, output);
    HeaderTaken(dec);
    if status == NeedsMoreInput {
      assert dec.stream == was.stream + src;
    }
    if !dec.needFlush {
      WhereItStands(dec, ts, endMark, output);
    }
  }

  lemma HeaderTaken(dec: LzmaDec)
    requires dec.Stable()
    ensures dec.needFlush ==> |dec.stream| < RC_INIT_SIZE && dec.remainLen == 0
    ensures dec.remainLen <= MATCH_SPEC_LEN_START
  {
    hide LzmaDec.TextOk, LzmaDec.CheckArmed, LzmaDec.Sound, LzmaDec.PendingText, MarkAt, Follows, LzmaDec.NextIn, StartReader;
  }

  /** Given less than the whole stream, a call that insists on the end asks for more. */
  lemma CutStream(dec: LzmaDec, was: Moment, reach: int, src: seq<byte>, finishMode: FinishMode, res: SRes, srcLen: nat, status: Status,
                           ts: seq<Token>, endMark: bool, output: seq<byte>)
    requires Called(dec, was, reach, src, finishMode, res, srcLen, status) && finishMode == FinishEnd
    requires IsStream(dec.props, ts, endMark, output) && was.stream + src < output
    requires if endMark then reach >= |TextOf(dec.props, ts)| else reach == |TextOf(dec.props, ts)|
    ensures res == Ok && status == NeedsMoreInput && srcLen == |src| && dec.text <= TextOf(dec.props, ts)
  {
    hide IsStream, After, Parses, LzmaDec.Stable, LzmaDec.Refused, LzmaDec.Hungry;
    ValidPropsOf(dec.props, ts, endMark, output);
    NoFalseAlarm(dec, was, reach, src, finishMode, res, srcLen, status, ts, endMark, output);
    HeaderTaken(dec);
    if !dec.needFlush {
      WhereItStands(dec, ts, endMark, output);
    }
  }

  /** LzmaDec_DecodeToBuf on a valid stream: what it hands out goes on where the text had come to. */
  lemma BufferIsRight(dec: LzmaDec, was: Moment, destLen: nat, src: seq<byte>, finishMode: FinishMode, res: SRes, dest: seq<byte>,
                               srcLen: nat, status: Status, ts: seq<Token>, endMark: bool, output: seq<byte>)
    requires Called(dec, was, |was.text| + destLen, src, finishMode, res, srcLen, status) && dec.text == was.text + dest
    requires IsStream(dec.props, ts, endMark, output) && Comparable(was.stream + src, output)
    requires endMark || |was.text| + destLen <= |TextOf(dec.props, ts)|
    ensures |was.text| + |dest| <= |TextOf(dec.props, ts)| && dest == TextOf(dec.props, ts)[|was.text|..|was.text| + |dest|]
    ensures res == ErrorData ==> finishMode == FinishEnd && |was.text| + destLen < |TextOf(dec.props, ts)|
    ensures res == Ok && output <= was.stream + src ==> |dest| == destLen || dec.text == TextOf(dec.props, ts)
  {
    hide IsStream, After, Parses, LzmaDec.Stable, LzmaDec.Refused, LzmaDec.StatusMeans;
    ValidPropsOf(dec.props, ts, endMark, output);
    NoFalseAlarm(dec, was, |was.text| + destLen, src, finishMode, res, srcLen, status, ts, endMark, output);
    if res == Ok && output <= was.stream + src {
      WholeStreamGiven(dec, was, |was.text| + destLen, src, finishMode, srcLen, status, ts, endMark, output);
    }
  }

  lemma StreamLength(p: Props, ts: seq<Token>, endMark: bool, output: seq<byte>)
    requires IsStream(p, ts, endMark, output)
    ensures |output| >= 5
  {
  }
}
