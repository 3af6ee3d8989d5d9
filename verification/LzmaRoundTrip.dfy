/** The one-call decoder, and the encoder and the decoder joined: data that went through both
    is the data that went in, however the compressed bytes were delivered. */
module LzmaRoundTrip {
  import opened Bytes
  import opened RangeCoder
  import opened LzmaTokens
  import opened LzmaStream
  import opened LzmaEncoder
  import opened LzmaDecoder
  import opened LzmaResume

  /** What one call for destLen bytes of text gives when src and the valid stream output are one the beginning of the
      other: a beginning of the text; all that was asked for if the stream is whole; and a call for more input if it is
      cut off and the caller insists on the end. The data is refused only if the end is asked for too early. */
  ghost predicate Right(whole: seq<byte>, endMark: bool, output: seq<byte>, destLen: nat, src: seq<byte>, finishMode: FinishMode,
                        res: SRes, dest: seq<byte>, srcLen: nat, status: Status) {
    dest <= whole && (res == ErrorData ==> finishMode == FinishEnd && destLen < |whole|) &&
    if output <= src then
      (res == Ok ==> dest == whole || |dest| == destLen) && (res == Ok || res == ErrorData) && (destLen >= |whole| ==> dest == whole) &&
      (endMark && (destLen > |whole| || (destLen == |whole| && finishMode == FinishEnd)) ==> status == FinishedWithMark && srcLen == |output|) &&
      (endMark && destLen == |whole| ==> (status == FinishedWithMark && srcLen == |output|) || status == NotFinished) &&
      (!endMark && destLen == |whole| ==> status == MaybeFinishedWithoutMark && |output| <= srcLen <= |src|)
    else
      finishMode == FinishEnd && destLen >= |whole| ==> res == ErrorInputEof && srcLen == (if |src| < RC_INIT_SIZE then 0 else |src|)
  }

  ghost predicate Decoded(props: Props, destLen: nat, src: seq<byte>, finishMode: FinishMode,
                          res: SRes, dest: seq<byte>, srcLen: nat, status: Status) {
    |dest| <= destLen && srcLen <= |src| &&
    forall ts, endMark: bool, output :: IsStream(props, ts, endMark, output) && Comparable(src, output) && (endMark || destLen <= |TextOf(props, ts)|) ==>
      Right(TextOf(props, ts), endMark, output, destLen, src, finishMode, res, dest, srcLen, status)
  }

  /** LzmaDecode: the dictionary is the destination itself. */
  method LzmaDecode(props: Props, destLen: nat, src: seq<byte>, finishMode: FinishMode)
    returns (res: SRes, dest: seq<byte>, srcLen: nat, status: Status)
    requires ValidProps(props)
    ensures Decoded(props, destLen, src, finishMode, res, dest, srcLen, status)
  {
    hide Decoded, LzmaDec.Stable, LzmaDec.Refused, LzmaDec.StatusMeans;
    srcLen, dest, status := 0, [], NotSpecified;
    if |src| < RC_INIT_SIZE {
      ShortStreams(props, destLen, src, finishMode);
      return ErrorInputEof, dest, srcLen, status;
    }
    var p := new LzmaDec(props, destLen);
    p.Init();
    res, dest, srcLen, status := OneCall(p, destLen, src, finishMode);
  }

  method OneCall(p: LzmaDec, destLen: nat, src: seq<byte>, finishMode: FinishMode)
    returns (res: SRes, dest: seq<byte>, srcLen: nat, status: Status)
    requires p.Stable() && p.text == p.stream == [] && p.dicPos == 0 && destLen == p.dic.Length && |src| >= RC_INIT_SIZE
    modifies p, p.probs, p.dic, p.tempBuf
    ensures Decoded(p.props, destLen, src, finishMode, res, dest, srcLen, status)
  {
    hide Decoded, LzmaDec.Stable, LzmaDec.Refused, LzmaDec.StatusMeans, LzmaDec.Wrote;
    ghost var was := p.Now();
    res, srcLen, status := p.DecodeToDic(destLen, src, finishMode);
    CalledToDic(p, was, destLen, src, finishMode, res, srcLen, status);
    p.Written(was, destLen);
    DecodedInOneCall(p, was, destLen, src, finishMode, res, srcLen, status);
    dest := p.dic[..p.dicPos];
    assert dest == p.text;
    if res == Ok && status == NeedsMoreInput {
      res := ErrorInputEof;
    }
  }

  lemma DecodedInOneCall(dec: LzmaDec, was: Moment, destLen: nat, src: seq<byte>, finishMode: FinishMode, res: SRes, srcLen: nat, status: Status)
    requires Called(dec, was, destLen, src, finishMode, res, srcLen, status) && |src| >= RC_INIT_SIZE
    requires was == Moment([], [], 0) && |dec.text| <= destLen && srcLen <= |src|
    ensures Decoded(dec.props, destLen, src, finishMode, if res == Ok && status == NeedsMoreInput then ErrorInputEof else res,
                    dec.text, srcLen, status)
  {
    hide IsStream, After, Parses, LzmaDec.Refused, LzmaDec.StatusMeans, LzmaDec.Stable, Called, Right;
    forall ts, endMark: bool, output | IsStream(dec.props, ts, endMark, output) && Comparable(src, output)
      ensures Parses(dec.props, LZ_START, ts)
      ensures endMark || destLen <= |TextOf(dec.props, ts)| ==>
                Right(TextOf(dec.props, ts), endMark, output, destLen, src, finishMode,
                      if res == Ok && status == NeedsMoreInput then ErrorInputEof else res, dec.text, srcLen, status)
    {
      ValidPropsOf(dec.props, ts, endMark, output);
      if endMark || destLen <= |TextOf(dec.props, ts)| {
        RightInOneCall(dec, was, destLen, src, finishMode, res, srcLen, status, ts, endMark, output);
      }
    }
  }

  lemma RightInOneCall(dec: LzmaDec, was: Moment, destLen: nat, src: seq<byte>, finishMode: FinishMode, res: SRes, srcLen: nat, status: Status,
                       ts: seq<Token>, endMark: bool, output: seq<byte>)
    requires Called(dec, was, destLen, src, finishMode, res, srcLen, status) && |src| >= RC_INIT_SIZE && was == Moment([], [], 0)
    requires IsStream(dec.props, ts, endMark, output) && Comparable(src, output) && (endMark || destLen <= |TextOf(dec.props, ts)|)
    ensures Right(TextOf(dec.props, ts), endMark, output, destLen, src, finishMode,
                  if res == Ok && status == NeedsMoreInput then ErrorInputEof else res, dec.text, srcLen, status)
  {
    hide IsStream, After, Parses, LzmaDec.Refused, LzmaDec.Stable;
    assert was.stream + src == src;
    ValidPropsOf(dec.props, ts, endMark, output);
    NoFalseAlarm(dec, was, destLen, src, finishMode, res, srcLen, status, ts, endMark, output);
    if output <= src {
      if res == Ok {
        WholeStreamGiven(dec, was, destLen, src, finishMode, srcLen, status, ts, endMark, output);
      }
    } else if finishMode == FinishEnd && destLen >= |TextOf(dec.props, ts)| {
      CutStream(dec, was, destLen, src, finishMode, res, srcLen, status, ts, endMark, output);
    }
  }

  /** A stream that is shorter than the first five bytes is no stream. */
  lemma ShortStreams(props: Props, destLen: nat, src: seq<byte>, finishMode: FinishMode)
    requires |src| < RC_INIT_SIZE
    ensures Decoded(props, destLen, src, finishMode, ErrorInputEof, [], 0, NotSpecified)
  {
    forall ts, endMark: bool, output | IsStream(props, ts, endMark, output) && Comparable(src, output)
      ensures Parses(props, LZ_START, ts) && !(output <= src)
    {
      StreamLength(props, ts, endMark, output);
    }
  }

  /** LzmaEncode, then LzmaDecode. */
  method RoundTrip(props: Props, data: seq<byte>, choices: seq<(nat, nat)>, writeEndMark: bool) returns (back: seq<byte>)
    requires ValidProps(props) && ValidParse(props, LZ_START, data, choices)
    ensures back == data
  {
    var res, srcLen, status;
    ghost var tokens := Spelled(data, 0, choices);
    var stream := Encode(props, data, choices, writeEndMark);
    res, back, srcLen, status := LzmaDecode(props, |data|, stream, FinishEnd);
    ValidPropsOf(props, tokens, writeEndMark, stream);
    assert |TextOf(props, tokens)| == |data|;
  }
}
