/** Following a stream symbol by symbol: a decoder stopped between symbols stands where
    reading the whole prefix at once would stand, however the bytes arrived. */
module LzmaFollow {
  import opened Arith
  import opened Bytes
  import opened RangeCoder
  import opened LzmaModel
  import opened LzmaTokens
  import opened LzmaStream
  import opened LzmaLookahead
  import opened LzmaInputBound

  /** After n tokens of input the machine is lz, the probabilities are probs and, up to a
      normalisation, the reader is rd. */
  ghost predicate Follows(p: Props, input: seq<byte>, n: nat, lz: Lz, rd: Reader, probs: seq<nat>) {
    p.lc <= 8 && StartDecoder(p, input).Some? &&
    var r := TokensRead(p, input, StartDecoder(p, input).value, LZ_START, n);
    r.Some? && r.value.1 == lz && r.value.2.probs == probs && r.value.2.adapts &&
    Normalize(input, rd).Some? && Normalize(input, r.value.2.rd) == Normalize(input, rd)
  }

  /** Reading starts with a normalisation, so one more beforehand changes nothing. */
  lemma ReadNormalized(input: seq<byte>, d: Dec, c: Context)
    requires Normalize(input, d.rd).Some? && Normalize(input, d.rd).value.range >= TOP
    ensures TokenRead(input, d, c) == TokenRead(input, d.(rd := Normalize(input, d.rd).value), c)
  {
    var e := d.(rd := Normalize(input, d.rd).value);
    assert Normalize(input, e.rd) == Some(e.rd);
    assert ReadModelled(input, d, IsMatch(c, true).a) == ReadModelled(input, e, IsMatch(c, true).a);
  }

  lemma SameRead(input: seq<byte>, rd1: Reader, rd2: Reader, probs: seq<nat>, c: Context)
    requires Normalize(input, rd1).Some? && Normalize(input, rd1) == Normalize(input, rd2)
    requires Normalize(input, rd1).value.range >= TOP
    ensures TokenRead(input, Dec(rd1, probs, true), c) == TokenRead(input, Dec(rd2, probs, true), c)
  {
    hide TokenRead;
    ReadNormalized(input, Dec(rd1, probs, true), c);
    ReadNormalized(input, Dec(rd2, probs, true), c);
  }

  /** One token more at the end. */
  lemma {:induction false} TokensReadSnoc(p: Props, input: seq<byte>, d: Dec, lz: Lz, n: nat)
    requires p.lc <= 8 && TokensRead(p, input, d, lz, n).Some?
    ensures var (ts, lz', d') := TokensRead(p, input, d, lz, n).value;
            var r := TokenRead(input, d', ContextOf(p, lz'));
            r.Some? && Applicable(p, lz', r.value.0) ==>
              TokensRead(p, input, d, lz, n + 1) == Some((ts + [r.value.0], Next(p, lz', r.value.0), r.value.1))
    decreases n
  {
    hide TokenRead, Applicable, Next, ContextOf;
    if n == 0 {
      var r := TokenRead(input, d, ContextOf(p, lz));
      if r.Some? && Applicable(p, lz, r.value.0) {
        assert TokensRead(p, input, r.value.1, Next(p, lz, r.value.0), 0).Some?;
        assert [r.value.0] + [] == [] + [r.value.0];
      }
    } else {
      var (t, d1) := TokenRead(input, d, ContextOf(p, lz)).value;
      var next := Next(p, lz, t);
      TokensReadSnoc(p, input, d1, next, n - 1);
      var (ts, lz', d') := TokensRead(p, input, d1, next, n - 1).value;
      var r := TokenRead(input, d', ContextOf(p, lz'));
      if r.Some? && Applicable(p, lz', r.value.0) {
        assert [t] + (ts + [r.value.0]) == [t] + ts + [r.value.0];
      }
    }
  }

  lemma FollowsStep(p: Props, input: seq<byte>, n: nat, lz: Lz, rd: Reader, probs: seq<nat>)
    requires Follows(p, input, n, lz, rd, probs) && Normalize(input, rd).value.range >= TOP
    requires var r := TokenRead(input, Dec(rd, probs, true), ContextOf(p, lz));
             r.Some? && Applicable(p, lz, r.value.0) && Normalize(input, r.value.1.rd).Some? && r.value.1.adapts
    ensures var (t, d) := TokenRead(input, Dec(rd, probs, true), ContextOf(p, lz)).value;
            Follows(p, input, n + 1, Next(p, lz, t), d.rd, d.probs)
  {
    hide TokenRead, TokensRead, Applicable, Next, ContextOf;
    var d0 := StartDecoder(p, input).value;
    var d := TokensRead(p, input, d0, LZ_START, n).value.2;
    SameRead(input, d.rd, rd, probs, ContextOf(p, lz));
    assert d == Dec(d.rd, probs, true);
    TokensReadSnoc(p, input, d0, LZ_START, n);
  }

  // ---------- Reading a sequence of tokens in two parts ----------

  lemma {:induction false} ReadSplit(p: Props, input: seq<byte>, d: Dec, lz: Lz, m: nat, k: nat)
    requires p.lc <= 8 && TokensRead(p, input, d, lz, m + k).Some?
    ensures TokensRead(p, input, d, lz, m).Some?
    ensures var (us, lz1, d1) := TokensRead(p, input, d, lz, m).value;
            TokensRead(p, input, d1, lz1, k).Some? &&
            var (vs, lz2, d2) := TokensRead(p, input, d1, lz1, k).value;
            TokensRead(p, input, d, lz, m + k) == Some((us + vs, lz2, d2))
    decreases m
  {
    hide TokenRead, ContextOf, Next, Applicable;
    if m == 0 {
      var (vs, lz2, d2) := TokensRead(p, input, d, lz, k).value;
      assert [] + vs == vs;
    } else {
      var (t, d1) := TokenRead(input, d, ContextOf(p, lz)).value;
      ReadSplit(p, input, d1, Next(p, lz, t), m - 1, k);
      var (us, lz1, d2) := TokensRead(p, input, d1, Next(p, lz, t), m - 1).value;
      var vs := TokensRead(p, input, d2, lz1, k).value.0;
      assert [t] + (us + vs) == [t] + us + vs;
    }
  }

  /** How long the text was before the last of n tokens. */
  ghost function TextBefore(p: Props, input: seq<byte>, n: nat): nat
    requires p.lc <= 8
  {
    if n == 0 || StartDecoder(p, input).None? then 0
    else
      match TokensRead(p, input, StartDecoder(p, input).value, LZ_START, n - 1)
      case None => 0
      case Some((_, lz, _)) => |lz.text|
  }

  lemma TextBeforeNext(p: Props, input: seq<byte>, n: nat, lz: Lz, rd: Reader, probs: seq<nat>)
    requires Follows(p, input, n, lz, rd, probs)
    ensures TextBefore(p, input, n + 1) == |lz.text|
  {
  }

  // ---------- More input ----------

  lemma {:induction false} TokensInLongerInput(p: Props, input: seq<byte>, more: seq<byte>, d: Dec, lz: Lz, n: nat)
    requires ValidProps(p) && ValidLz(p, lz) && |d.probs| == NumProbs(p) && d.rd.pos <= |input|
    requires TokensRead(p, input, d, lz, n).Some?
    ensures TokensRead(p, input + more, d, lz, n) == TokensRead(p, input, d, lz, n)
    ensures var (ts, lz', d') := TokensRead(p, input, d, lz, n).value;
            ValidLz(p, lz') && |d'.probs| == |d.probs| && d'.rd.pos <= |input| && d'.adapts == d.adapts
    decreases n
  {
    hide TokenRead, ContextOf, Next, Applicable, ValidLz;
    if n > 0 {
      var c := ContextOf(p, lz);
      ContextIsValid(p, lz);
      assert input[d.rd.pos..|input|] == (input + more)[d.rd.pos..|input|];
      TokenAlike(input, d, input + more, d, 0, |input|, true, c);
      var (t, d1) := TokenRead(input, d, c).value;
      SameDec(input, d1, input + more, TokenRead(input + more, d, c).value.1);
      NextIsValid(p, lz, t);
      TokensInLongerInput(p, input, more, d1, Next(p, lz, t), n - 1);
    }
  }

  lemma SameDec(i1: seq<byte>, d1: Dec, i2: seq<byte>, d2: Dec)
    requires Alike(i1, d1, i2, d2, 0, |i1|, true, 0, 0)
    ensures d1 == d2
  {
  }

  lemma SameTextBefore(p: Props, input: seq<byte>, more: seq<byte>, n: nat, lz: Lz, rd: Reader, probs: seq<nat>)
    requires ValidProps(p) && Follows(p, input, n, lz, rd, probs)
    ensures TextBefore(p, input + more, n) == TextBefore(p, input, n)
  {
    hide TokensRead;
    var d0 := StartDecoder(p, input).value;
    assert StartDecoder(p, input + more) == Some(d0);
    if n > 0 {
      StartIsValid(p);
      ReadSplit(p, input, d0, LZ_START, n - 1, 1);
      TokensInLongerInput(p, input, more, d0, LZ_START, n - 1);
    }
  }

  lemma FollowsInLongerInput(p: Props, input: seq<byte>, more: seq<byte>, n: nat, lz: Lz, rd: Reader, probs: seq<nat>)
    requires ValidProps(p) && Follows(p, input, n, lz, rd, probs) && rd.pos <= |input|
    ensures Follows(p, input + more, n, lz, rd, probs)
  {
    hide TokensRead;
    var d0 := StartDecoder(p, input).value;
    assert StartDecoder(p, input + more) == Some(d0);
    StartIsValid(p);
    TokensInLongerInput(p, input, more, d0, LZ_START, n);
  }

  // ---------- Less input ----------

  /** What was read without touching the last bytes does not depend on them. */
  lemma {:induction false} TokensInShorterInput(p: Props, input: seq<byte>, more: seq<byte>, d: Dec, lz: Lz, n: nat)
    requires ValidProps(p) && ValidLz(p, lz) && |d.probs| == NumProbs(p) && d.rd.pos <= |input|
    requires TokensRead(p, input + more, d, lz, n).Some? && TokensRead(p, input + more, d, lz, n).value.2.rd.pos <= |input|
    ensures TokensRead(p, input, d, lz, n) == TokensRead(p, input + more, d, lz, n)
    decreases n
  {
    hide TokenRead, ContextOf, Next, Applicable, ValidLz;
    if n > 0 {
      var c := ContextOf(p, lz);
      ContextIsValid(p, lz);
      var (t, d1) := TokenRead(input + more, d, c).value;
      assert input[d.rd.pos..|input|] == (input + more)[d.rd.pos..|input|];
      TokenAlike(input + more, d, input, d, 0, |input|, true, c);
      assert d1 == TokenRead(input, d, c).value.1;
      NextIsValid(p, lz, t);
      TokensInShorterInput(p, input, more, d1, Next(p, lz, t), n - 1);
    }
  }

  lemma FollowsInShorterInput(p: Props, input: seq<byte>, more: seq<byte>, n: nat, lz: Lz, rd: Reader, probs: seq<nat>)
    requires ValidProps(p) && Follows(p, input + more, n, lz, rd, probs) && rd.range >= TOP && rd.pos <= |input|
    ensures Follows(p, input, n, lz, rd, probs)
  {
    hide TokensRead;
    var d0 := StartDecoder(p, input + more).value;
    assert |input| >= 5;
    assert StartDecoder(p, input) == Some(d0);
    StartIsValid(p);
    TokensInShorterInput(p, input, more, d0, LZ_START, n);
  }

  lemma MarkInShorterInput(p: Props, input: seq<byte>, more: seq<byte>, n: nat, lz: Lz, rd: Reader)
    requires ValidProps(p) && MarkAt(p, input + more, n, lz, rd) && rd.range >= TOP && rd.pos <= |input|
    ensures MarkAt(p, input, n, lz, rd)
  {
    hide TokensRead, TokenRead, ContextOf, ValidLz;
    var d0 := StartDecoder(p, input + more).value;
    assert |input| >= 5;
    assert StartDecoder(p, input) == Some(d0);
    StartIsValid(p);
    var d := TokensRead(p, input + more, d0, LZ_START, n).value.2;
    TokensInShorterInput(p, input, more, d0, LZ_START, n);
    TokensInLongerInput(p, input, more, d0, LZ_START, n);
    ContextIsValid(p, lz);
    assert input[d.rd.pos..|input|] == (input + more)[d.rd.pos..|input|];
    TokenAlike(input + more, d, input, d, 0, |input|, true, ContextOf(p, lz));
  }

  lemma MarkInLongerInput(p: Props, input: seq<byte>, more: seq<byte>, n: nat, lz: Lz, rd: Reader)
    requires ValidProps(p) && MarkAt(p, input, n, lz, rd) && rd.pos <= |input|
    ensures MarkAt(p, input + more, n, lz, rd)
  {
    hide TokensRead, TokenRead, ContextOf, ValidLz;
    var d0 := StartDecoder(p, input).value;
    assert StartDecoder(p, input + more) == Some(d0);
    StartIsValid(p);
    var d := TokensRead(p, input, d0, LZ_START, n).value.2;
    TokensInLongerInput(p, input, more, d0, LZ_START, n);
    ContextIsValid(p, lz);
    assert input[d.rd.pos..|input|] == (input + more)[d.rd.pos..|input|];
    TokenAlike(input, d, input + more, d, 0, |input|, true, ContextOf(p, lz));
  }

  lemma UnfinishedInLongerInput(p: Props, input: seq<byte>, more: seq<byte>, n: nat)
    requires ValidProps(p) && Unfinished(p, input, n)
    ensures Unfinished(p, input + more, n)
  {
    hide TokensRead;
    var d0 := StartDecoder(p, input).value;
    assert StartDecoder(p, input + more) == Some(d0);
    StartIsValid(p);
    TokensInLongerInput(p, input, more, d0, LZ_START, n);
  }

  lemma {:induction false} TokensKeepGood(p: Props, input: seq<byte>, d: Dec, lz: Lz, n: nat)
    requires ValidProps(p) && ValidLz(p, lz) && |d.probs| == NumProbs(p) && GoodProbs(d.probs)
    requires 0x10000 <= d.rd.range < WORD && d.rd.pos <= |input| && TokensRead(p, input, d, lz, n).Some?
    ensures var e := TokensRead(p, input, d, lz, n).value.2;
            GoodProbs(e.probs) && |e.probs| == NumProbs(p) && 0x10000 <= e.rd.range < WORD
    decreases n
  {
    hide TokenRead, ContextOf, Next, Applicable, ValidLz, GoodProbs;
    if n > 0 {
      var c := ContextOf(p, lz);
      ContextIsValid(p, lz);
      TokenKeepsGood(input, d, c);
      var (t, d1) := TokenRead(input, d, c).value;
      NextIsValid(p, lz, t);
      TokensKeepGood(p, input, d1, Next(p, lz, t), n - 1);
    }
  }

  /** The first bit tells a literal, and code 0 makes it one. */
  lemma CodeTellsLiteral(input: seq<byte>, d: Dec, c: Context)
    requires GoodProbs(d.probs) && ValidContext(c, |d.probs|) && 0x10000 <= d.rd.range < WORD
    requires TokenRead(input, d, c).Some? && Normalize(input, d.rd).value.code == 0
    ensures TokenRead(input, d, c).value.0.Literal?
  {
    hide LiteralRead, NonLiteralRead;
    var a := IsMatch(c, true).a;
    BoundIsProper(Normalize(input, d.rd).value.range, d.probs[a]);
    assert !ReadModelled(input, d, a).value.0;
    LiteralIsRead(input, ReadModelled(input, d, a).value.1, c);
  }

  lemma LiteralIsRead(input: seq<byte>, d: Dec, c: Context)
    requires LiteralRead(input, d, c).Some?
    ensures LiteralRead(input, d, c).value.0.Literal?
  {
  }

  lemma FaultInLongerInput(p: Props, input: seq<byte>, more: seq<byte>, n: nat, lz: Lz, full: bool)
    requires ValidProps(p) && FaultAt(p, input, n, lz, full)
    ensures FaultAt(p, input + more, n, lz, full)
  {
    hide TokensRead, TokenRead, ContextOf, ValidLz;
    var d0 := StartDecoder(p, input).value;
    assert StartDecoder(p, input + more) == Some(d0);
    StartIsValid(p);
    var d := TokensRead(p, input, d0, LZ_START, n).value.2;
    TokensInLongerInput(p, input, more, d0, LZ_START, n);
    ContextIsValid(p, lz);
    assert input[d.rd.pos..|input|] == (input + more)[d.rd.pos..|input|];
    TokenAlike(input, d, input + more, d, 0, |input|, true, ContextOf(p, lz));
  }

  lemma StartIsValid(p: Props)
    requires ValidProps(p)
    ensures ValidLz(p, LZ_START)
  {
  }

  /** Nothing read yet. */
  lemma FollowsFromStart(p: Props, input: seq<byte>, rd: Reader)
    requires p.lc <= 8 && StartReader(input) == Some(rd)
    ensures Follows(p, input, 0, LZ_START, rd, StartProbs(p))
  {
  }

  // ---------- A window mem onto the stream, before bytes into it ----------

  function Moved(rd: Reader, before: nat): Reader {
    rd.(pos := before + rd.pos)
  }

  /** A symbol read in the window is the one read in the stream. */
  lemma WindowRead(before: seq<byte>, mem: seq<byte>, d: Dec, c: Context)
    requires ValidContext(c, |d.probs|) && d.rd.pos <= |mem| && TokenRead(mem, d, c).Some?
    ensures var (t, e) := TokenRead(mem, d, c).value;
            TokenRead(before + mem, d.(rd := Moved(d.rd, |before|)), c) == Some((t, e.(rd := Moved(e.rd, |before|)))) &&
            e.rd.pos <= |mem|
  {
    hide TokenRead;
    var d2 := d.(rd := Moved(d.rd, |before|));
    assert (before + mem)[d2.rd.pos..|before| + |mem|] == mem[d.rd.pos..|mem|];
    TokenAlike(mem, d, before + mem, d2, |before|, |mem|, true, c);
  }

  lemma WindowNormalize(before: seq<byte>, mem: seq<byte>, rd: Reader)
    requires rd.pos <= |mem| && Normalize(mem, rd).Some?
    ensures Normalize(before + mem, Moved(rd, |before|)) == Some(Moved(Normalize(mem, rd).value, |before|))
  {
  }

  /** One symbol further, seen through the window. */
  lemma FollowsInWindow(p: Props, before: seq<byte>, mem: seq<byte>, n: nat, lz: Lz, d: Dec)
    requires ValidProps(p) && ValidLz(p, lz) && |d.probs| == NumProbs(p) && d.adapts
    requires d.rd.pos <= |mem| && 0x10000 <= d.rd.range
    requires Follows(p, before + mem, n, lz, Moved(d.rd, |before|), d.probs)
    requires SymbolRead(mem, d, ContextOf(p, lz)).Some? && Applicable(p, lz, SymbolRead(mem, d, ContextOf(p, lz)).value.0)
    ensures var (t, e) := TokenRead(mem, d, ContextOf(p, lz)).value;
            Follows(p, before + mem, n + 1, Next(p, lz, t), Moved(e.rd, |before|), e.probs)
  {
    hide TokenRead, TokensRead, Follows, Next, Applicable, ContextOf, ValidLz;
    ContextIsValid(p, lz);
    WindowRead(before, mem, d, ContextOf(p, lz));
    var (t, e) := TokenRead(mem, d, ContextOf(p, lz)).value;
    WindowNormalize(before, mem, e.rd);
    FollowsNormalized(p, before + mem, n, lz, Moved(d.rd, |before|), d.probs);
    FollowsStep(p, before + mem, n, lz, Moved(d.rd, |before|), d.probs);
  }

  lemma FollowsNormalized(p: Props, input: seq<byte>, n: nat, lz: Lz, rd: Reader, probs: seq<nat>)
    requires Follows(p, input, n, lz, rd, probs)
    ensures Normalize(input, rd).Some? && (rd.range >= 0x10000 ==> Normalize(input, rd).value.range >= TOP)
  {
  }

  /** The stream holds, after n tokens, one that cannot be applied (or has no room). */
  ghost predicate FaultAt(p: Props, input: seq<byte>, n: nat, lz: Lz, full: bool) {
    p.lc <= 8 && StartDecoder(p, input).Some? &&
    var r := TokensRead(p, input, StartDecoder(p, input).value, LZ_START, n);
    r.Some? && r.value.1 == lz &&
    var t := TokenRead(input, r.value.2, ContextOf(p, lz));
    t.Some? && !IsEndMarker(t.value.0) && (full || !Applicable(p, lz, t.value.0))
  }

  /** The stream holds, after n tokens, the end marker, and rd is the reader behind it. */
  ghost predicate MarkAt(p: Props, input: seq<byte>, n: nat, lz: Lz, rd: Reader) {
    p.lc <= 8 && StartDecoder(p, input).Some? &&
    var r := TokensRead(p, input, StartDecoder(p, input).value, LZ_START, n);
    r.Some? && r.value.1 == lz &&
    var t := TokenRead(input, r.value.2, ContextOf(p, lz));
    t.Some? && IsEndMarker(t.value.0) && Normalize(input, rd).Some? && Normalize(input, t.value.1.rd) == Normalize(input, rd)
  }

  /** The normalised reader after n tokens. */
  function ReaderAfter(p: Props, input: seq<byte>, n: nat): Option<Reader>
    requires p.lc <= 8
  {
    var d :- StartDecoder(p, input);
    var (_, _, e) :- TokensRead(p, input, d, LZ_START, n);
    Normalize(input, e.rd)
  }

  /** After n tokens something is left in code, so the stream cannot end there. */
  ghost predicate Unfinished(p: Props, input: seq<byte>, n: nat) {
    p.lc <= 8 && ReaderAfter(p, input, n).Some? && ReaderAfter(p, input, n).value.code != 0
  }

  lemma FollowsReader(p: Props, input: seq<byte>, n: nat, lz: Lz, rd: Reader, probs: seq<nat>)
    requires Follows(p, input, n, lz, rd, probs) && rd.range >= TOP
    ensures ReaderAfter(p, input, n) == Some(rd)
  {
  }

  predicate IsEndMarker(t: Token) {
    t.Match? && t.distance == END_MARKER_DISTANCE
  }

  lemma FaultInWindow(p: Props, before: seq<byte>, mem: seq<byte>, n: nat, lz: Lz, d: Dec, full: bool)
    requires ValidProps(p) && ValidLz(p, lz) && |d.probs| == NumProbs(p) && d.adapts
    requires d.rd.pos <= |mem| && 0x10000 <= d.rd.range
    requires Follows(p, before + mem, n, lz, Moved(d.rd, |before|), d.probs)
    requires TokenRead(mem, d, ContextOf(p, lz)).Some?
    requires var t := TokenRead(mem, d, ContextOf(p, lz)).value.0;
             !IsEndMarker(t) && (full || !Applicable(p, lz, t))
    ensures FaultAt(p, before + mem, n, lz, full)
  {
    hide TokenRead, TokensRead, Next, Applicable, ContextOf, ValidLz;
    ContextIsValid(p, lz);
    WindowRead(before, mem, d, ContextOf(p, lz));
    SameNext(p, before + mem, n, lz, Moved(d.rd, |before|), d.probs);
  }

  lemma MarkInWindow(p: Props, before: seq<byte>, mem: seq<byte>, n: nat, lz: Lz, d: Dec)
    requires ValidProps(p) && ValidLz(p, lz) && |d.probs| == NumProbs(p) && d.adapts
    requires d.rd.pos <= |mem| && 0x10000 <= d.rd.range
    requires Follows(p, before + mem, n, lz, Moved(d.rd, |before|), d.probs)
    requires SymbolRead(mem, d, ContextOf(p, lz)).Some? && IsEndMarker(SymbolRead(mem, d, ContextOf(p, lz)).value.0)
    ensures MarkAt(p, before + mem, n, lz, Moved(TokenRead(mem, d, ContextOf(p, lz)).value.1.rd, |before|))
  {
    hide TokenRead, TokensRead, Next, Applicable, ContextOf, ValidLz;
    ContextIsValid(p, lz);
    WindowRead(before, mem, d, ContextOf(p, lz));
    WindowNormalize(before, mem, TokenRead(mem, d, ContextOf(p, lz)).value.1.rd);
    SameNext(p, before + mem, n, lz, Moved(d.rd, |before|), d.probs);
  }

  /** The token after n tokens, from the stopped decoder or from the start. */
  lemma SameNext(p: Props, input: seq<byte>, n: nat, lz: Lz, rd: Reader, probs: seq<nat>)
    requires Follows(p, input, n, lz, rd, probs) && rd.range >= 0x10000
    ensures var d := TokensRead(p, input, StartDecoder(p, input).value, LZ_START, n).value.2;
            TokenRead(input, d, ContextOf(p, lz)) == TokenRead(input, Dec(rd, probs, true), ContextOf(p, lz))
  {
    hide TokenRead, TokensRead, ContextOf;
    var d := TokensRead(p, input, StartDecoder(p, input).value, LZ_START, n).value.2;
    SameRead(input, d.rd, rd, probs, ContextOf(p, lz));
  }

  /** Normalising early is not noticed. */
  lemma FollowsAfterNormalize(p: Props, before: seq<byte>, mem: seq<byte>, n: nat, lz: Lz, rd: Reader, probs: seq<nat>)
    requires rd.pos <= |mem| && 0x10000 <= rd.range && Normalize(mem, rd).Some?
    ensures var rd' := Normalize(mem, rd).value;
            rd'.range >= TOP && rd'.pos <= |mem| &&
            (Follows(p, before + mem, n, lz, Moved(rd, |before|), probs) ==> Follows(p, before + mem, n, lz, Moved(rd', |before|), probs)) &&
            (MarkAt(p, before + mem, n, lz, Moved(rd, |before|)) ==> MarkAt(p, before + mem, n, lz, Moved(rd', |before|)))
  {
    hide TokenRead, TokensRead;
    WindowNormalize(before, mem, rd);
  }

  /** Behind bufLimit there is room for a symbol even before the pending normalisation. */
  lemma RoomAhead(mem: seq<byte>, d: Dec, c: Context)
    requires GoodProbs(d.probs) && ValidContext(c, |d.probs|)
    requires 0x10000 <= d.rd.range < WORD && d.rd.pos + REQUIRED_INPUT_MAX < |mem|
    ensures SymbolRead(mem, d, c).Some?
  {
    hide TokenRead;
    RequiredInput(mem, d.(rd := Normalize(mem, d.rd).value), c);
    ReadNormalized(mem, d, c);
  }
}
