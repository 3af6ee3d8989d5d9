/** Adaptive coding of bit sequences: what an encoder emits, what a decoder reads, and the
    round trips of the bit trees that LZMA is built from. */
module LzmaModel {
  import opened Arith
  import opened Bytes
  import opened RangeCoder

  /** One coding step: a bit under the probability stored at address a, or a direct bit. */
  datatype Event = Modelled(a: nat, bit: bool) | Direct(bit: bool)

  datatype Enc = Enc(rc: Interval, probs: seq<nat>)

  /** A decoder. One that does not adapt only looks ahead, as TryDummy does. */
  datatype Dec = Dec(rd: Reader, probs: seq<nat>, adapts: bool)

  ghost predicate GoodProbs(probs: seq<nat>) {
    forall i | 0 <= i < |probs| :: GoodProb(probs[i])
  }

  ghost predicate GoodEnc(s: Enc) {
    Normal(s.rc) && GoodProbs(s.probs)
  }

  ghost predicate InTable(e: Event, size: nat) {
    e.Modelled? ==> e.a < size
  }

  ghost predicate AllInTable(es: seq<Event>, size: nat) {
    forall i | 0 <= i < |es| :: InTable(es[i], size)
  }

  function Step(s: Enc, e: Event): Enc
    requires GoodProbs(s.probs) && InTable(e, |s.probs|)
  {
    match e
    case Modelled(a, bit) =>
      Enc(Renorm(Narrow(s.rc, s.probs[a], bit)), s.probs[a := Adapt(s.probs[a], bit)])
    case Direct(bit) =>
      Enc(Renorm(Halve(s.rc, bit)), s.probs)
  }

  function Run(s: Enc, es: seq<Event>): (r: Enc)
    requires GoodEnc(s) && AllInTable(es, |s.probs|)
    ensures GoodEnc(r) && |r.probs| == |s.probs|
    decreases |es|
  {
    if es == [] then s
    else
      StepIsGood(s, es[0]);
      Run(Step(s, es[0]), es[1..])
  }

  lemma StepIsGood(s: Enc, e: Event)
    requires GoodEnc(s) && InTable(e, |s.probs|)
    ensures GoodEnc(Step(s, e)) && |Step(s, e).probs| == |s.probs|
  {
    match e
    case Modelled(a, bit) => NarrowIsNormal(s.rc, s.probs[a], bit);
    case Direct(bit) => HalveIsNormal(s.rc, bit);
  }

  lemma {:induction false} RunConcat(s: Enc, es: seq<Event>, fs: seq<Event>)
    requires GoodEnc(s) && AllInTable(es + fs, |s.probs|)
    ensures AllInTable(es, |s.probs|) && AllInTable(fs, |s.probs|)
    ensures Run(s, es + fs) == Run(Run(s, es), fs)
    decreases |es|
  {
    assert forall i | 0 <= i < |es| :: (es + fs)[i] == es[i];
    assert forall i | 0 <= i < |fs| :: (es + fs)[|es| + i] == fs[i];
    if es == [] {
      assert es + fs == fs;
    } else {
      assert (es + fs)[1..] == es[1..] + fs;
      StepIsGood(s, es[0]);
      RunConcat(Step(s, es[0]), es[1..], fs);
    }
  }

  /** The finished stream lies in every interval the encoder went through. */
  lemma {:induction false} ContainsBefore(s: Enc, es: seq<Event>, input: seq<byte>)
    requires GoodEnc(s) && AllInTable(es, |s.probs|)
    requires Contains(Run(s, es).rc, input)
    ensures Contains(s.rc, input)
    decreases |es|
  {
    if es != [] {
      StepIsGood(s, es[0]);
      ContainsBefore(Step(s, es[0]), es[1..], input);
      match es[0]
      case Modelled(a, bit) =>
        NarrowIsNormal(s.rc, s.probs[a], bit);
        BoundIsProper(s.rc.range, s.probs[a]);
        ContainsBeforeBit(s.rc, s.probs[a], bit, input);
      case Direct(bit) =>
        ContainsBeforeDirect(s.rc, bit, input);
    }
  }

  // ---------- Decoding single bits ----------

  /** What every reading keeps: the table size, the mode, and the direction of travel. */
  ghost predicate Onward(input: seq<byte>, d: Dec, e: Dec) {
    e.adapts == d.adapts && |e.probs| == |d.probs| && d.rd.pos <= e.rd.pos && (d.rd.pos <= |input| ==> e.rd.pos <= |input|)
  }

  function ReadModelled(input: seq<byte>, d: Dec, a: nat): (r: Option<(bool, Dec)>)
    ensures r.Some? ==> Onward(input, d, r.value.1)
  {
    if a >= |d.probs| then None
    else
      var (bit, rd) :- ReadBit(input, d.rd, d.probs[a]);
      var p := d.probs[a];
      Some((bit, d.(rd := rd, probs := if d.adapts && p <= BIT_MODEL_TOTAL then d.probs[a := Adapt(p, bit)] else d.probs)))
  }

  function ReadHalf(input: seq<byte>, d: Dec): (r: Option<(bool, Dec)>)
    ensures r.Some? ==> Onward(input, d, r.value.1)
  {
    var (bit, rd) :- ReadDirect(input, d.rd);
    Some((bit, d.(rd := rd)))
  }

  /** The decoder is where the encoder was, with the same probabilities. */
  ghost predicate Lockstep(input: seq<byte>, d: Dec, s: Enc) {
    GoodEnc(s) && d.adapts && d.probs == s.probs && InStep(input, d.rd, s.rc)
  }

  /** The encoder went on from s through es and produced input. */
  ghost predicate Produces(s: Enc, es: seq<Event>, input: seq<byte>) {
    GoodEnc(s) && AllInTable(es, |s.probs|) && Contains(Run(s, es).rc, input)
  }

  lemma ProducesSplit(s: Enc, es: seq<Event>, fs: seq<Event>, input: seq<byte>)
    requires Produces(s, es + fs, input)
    ensures Produces(s, es, input) && Produces(Run(s, es), fs, input)
  {
    RunConcat(s, es, fs);
    ContainsBefore(Run(s, es), fs, input);
  }

  lemma ProducesHead(s: Enc, e: Event, es: seq<Event>, input: seq<byte>)
    requires Produces(s, [e] + es, input)
    ensures InTable(e, |s.probs|) && Produces(Step(s, e), es, input)
    ensures Contains(Step(s, e).rc, input)
    ensures Run(s, [e] + es) == Run(Step(s, e), es)
  {
    assert ([e] + es)[0] == e && ([e] + es)[1..] == es;
    assert forall i | 0 <= i < |es| :: ([e] + es)[1 + i] == es[i];
    StepIsGood(s, e);
    ContainsBefore(Step(s, e), es, input);
  }

  lemma ModelledInStep(input: seq<byte>, d: Dec, s: Enc, a: nat, bit: bool, rest: seq<Event>)
    requires Lockstep(input, d, s) && Produces(s, [Modelled(a, bit)] + rest, input)
    ensures ReadModelled(input, d, a).Some?
    ensures var (b, d') := ReadModelled(input, d, a).value;
            b == bit && InTable(Modelled(a, bit), |s.probs|) && Lockstep(input, d', Step(s, Modelled(a, bit)))
    ensures Produces(Step(s, Modelled(a, bit)), rest, input)
    ensures Run(s, [Modelled(a, bit)] + rest) == Run(Step(s, Modelled(a, bit)), rest)
  {
    ProducesHead(s, Modelled(a, bit), rest, input);
    ReadBitInStep(input, d.rd, s.rc, s.probs[a], bit);
  }

  lemma DirectInStep(input: seq<byte>, d: Dec, s: Enc, bit: bool, rest: seq<Event>)
    requires Lockstep(input, d, s) && Produces(s, [Direct(bit)] + rest, input)
    ensures ReadHalf(input, d).Some?
    ensures var (b, d') := ReadHalf(input, d).value;
            b == bit && Lockstep(input, d', Step(s, Direct(bit)))
    ensures Produces(Step(s, Direct(bit)), rest, input)
    ensures Run(s, [Direct(bit)] + rest) == Run(Step(s, Direct(bit)), rest)
  {
    ProducesHead(s, Direct(bit), rest, input);
    ReadDirectInStep(input, d.rd, s.rc, bit);
  }

  // ---------- Bit trees ----------

  /** Bits of a symbol under a binary tree of probabilities, highest first, from node m down. */
  function TreeEvents(base: nat, m: nat, n: nat, symbol: nat): (es: seq<Event>)
    decreases n, symbol
  {
    if n == 0 then []
    else
      var bit := BitOf(symbol, n - 1);
      [Modelled(base + m, bit)] + TreeEvents(base, Child(m, bit), n - 1, symbol)
  }

  function TreeRead(input: seq<byte>, d: Dec, base: nat, m: nat, n: nat): (r: Option<(nat, Dec)>)
    ensures r.Some? ==> Onward(input, d, r.value.1)
    ensures r.Some? ==> m * Pow2(n) <= r.value.0 < m * Pow2(n) + Pow2(n)
    decreases n, input
  {
    if n == 0 then Some((m, d))
    else
      var (bit, d') :- ReadModelled(input, d, base + m);
      ChildScaled(m, bit, Pow2(n - 1));
      TreeRead(input, d', base, Child(m, bit), n - 1)
  }

  /** Bits of a symbol, lowest first. */
  function ReverseEvents(base: nat, m: nat, n: nat, symbol: nat): (es: seq<Event>)
    decreases n, symbol
  {
    if n == 0 then []
    else
      var bit := symbol % 2 == 1;
      [Modelled(base + m, bit)] + ReverseEvents(base, Child(m, bit), n - 1, symbol / 2)
  }

  /** Adds weight, 2 * weight, ... to acc for the bits read, lowest first. */
  function ReverseRead(input: seq<byte>, d: Dec, base: nat, m: nat, n: nat, weight: nat, acc: nat): (r: Option<(nat, Dec)>)
    ensures r.Some? ==> Onward(input, d, r.value.1)
    decreases n, input
  {
    if n == 0 then Some((acc, d))
    else
      var (bit, d') :- ReadModelled(input, d, base + m);
      ReverseRead(input, d', base, Child(m, bit), n - 1, 2 * weight, if bit then acc + weight else acc)
  }

  function DirectEvents(value: nat, n: nat): (es: seq<Event>)
    decreases n, value
  {
    if n == 0 then [] else [Direct(BitOf(value, n - 1))] + DirectEvents(value, n - 1)
  }

  function DirectRead(input: seq<byte>, d: Dec, n: nat, acc: nat): (r: Option<(nat, Dec)>)
    ensures r.Some? ==> Onward(input, d, r.value.1)
    decreases n, input
  {
    if n == 0 then Some((acc, d))
    else
      var (bit, d') :- ReadHalf(input, d);
      DirectRead(input, d', n - 1, Child(acc, bit))
  }

  /** Address of a literal bit coded next to a match byte, while every bit so far agreed
      with the match byte (same) and afterwards. */
  function MatchedAddress(base: nat, m: nat, matchBit: bool, same: bool): nat {
    if same then base + 0x100 + (if matchBit then 0x100 else 0) + m else base + m
  }

  function MatchedEvents(base: nat, m: nat, n: nat, symbol: nat, matchByte: nat, same: bool): (es: seq<Event>)
    decreases n, symbol
  {
    if n == 0 then []
    else
      var bit, matchBit := BitOf(symbol, n - 1), BitOf(matchByte, n - 1);
      [Modelled(MatchedAddress(base, m, matchBit, same), bit)] +
      MatchedEvents(base, Child(m, bit), n - 1, symbol, matchByte, same && bit == matchBit)
  }

  function MatchedRead(input: seq<byte>, d: Dec, base: nat, m: nat, n: nat, matchByte: nat, same: bool): (r: Option<(nat, Dec)>)
    ensures r.Some? ==> Onward(input, d, r.value.1)
    decreases n, input
  {
    if n == 0 then Some((m, d))
    else
      var matchBit := BitOf(matchByte, n - 1);
      var (bit, d') :- ReadModelled(input, d, MatchedAddress(base, m, matchBit, same));
      MatchedRead(input, d', base, Child(m, bit), n - 1, matchByte, same && bit == matchBit)
  }

  // ---------- Round trips ----------

  /** The decoder has read part and stands where the encoder went on with rest. */
  ghost predicate ReadPast(input: seq<byte>, d: Dec, s: Enc, part: seq<Event>, rest: seq<Event>) {
    Produces(s, part, input) && Lockstep(input, d, Run(s, part)) && Produces(Run(s, part), rest, input)
  }

  lemma ReadNothing(input: seq<byte>, d: Dec, s: Enc, rest: seq<Event>)
    requires Lockstep(input, d, s) && Produces(s, [] + rest, input)
    ensures ReadPast(input, d, s, [], rest)
  {
    ProducesSplit(s, [], rest, input);
  }

  lemma ReadOneMore(input: seq<byte>, d: Dec, s: Enc, e: Event, part: seq<Event>, rest: seq<Event>)
    requires Produces(s, [e] + part + rest, input)
    requires InTable(e, |s.probs|) && ReadPast(input, d, Step(s, e), part, rest)
    ensures ReadPast(input, d, s, [e] + part, rest)
  {
    ProducesSplit(s, [e] + part, rest, input);
    ProducesHead(s, e, part, input);
  }

  /** The first event of a part, read. */
  lemma ReadFirst(input: seq<byte>, d: Dec, s: Enc, a: nat, bit: bool, part: seq<Event>, rest: seq<Event>)
    requires Lockstep(input, d, s) && Produces(s, [Modelled(a, bit)] + part + rest, input)
    ensures InTable(Modelled(a, bit), |s.probs|)
    ensures ReadModelled(input, d, a).Some?
    ensures var (b, d') := ReadModelled(input, d, a).value;
            b == bit && Lockstep(input, d', Step(s, Modelled(a, bit)))
    ensures Produces(Step(s, Modelled(a, bit)), part + rest, input)
  {
    assert [Modelled(a, bit)] + part + rest == [Modelled(a, bit)] + (part + rest);
    ModelledInStep(input, d, s, a, bit, part + rest);
  }

  /** Reading part p and then part q. */
  lemma ReadJoin(input: seq<byte>, d: Dec, s: Enc, p: seq<Event>, q: seq<Event>, rest: seq<Event>)
    requires Produces(s, p, input) && ReadPast(input, d, Run(s, p), q, rest)
    ensures ReadPast(input, d, s, p + q, rest)
  {
    RunConcat(s, p, q);
  }

  /** One modelled bit on its own. */
  lemma BitRoundTrip(input: seq<byte>, d: Dec, s: Enc, a: nat, bit: bool, rest: seq<Event>)
    requires Lockstep(input, d, s) && Produces(s, [Modelled(a, bit)] + rest, input)
    ensures ReadModelled(input, d, a).Some?
    ensures var (b, d') := ReadModelled(input, d, a).value;
            b == bit && ReadPast(input, d', s, [Modelled(a, bit)], rest)
  {
    ModelledInStep(input, d, s, a, bit, rest);
    ProducesSplit(s, [Modelled(a, bit)], rest, input);
    assert [Modelled(a, bit)][1..] == [];
  }

  lemma {:induction false} TreeRoundTrip(input: seq<byte>, d: Dec, s: Enc, base: nat, m: nat, n: nat, symbol: nat, rest: seq<Event>)
    requires Lockstep(input, d, s) && Produces(s, TreeEvents(base, m, n, symbol) + rest, input)
    ensures TreeRead(input, d, base, m, n).Some?
    ensures var (v, d') := TreeRead(input, d, base, m, n).value;
            v == m * Pow2(n) + symbol % Pow2(n) && ReadPast(input, d', s, TreeEvents(base, m, n, symbol), rest)
    decreases n
  {
    if n == 0 {
      ReadNothing(input, d, s, rest);
    } else {
      var bit := BitOf(symbol, n - 1);
      var e, tail := Modelled(base + m, bit), TreeEvents(base, Child(m, bit), n - 1, symbol);
      ReadFirst(input, d, s, base + m, bit, tail, rest);
      var d' := ReadModelled(input, d, base + m).value.1;
      TreeRoundTrip(input, d', Step(s, e), base, Child(m, bit), n - 1, symbol, rest);
      var d'' := TreeRead(input, d, base, m, n).value.1;
      ReadOneMore(input, d'', s, e, tail, rest);
      SplitTopBit(symbol, n);
      ChildScaled(m, bit, Pow2(n - 1));
    }
  }

  lemma {:induction false} ReverseRoundTrip(input: seq<byte>, d: Dec, s: Enc, base: nat, m: nat, n: nat, symbol: nat,
                                            weight: nat, acc: nat, rest: seq<Event>)
    requires Lockstep(input, d, s) && Produces(s, ReverseEvents(base, m, n, symbol) + rest, input)
    ensures ReverseRead(input, d, base, m, n, weight, acc).Some?
    ensures var (v, d') := ReverseRead(input, d, base, m, n, weight, acc).value;
            v == acc + weight * (symbol % Pow2(n)) && ReadPast(input, d', s, ReverseEvents(base, m, n, symbol), rest)
    decreases n
  {
    if n == 0 {
      ReadNothing(input, d, s, rest);
    } else {
      var bit := symbol % 2 == 1;
      var e, tail := Modelled(base + m, bit), ReverseEvents(base, Child(m, bit), n - 1, symbol / 2);
      ReadFirst(input, d, s, base + m, bit, tail, rest);
      var d' := ReadModelled(input, d, base + m).value.1;
      var acc' := if bit then acc + weight else acc;
      ReverseRoundTrip(input, d', Step(s, e), base, Child(m, bit), n - 1, symbol / 2, 2 * weight, acc', rest);
      var d'' := ReverseRead(input, d, base, m, n, weight, acc).value.1;
      ReadOneMore(input, d'', s, e, tail, rest);
      SplitWeighted(symbol, n, weight);
    }
  }

  lemma SplitWeighted(symbol: nat, n: nat, weight: nat)
    requires n > 0
    ensures weight * (symbol % Pow2(n)) ==
            (if symbol % 2 == 1 then weight else 0) + (2 * weight) * (symbol / 2 % Pow2(n - 1))
  {
    SplitLowBit(symbol, n);
    DigitWeights(weight, symbol % 2, symbol / 2 % Pow2(n - 1));
  }

  lemma DigitWeights(weight: nat, low: nat, high: nat)
    requires low < 2
    ensures weight * (low + 2 * high) == (if low == 1 then weight else 0) + (2 * weight) * high
  {
  }

  lemma {:induction false} DirectRoundTrip(input: seq<byte>, d: Dec, s: Enc, value: nat, n: nat, acc: nat, rest: seq<Event>)
    requires Lockstep(input, d, s) && Produces(s, DirectEvents(value, n) + rest, input)
    ensures DirectRead(input, d, n, acc).Some?
    ensures var (v, d') := DirectRead(input, d, n, acc).value;
            v == acc * Pow2(n) + value % Pow2(n) && ReadPast(input, d', s, DirectEvents(value, n), rest)
    decreases n
  {
    if n == 0 {
      ReadNothing(input, d, s, rest);
    } else {
      var bit := BitOf(value, n - 1);
      var e, tail := Direct(bit), DirectEvents(value, n - 1);
      assert [e] + tail + rest == [e] + (tail + rest);
      DirectInStep(input, d, s, bit, tail + rest);
      var d' := ReadHalf(input, d).value.1;
      DirectRoundTrip(input, d', Step(s, e), value, n - 1, Child(acc, bit), rest);
      var d'' := DirectRead(input, d, n, acc).value.1;
      ReadOneMore(input, d'', s, e, tail, rest);
      SplitTopBit(value, n);
      ChildScaled(acc, bit, Pow2(n - 1));
    }
  }

  lemma {:induction false} MatchedRoundTrip(input: seq<byte>, d: Dec, s: Enc, base: nat, m: nat, n: nat, symbol: nat,
                                            matchByte: nat, same: bool, rest: seq<Event>)
    requires Lockstep(input, d, s) && Produces(s, MatchedEvents(base, m, n, symbol, matchByte, same) + rest, input)
    ensures MatchedRead(input, d, base, m, n, matchByte, same).Some?
    ensures var (v, d') := MatchedRead(input, d, base, m, n, matchByte, same).value;
            v == m * Pow2(n) + symbol % Pow2(n) &&
            ReadPast(input, d', s, MatchedEvents(base, m, n, symbol, matchByte, same), rest)
    decreases n
  {
    if n == 0 {
      ReadNothing(input, d, s, rest);
    } else {
      var bit, matchBit := BitOf(symbol, n - 1), BitOf(matchByte, n - 1);
      var a, same' := MatchedAddress(base, m, matchBit, same), same && bit == matchBit;
      var e, tail := Modelled(a, bit), MatchedEvents(base, Child(m, bit), n - 1, symbol, matchByte, same');
      ReadFirst(input, d, s, a, bit, tail, rest);
      var d' := ReadModelled(input, d, a).value.1;
      MatchedRoundTrip(input, d', Step(s, e), base, Child(m, bit), n - 1, symbol, matchByte, same', rest);
      var d'' := MatchedRead(input, d, base, m, n, matchByte, same).value.1;
      ReadOneMore(input, d'', s, e, tail, rest);
      SplitTopBit(symbol, n);
      ChildScaled(m, bit, Pow2(n - 1));
    }
  }
}
