/** The adaptive binary range coder on exact numbers: the interval an encoder narrows,
    the decoder that follows it, and the proof that the decoder reads back every bit. */
module RangeCoder {
  import opened Bytes

  const TOP := 0x1000000            // kTopValue
  const WORD := 0x1_0000_0000       // one past the largest UInt32
  const BIT_MODEL_TOTAL := 2048     // kBitModelTotal
  const MIN_PROB := 31
  const MAX_PROB := 2017

  /** A UInt32 that counts past its end. */
  function Wrap(n: nat): nat {
    n % WORD
  }

  lemma WrapSmall(n: nat)
    ensures n < WORD ==> Wrap(n) == n
  {
  }

  lemma WrapAdd(n: nat, k: nat)
    ensures Wrap(Wrap(n) + k) == Wrap(n + k)
  {
  }

  /** The half-open interval [low, low + range), measured in units of 256^-shifts. */
  datatype Interval = Interval(low: nat, range: nat, shifts: nat)

  const FIRST_INTERVAL := Interval(0, WORD - 1, 0)

  /** A decoder: range, code and the number of bytes taken from the input. */
  datatype Reader = Reader(range: nat, code: nat, pos: nat)

  predicate Normal(s: Interval) {
    TOP <= s.range < WORD
  }

  predicate GoodProb(p: nat) {
    MIN_PROB <= p <= MAX_PROB
  }

  /** The probability after coding a bit under it. */
  function Adapt(p: nat, bit: bool): (q: nat)
    requires p <= BIT_MODEL_TOTAL
    ensures GoodProb(p) ==> GoodProb(q)
  {
    if bit then p - p / 32 else p + (BIT_MODEL_TOTAL - p) / 32
  }

  function Bound(range: nat, p: nat): nat {
    range / BIT_MODEL_TOTAL * p
  }

  /** The sub-interval for one modelled bit, before renormalisation. */
  function Narrow(s: Interval, p: nat, bit: bool): Interval {
    var bound := Bound(s.range, p);
    if bit then Interval(s.low + bound, if bound <= s.range then s.range - bound else 0, s.shifts)
    else Interval(s.low, bound, s.shifts)
  }

  /** The sub-interval for one equiprobable bit, before renormalisation. */
  function Halve(s: Interval, bit: bool): Interval {
    Interval(if bit then s.low + s.range / 2 else s.low, s.range / 2, s.shifts)
  }

  function Renorm(s: Interval): Interval {
    if s.range < TOP then Interval(s.low * 256, s.range * 256, s.shifts + 1) else s
  }

  lemma BoundIsProper(range: nat, p: nat)
    requires TOP <= range < WORD && GoodProb(p)
    ensures 0x10000 <= Bound(range, p)
    ensures Bound(range, p) + 0x10000 <= range
  {
    var q := range / BIT_MODEL_TOTAL;
    assert 8192 <= q && q * 2048 <= range;
    assert q * p <= q * 2017;
    assert 8192 * 31 <= q * p;
  }

  /** One byte of renormalisation is always enough. */
  lemma NarrowIsNormal(s: Interval, p: nat, bit: bool)
    requires Normal(s) && GoodProb(p)
    ensures Bound(s.range, p) <= s.range
    ensures Normal(Renorm(Narrow(s, p, bit)))
  {
    BoundIsProper(s.range, p);
  }

  lemma HalveIsNormal(s: Interval, bit: bool)
    requires Normal(s)
    ensures Normal(Renorm(Halve(s, bit)))
  {
  }

  // ---------- The finished stream lies in every interval on the way ----------

  /** The bytes of the stream that are known at this scale denote a number inside s. */
  ghost predicate Contains(s: Interval, input: seq<byte>) {
    5 + s.shifts <= |input| && s.low <= BigEndian(input[..5 + s.shifts]) < s.low + s.range
  }

  lemma ContainsBeforeRenorm(s: Interval, input: seq<byte>)
    requires Contains(Renorm(s), input)
    ensures Contains(s, input)
  {
    if s.range < TOP {
      var k := 5 + s.shifts;
      assert input[..k + 1] == input[..k] + [input[k]];
      BigEndianSnoc(input[..k], input[k]);
    }
  }

  lemma ContainsBeforeBit(s: Interval, p: nat, bit: bool, input: seq<byte>)
    requires Bound(s.range, p) <= s.range
    requires Contains(Renorm(Narrow(s, p, bit)), input)
    ensures Contains(Narrow(s, p, bit), input) && Contains(s, input)
  {
    ContainsBeforeRenorm(Narrow(s, p, bit), input);
  }

  lemma ContainsBeforeDirect(s: Interval, bit: bool, input: seq<byte>)
    requires Contains(Renorm(Halve(s, bit)), input)
    ensures Contains(Halve(s, bit), input) && Contains(s, input)
  {
    ContainsBeforeRenorm(Halve(s, bit), input);
  }

  // ---------- The decoder ----------

  /** NORMALIZE: takes a byte when range is below kTopValue; None when the input has ended. */
  function Normalize(input: seq<byte>, d: Reader): Option<Reader> {
    if d.range < TOP then
      if d.pos < |input| then
        Some(Reader(d.range * 256, (d.code * 256 + input[d.pos]) % WORD, d.pos + 1))
      else None
    else Some(d)
  }

  /** IF_BIT_0 / UPDATE_0 / UPDATE_1. */
  function ReadBit(input: seq<byte>, d: Reader, p: nat): Option<(bool, Reader)> {
    var n :- Normalize(input, d);
    var bound := Bound(n.range, p);
    if n.code < bound then Some((false, Reader(bound, n.code, n.pos)))
    else if bound <= n.range then Some((true, Reader(n.range - bound, n.code - bound, n.pos)))
    else None
  }

  /** A direct bit, in the branch-free form of the decoder: the sign of code - range in
      32 bits decides the bit. */
  function ReadDirect(input: seq<byte>, d: Reader): Option<(bool, Reader)> {
    var n :- Normalize(input, d);
    var half := n.range / 2;
    var diff := (n.code - half) % WORD;
    if diff >= WORD / 2 then Some((false, Reader(half, (diff + half) % WORD, n.pos)))
    else Some((true, Reader(half, diff, n.pos)))
  }

  /** A normalised decoder agrees with an encoder interval. */
  ghost predicate Aligned(input: seq<byte>, d: Reader, s: Interval) {
    d.range == s.range && d.pos == 5 + s.shifts <= |input| &&
    d.code == BigEndian(input[..d.pos]) - s.low
  }

  /** A decoder, normalised or about to be, agrees with an encoder interval. */
  ghost predicate InStep(input: seq<byte>, d: Reader, s: Interval) {
    Normalize(input, d).Some? && Aligned(input, Normalize(input, d).value, s)
  }

  lemma ShiftInByte(code: nat, low: nat, range: nat, prefix: nat, b: byte)
    requires code == prefix - low && range < TOP
    requires low * 256 <= prefix * 256 + b < low * 256 + range * 256
    ensures (code * 256 + b) % WORD == prefix * 256 + b - low * 256
  {
    var x := code * 256 + b;
    assert 0 <= x < WORD;
  }

  lemma NormalizeKeepsStep(input: seq<byte>, d: Reader, s: Interval)
    requires d.range == s.range && d.pos == 5 + s.shifts <= |input|
    requires d.code == BigEndian(input[..d.pos]) - s.low
    requires s.range < WORD
    requires Contains(Renorm(s), input)
    ensures InStep(input, d, Renorm(s))
  {
    if s.range < TOP {
      var b := input[d.pos];
      assert input[..d.pos + 1] == input[..d.pos] + [b];
      BigEndianSnoc(input[..d.pos], b);
      ShiftInByte(d.code, s.low, s.range, BigEndian(input[..d.pos]), b);
    }
  }

  /** The decoder takes the branch the encoder took, and stays in step. */
  lemma ReadBitInStep(input: seq<byte>, d: Reader, s: Interval, p: nat, bit: bool)
    requires Normal(s) && GoodProb(p)
    requires InStep(input, d, s)
    requires Contains(Renorm(Narrow(s, p, bit)), input)
    ensures ReadBit(input, d, p).Some?
    ensures var (b, d') := ReadBit(input, d, p).value;
            b == bit && InStep(input, d', Renorm(Narrow(s, p, bit)))
  {
    NarrowIsNormal(s, p, bit);
    BoundIsProper(s.range, p);
    var r := Narrow(s, p, bit);
    ContainsBeforeBit(s, p, bit, input);
    var n := Normalize(input, d).value;
    var bound := Bound(s.range, p);
    assert bound <= n.range;
    var d' := if bit then Reader(n.range - bound, n.code - bound, n.pos) else Reader(bound, n.code, n.pos);
    assert ReadBit(input, d, p) == Some((bit, d'));
    NormalizeKeepsStep(input, d', r);
  }

  /** The 32-bit difference is negative exactly when code is below half. */
  lemma SignOfDifference(code: nat, half: nat)
    requires half < WORD / 2 && code <= 2 * half
    ensures code < half ==> (code - half) % WORD == code - half + WORD && code - half + WORD >= WORD / 2
    ensures code >= half ==> (code - half) % WORD == code - half < WORD / 2
    ensures code < half ==> ((code - half) % WORD + half) % WORD == code
  {
  }

  lemma ReadDirectInStep(input: seq<byte>, d: Reader, s: Interval, bit: bool)
    requires Normal(s) && InStep(input, d, s)
    requires Contains(Renorm(Halve(s, bit)), input)
    ensures ReadDirect(input, d).Some?
    ensures var (b, d') := ReadDirect(input, d).value;
            b == bit && InStep(input, d', Renorm(Halve(s, bit)))
  {
    var r := Halve(s, bit);
    ContainsBeforeDirect(s, bit, input);
    var n := Normalize(input, d).value;
    var half := s.range / 2;
    var d' := if bit then Reader(half, n.code - half, n.pos) else Reader(half, n.code, n.pos);
    SignOfDifference(n.code, half);
    assert ReadDirect(input, d) == Some((bit, d'));
    NormalizeKeepsStep(input, d', r);
  }

  /** What the first five bytes give the decoder. */
  function StartReader(input: seq<byte>): Option<Reader> {
    if |input| < 5 || input[0] != 0 then None
    else Some(Reader(WORD - 1, 0x1000000 * input[1] as int + 0x10000 * input[2] as int + 0x100 * input[3] as int + input[4] as int, 5))
  }

  lemma StartInStep(input: seq<byte>)
    requires |input| >= 5
    requires Contains(FIRST_INTERVAL, input)
    ensures StartReader(input).Some? && InStep(input, StartReader(input).value, FIRST_INTERVAL)
  {
    FiveBytes(input);
  }

  lemma FiveBytes(s: seq<byte>)
    requires |s| >= 5
    ensures BigEndian(s[..5]) ==
            0x1_0000_0000 * s[0] as int + 0x1000000 * s[1] as int + 0x10000 * s[2] as int + 0x100 * s[3] as int + s[4] as int
  {
    assert s[..5][..4] == s[..4] && s[..4][..3] == s[..3] && s[..3][..2] == s[..2] && s[..2][..1] == s[..1];
    assert s[..1][..0] == [];
    assert BigEndian(s[..1]) == s[0];
    assert BigEndian(s[..2]) == 256 * s[0] as int + s[1] as int;
    assert BigEndian(s[..3]) == BigEndian(s[..2]) * 256 + s[2];
    assert BigEndian(s[..4]) == BigEndian(s[..3]) * 256 + s[3];
  }

  /** When the stream is exactly the low end of the final interval, nothing is left over. */
  lemma FinishedExactly(input: seq<byte>, d: Reader, s: Interval)
    requires InStep(input, d, s)
    requires |input| == 5 + s.shifts && BigEndian(input) == s.low
    ensures var n := Normalize(input, d).value; n.code == 0 && n.pos == |input|
  {
    assert input[..|input|] == input;
  }
}
