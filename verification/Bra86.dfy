/** The x86 branch filter: targets of CALL and JMP are rewritten in place, and the decoder has to
    repeat the encoder's decisions on bytes that the encoder has already changed. */
module Bra86 {
  import opened Bytes
  import opened Arith

  const WORD := 0x1_0000_0000
  const FIELD := 0x200_0000       // a branch target has 25 bits that count

  // ---------- Targets ----------

  /** Test86MSByte: the top byte of a plausible target. */
  predicate MSByte(b: nat) {
    b == 0 || b == 0xFF
  }

  function Turn(x: nat, cur: nat, encoding: bool): nat {
    if encoding then (x + cur) % FIELD else (x - cur) % FIELD
  }

  /** x with its low bits, below m, inverted. */
  function Flip(x: nat, m: nat): int
    requires m > 0
  {
    x - x % m + (m - 1 - x % m)
  }

  /** The highest byte below m. */
  function Top(x: nat, m: nat): nat
    requires m >= 0x100
  {
    x % m / (m / 0x100)
  }

  predicate ByteEnd(m: nat) {
    m == 0x100 || m == 0x1_0000 || m == 0x100_0000
  }

  /** A target from relative to absolute or back. Where an opcode just before uses one of its
      bytes as the top byte of its own target (m), that byte is kept from looking like one. */
  function Convert(x: nat, cur: nat, m: nat, encoding: bool): nat
    requires m == 0 || ByteEnd(m)
  {
    var w := Turn(x, cur, encoding);
    if m != 0 && MSByte(Top(w, m)) then Turn(Flip(w, m), cur, encoding) else w
  }

  lemma FlipBack(x: nat, m: nat)
    requires x < FIELD && ByteEnd(m)
    ensures 0 <= Flip(x, m) < FIELD && Flip(Flip(x, m), m) == x && Top(Flip(x, m), m) == 0xFF - Top(x, m)
  {
  }

  lemma TurnQuotient(x: nat, cur: nat, encoding: bool) returns (q: int)
    ensures Turn(x, cur, encoding) == (if encoding then x + cur else x - cur) - FIELD * q
  {
    q := (if encoding then x + cur else x - cur) / FIELD;
  }

  lemma Remainder(x: int, m: nat, q: int, r: int)
    requires 0 <= r < m && x == m * q + r
    ensures x % m == r
  {
    var d := x / m - q;
    assert x == m * (x / m) + x % m;
    assert m * d == m * (x / m) - m * q;
    Multiples(m, d);
  }

  lemma Multiples(m: nat, d: int)
    ensures (d >= 1 ==> m * d >= m) && (d <= -1 ==> m * d <= 0 - m)
  {
  }

  lemma TurnBack(x: nat, cur: nat, encoding: bool)
    requires x < FIELD
    ensures Turn(Turn(x, cur, encoding), cur, !encoding) == x
  {
    var q := TurnQuotient(x, cur, encoding);
    Remainder(x - FIELD * q, FIELD, -q, x);
  }

  lemma ComplementMod(r: nat, x: nat, m: nat, k: int)
    requires m > 0 && r + x + 1 == m * k
    ensures r % m == m - 1 - x % m
  {
    var q := k - 1 - x / m;
    assert x == m * (x / m) + x % m;
    assert m * q == m * k - m - m * (x / m);
    Remainder(r, m, q, m - 1 - x % m);
  }

  lemma Associate(m: int, f: int, d: int)
    ensures m * f * d == m * (f * d)
  {
  }

  lemma Expand(m: int, a: int, g: int)
    ensures m * (2 * a + 1 + g) == 2 * (m * a) + m + m * g
  {
  }

  /** Turning, inverting and turning again inverts the low bits. */
  lemma FlippedTurn(x: nat, cur: nat, m: nat, f: nat, encoding: bool)
    requires m > 0 && FIELD == m * f && x < FIELD && 0 <= Flip(Turn(x, cur, encoding), m)
    ensures Turn(Flip(Turn(x, cur, encoding), m), cur, encoding) % m == m - 1 - x % m
  {
    hide Turn;
    var w := Turn(x, cur, encoding);
    var q1 := TurnQuotient(x, cur, encoding);
    var q2 := TurnQuotient(Flip(w, m), cur, encoding);
    var a := w / m;
    assert w - w % m == m * a;
    Associate(m, f, q1 - q2);
    Expand(m, a, f * (q1 - q2));
    ComplementMod(Turn(Flip(w, m), cur, encoding), x, m, 2 * a + 1 + f * (q1 - q2));
  }

  lemma TopOfComplement(r: nat, x: nat, m: nat)
    requires ByteEnd(m) && r % m == m - 1 - x % m
    ensures Top(r, m) == 0xFF - Top(x, m)
  {
  }

  /** A byte that did not look like a top byte does not look like one afterwards. */
  lemma StaysOrdinary(x: nat, cur: nat, m: nat, encoding: bool)
    requires ByteEnd(m) && x < FIELD && !MSByte(Top(x, m))
    ensures !MSByte(Top(Convert(x, cur, m, encoding), m))
  {
    hide Turn;
    var w := Turn(x, cur, encoding);
    TurnBelow(x, cur, encoding);
    FlipBack(w, m);
    if MSByte(Top(w, m)) {
      FlippedTurn(x, cur, m, if m == 0x100 then 0x2_0000 else if m == 0x1_0000 then 0x200 else 2, encoding);
      TopOfComplement(Convert(x, cur, m, encoding), x, m);
    }
  }

  lemma TurnBelow(x: nat, cur: nat, encoding: bool)
    ensures Turn(x, cur, encoding) < FIELD
  {
  }

  lemma ConvertBelow(x: nat, cur: nat, m: nat, encoding: bool)
    requires m == 0 || ByteEnd(m)
    ensures Convert(x, cur, m, encoding) < FIELD
  {
  }

  /** Decoding a target undoes encoding it, and the other way round. */
  lemma ConvertBack(x: nat, cur: nat, m: nat, encoding: bool)
    requires (m == 0 || ByteEnd(m)) && x < FIELD && (m != 0 ==> !MSByte(Top(x, m)))
    ensures Convert(Convert(x, cur, m, encoding), cur, m, !encoding) == x
  {
    hide Turn;
    var w := Turn(x, cur, encoding);
    TurnBelow(x, cur, encoding);
    TurnBack(x, cur, encoding);
    if m != 0 && MSByte(Top(w, m)) {
      FlipBack(w, m);
      TurnBack(Flip(w, m), cur, encoding);
    }
  }

  // ---------- The scan ----------

  /** 0xE8 or 0xE9. */
  predicate IsBranch(b: byte) {
    b - b % 2 == 0xE8
  }

  /** The four bytes behind an opcode, as a target of 25 bits. */
  function Target(data: seq<byte>, p: nat): (x: nat)
    requires p + 4 < |data|
    ensures x < FIELD
  {
    data[p + 1] as int + 0x100 * data[p + 2] as int + 0x1_0000 * data[p + 3] as int + 0x100_0000 * (data[p + 4] as int % 2)
  }

  function PutTarget(data: seq<byte>, p: nat, x: nat): (r: seq<byte>)
    requires p + 4 < |data|
    ensures |r| == |data|
  {
    data[p + 1 := x % 0x100][p + 2 := x / 0x100 % 0x100][p + 3 := x / 0x1_0000 % 0x100][p + 4 := if x / 0x100_0000 % 2 == 1 then 0xFF else 0]
  }

  /** The scan at position pos. Bits 4, 2 and 1 of mask: there was an opcode one, two or three
      bytes before, and its target was left as it was. */
  datatype Scan = Scan(data: seq<byte>, pos: nat, mask: nat)

  /** The address behind the instruction at p. */
  function Cur(base: int, p: nat): nat {
    (base + 5 + p) % WORD
  }

  /** An opcode just before makes this one doubtful. */
  predicate Blocked(s: Scan)
    requires s.pos + 4 < |s.data| && s.mask < 8
  {
    s.mask != 0 && (s.mask > 4 || s.mask == 3 || MSByte(s.data[s.pos + s.mask / 2 + 1]))
  }

  /** The end of the byte that a single earlier opcode uses: byte 0, 1 or 2 of the target. */
  function EndOf(mask: nat): nat {
    if mask == 1 then 0x100 else if mask == 2 then 0x1_0000 else if mask == 4 then 0x100_0000 else 0
  }

  predicate Converts(s: Scan)
    requires s.pos + 4 < |s.data| && s.mask < 8
  {
    IsBranch(s.data[s.pos]) && !Blocked(s) && MSByte(s.data[s.pos + 4])
  }

  function Step(s: Scan, base: int, encoding: bool): (r: Scan)
    requires s.pos + 4 < |s.data| && s.mask < 8
    ensures |r.data| == |s.data| && r.mask < 8 && s.pos < r.pos
  {
    if Converts(s) then
      Scan(PutTarget(s.data, s.pos, Convert(Target(s.data, s.pos), Cur(base, s.pos), EndOf(s.mask), encoding)), s.pos + 5, 0)
    else
      Scan(s.data, s.pos + 1, s.mask / 2 + if IsBranch(s.data[s.pos]) then 4 else 0)
  }

  /** The scan as far as there are five bytes before end. */
  function Walk(s: Scan, end: nat, base: int, encoding: bool): (r: Scan)
    requires end <= |s.data| && s.mask < 8
    ensures |r.data| == |s.data| && r.mask < 8 && s.pos <= r.pos
    decreases end - s.pos
  {
    if s.pos + 4 >= end then s else Walk(Step(s, base, encoding), end, base, encoding)
  }

  // ---------- What the scan leaves alone ----------

  /** Whether byte i looks like a top byte is the same before and after. */
  ghost predicate SameClass(x: seq<byte>, y: seq<byte>, i: nat)
    requires |x| == |y|
  {
    i < |x| ==> (MSByte(x[i]) <==> MSByte(y[i]))
  }

  lemma PutElsewhere(data: seq<byte>, p: nat, x: nat)
    requires p + 4 < |data| && x < FIELD
    ensures forall i | 0 <= i < |data| && !(p < i <= p + 4) :: PutTarget(data, p, x)[i] == data[i]
    ensures Target(PutTarget(data, p, x), p) == x && MSByte(PutTarget(data, p, x)[p + 4])
  {
    FourDigits(x);
  }

  lemma FourDigits(x: nat)
    requires x < FIELD
    ensures x == x % 0x100 + 0x100 * (x / 0x100 % 0x100) + 0x1_0000 * (x / 0x1_0000 % 0x100) + 0x100_0000 * (x / 0x100_0000 % 2)
  {
  }

  /** Putting the old target back restores the bytes. */
  lemma PutBack(data: seq<byte>, other: seq<byte>, p: nat)
    requires p + 4 < |data| == |other| && MSByte(data[p + 4])
    ensures forall i | p < i <= p + 4 :: PutTarget(other, p, Target(data, p))[i] == data[i]
  {
    var x := Target(data, p);
    assert x % 0x100 == data[p + 1];
    assert x / 0x100 % 0x100 == data[p + 2];
    assert x / 0x1_0000 % 0x100 == data[p + 3];
    assert x / 0x100_0000 % 2 == data[p + 4] % 2;
  }

  /** The byte that a single earlier opcode uses is a byte of the target. */
  lemma TopIsByte(data: seq<byte>, p: nat, mask: nat)
    requires p + 4 < |data| && (mask == 1 || mask == 2 || mask == 4)
    ensures Top(Target(data, p), EndOf(mask)) == data[p + mask / 2 + 1]
  {
    Digits(data[p + 1], data[p + 2], data[p + 3], data[p + 4] % 2);
  }

  lemma Digits(a: nat, b: nat, c: nat, d: nat)
    requires a < 0x100 && b < 0x100 && c < 0x100
    ensures var x := a + 0x100 * b + 0x1_0000 * c + 0x100_0000 * d;
            x % 0x100 == a && x % 0x1_0000 / 0x100 == b && x % 0x100_0000 / 0x1_0000 == c
  {
    var x := a + 0x100 * b + 0x1_0000 * c + 0x100_0000 * d;
    ModUnique(x, 0x100, b + 0x100 * c + 0x1_0000 * d, a);
    ModUnique(x, 0x1_0000, c + 0x100 * d, a + 0x100 * b);
    ModUnique(a + 0x100 * b, 0x100, b, a);
    ModUnique(x, 0x100_0000, d, a + 0x100 * b + 0x1_0000 * c);
    ModUnique(a + 0x100 * b + 0x1_0000 * c, 0x1_0000, c, a + 0x100 * b);
  }

  /** The scan changes nothing up to the byte it stands on, and keeps the class of the bytes
      that an opcode remembered in mask would test. */
  lemma {:induction false} WalkKeeps(s: Scan, end: nat, base: int, encoding: bool)
    requires end <= |s.data| && s.mask < 8
    ensures var y := Walk(s, end, base, encoding).data;
            (forall i | 0 <= i <= s.pos && i < |y| :: y[i] == s.data[i]) &&
            (Bit(s.mask, 4) ==> SameClass(s.data, y, s.pos + 3)) &&
            (Bit(s.mask, 2) ==> SameClass(s.data, y, s.pos + 2)) &&
            (Bit(s.mask, 1) ==> SameClass(s.data, y, s.pos + 1))
    decreases end - s.pos
  {
    hide Convert, Target, PutTarget, Bit, Cur;
    MaskBits(s.mask);
    if s.pos + 4 < end {
      var s1 := Step(s, base, encoding);
      WalkKeeps(s1, end, base, encoding);
      if Converts(s) {
        ConvertedStep(s, base, encoding);
      } else {
        ShiftedMask(s.mask, if IsBranch(s.data[s.pos]) then 4 else 0);
      }
    }
  }

  lemma ShiftedMask(mask: nat, added: nat)
    requires mask < 8 && (added == 0 || added == 4)
    ensures var next := mask / 2 + added;
            (Bit(next, 2) <==> Bit(mask, 4)) && (Bit(next, 1) <==> Bit(mask, 2)) && (Bit(next, 4) <==> added == 4)
  {
  }

  predicate Bit(mask: nat, b: nat)
    requires b > 0
  {
    mask / b % 2 == 1
  }

  /** A mask with a single bit, and the byte that Blocked tests for it. */
  lemma MaskBits(mask: nat)
    requires mask < 8
    ensures (mask == 1 ==> Bit(mask, 1) && !Bit(mask, 2) && !Bit(mask, 4) && mask / 2 + 1 == 1) &&
            (mask == 2 ==> Bit(mask, 2) && !Bit(mask, 1) && !Bit(mask, 4) && mask / 2 + 1 == 2) &&
            (mask == 4 ==> Bit(mask, 4) && !Bit(mask, 1) && !Bit(mask, 2) && mask / 2 + 1 == 3) &&
            (mask == 0 ==> !Bit(mask, 4) && !Bit(mask, 1) && !Bit(mask, 2))
  {
  }

  /** A conversion keeps everything but the four bytes of the target, and of these the one that a
      single earlier opcode uses stays ordinary. */
  lemma ConvertedStep(s: Scan, base: int, encoding: bool)
    requires s.pos + 4 < |s.data| && s.mask < 8 && Converts(s)
    ensures var y := Step(s, base, encoding).data;
            Step(s, base, encoding).pos == s.pos + 5 && Step(s, base, encoding).mask == 0 &&
            (forall i | 0 <= i < |y| && !(s.pos < i <= s.pos + 4) :: y[i] == s.data[i]) && MSByte(y[s.pos + 4]) &&
            (s.mask == 0 || s.mask == 1 || s.mask == 2 || s.mask == 4) &&
            (s.mask != 0 ==> !MSByte(s.data[s.pos + s.mask / 2 + 1]) && !MSByte(y[s.pos + s.mask / 2 + 1]))
    ensures Target(Step(s, base, encoding).data, s.pos) == Convert(Target(s.data, s.pos), Cur(base, s.pos), EndOf(s.mask), encoding)
  {
    hide Convert, Target, PutTarget, Top, Cur;
    var x := Convert(Target(s.data, s.pos), Cur(base, s.pos), EndOf(s.mask), encoding);
    ConvertBelow(Target(s.data, s.pos), Cur(base, s.pos), EndOf(s.mask), encoding);
    PutElsewhere(s.data, s.pos, x);
    if s.mask != 0 {
      TopIsByte(s.data, s.pos, s.mask);
      TopIsByte(PutTarget(s.data, s.pos, x), s.pos, s.mask);
      StaysOrdinary(Target(s.data, s.pos), Cur(base, s.pos), EndOf(s.mask), encoding);
    }
  }

  lemma StepAhead(s: Scan, data: seq<byte>, base: int, encoding: bool)
    requires s.pos + 4 < |s.data| == |data| && s.mask < 8 && forall i | s.pos <= i < |data| :: data[i] == s.data[i]
    ensures var (r, t) := (Step(s, base, encoding), Step(Scan(data, s.pos, s.mask), base, encoding));
            t.pos == r.pos && t.mask == r.mask && forall i | 0 <= i < |data| :: t.data[i] == if i < s.pos then data[i] else r.data[i]
  {
    hide Convert, Cur, Target, PutTarget;
    if Converts(s) {
      SameTarget(s.data, data, s.pos);
      var x := Convert(Target(s.data, s.pos), Cur(base, s.pos), EndOf(s.mask), encoding);
      PutAlike(s.data, data, s.pos, x);
    }
  }

  lemma PutAlike(a: seq<byte>, b: seq<byte>, p: nat, x: nat)
    requires p + 4 < |a| == |b| && forall i | p <= i < |a| :: a[i] == b[i]
    ensures forall i | 0 <= i < |a| :: PutTarget(b, p, x)[i] == if i < p then b[i] else PutTarget(a, p, x)[i]
  {
  }

  /** The scan neither sees nor changes what lies before it. */
  lemma {:induction false} WalkAhead(s: Scan, data: seq<byte>, end: nat, base: int, encoding: bool)
    requires end <= |s.data| == |data| && s.mask < 8
    requires forall i | s.pos <= i < |data| :: data[i] == s.data[i]
    ensures var (r, t) := (Walk(s, end, base, encoding), Walk(Scan(data, s.pos, s.mask), end, base, encoding));
            t.pos == r.pos && t.mask == r.mask &&
            forall i | 0 <= i < |data| :: t.data[i] == if i < s.pos then data[i] else r.data[i]
    decreases end - s.pos
  {
    hide Step;
    if s.pos + 4 < end {
      var s1, t1 := Step(s, base, encoding), Step(Scan(data, s.pos, s.mask), base, encoding);
      StepAhead(s, data, base, encoding);
      WalkAhead(s1, t1.data, end, base, encoding);
      WalkKeeps(s1, end, base, encoding);
      WalkKeeps(t1, end, base, encoding);
    }
  }

  /** Decoding what was encoded, and encoding what was decoded, gives back every byte and ends at
      the same place with the same mask. */
  lemma {:induction false} RoundTrip(s: Scan, end: nat, base: int, encoding: bool)
    requires end <= |s.data| && s.mask < 8
    ensures var r := Walk(s, end, base, encoding);
            Walk(Scan(r.data, s.pos, s.mask), end, base, !encoding) == Scan(s.data, r.pos, r.mask)
    decreases end - s.pos
  {
    hide Step, Converts;
    if s.pos + 4 < end {
      var s1 := Step(s, base, encoding);
      var r := Walk(s1, end, base, encoding);
      var back := Step(Scan(r.data, s.pos, s.mask), base, !encoding);
      RoundTrip(s1, end, base, encoding);
      WalkKeeps(s1, end, base, encoding);
      SameDecision(s, end, base, encoding);
      if Converts(s) {
        ConvertedStep(s, base, encoding);
        UndoneStep(s, r.data, base, encoding);
        WalkAhead(Scan(r.data, s1.pos, 0), back.data, end, base, !encoding);
        assert Walk(back, end, base, !encoding).data == s.data;
      } else {
        PlainStep(s, r.data, base, encoding);
      }
    }
  }

  lemma PlainStep(s: Scan, y: seq<byte>, base: int, encoding: bool)
    requires s.pos + 4 < |s.data| == |y| && s.mask < 8 && !Converts(s) && !Converts(Scan(y, s.pos, s.mask))
    requires forall i | 0 <= i <= s.pos + 1 :: y[i] == Step(s, base, encoding).data[i]
    ensures Step(s, base, encoding).data == s.data
    ensures Step(Scan(y, s.pos, s.mask), base, !encoding) == Step(s, base, encoding).(data := y)
  {
    hide Converts;
  }

  /** Decisions are the same on the converted bytes. */
  lemma SameDecision(s: Scan, end: nat, base: int, encoding: bool)
    requires s.pos + 4 < end <= |s.data| && s.mask < 8
    ensures Converts(Scan(Walk(s, end, base, encoding).data, s.pos, s.mask)) <==> Converts(s)
  {
    hide Convert, Target, PutTarget, Cur, Bit;
    var s1 := Step(s, base, encoding);
    MaskBits(s.mask);
    WalkKeeps(s, end, base, encoding);
    WalkKeeps(s1, end, base, encoding);
    if Converts(s) {
      ConvertedStep(s, base, encoding);
    } else {
      ShiftedMask(s.mask, if IsBranch(s.data[s.pos]) then 4 else 0);
    }
  }

  /** A conversion is undone where its four bytes stand as it left them. */
  lemma UndoneStep(s: Scan, y: seq<byte>, base: int, encoding: bool)
    requires s.pos + 4 < |s.data| == |y| && s.mask < 8 && Converts(s)
    requires forall i | 0 <= i <= s.pos + 4 :: y[i] == Step(s, base, encoding).data[i]
    ensures var back := Scan(y, s.pos, s.mask);
            Converts(back) && Step(back, base, !encoding).pos == s.pos + 5 && Step(back, base, !encoding).mask == 0 &&
            forall i | 0 <= i < |y| :: Step(back, base, !encoding).data[i] == if i <= s.pos + 4 then s.data[i] else y[i]
  {
    hide Convert, Target, PutTarget, Cur, Top;
    var x, cur := Target(s.data, s.pos), Cur(base, s.pos);
    ConvertedStep(s, base, encoding);
    SameTarget(Step(s, base, encoding).data, y, s.pos);
    if s.mask != 0 {
      TopIsByte(s.data, s.pos, s.mask);
    }
    ConvertBack(x, cur, EndOf(s.mask), encoding);
    PutElsewhere(y, s.pos, x);
    PutBack(s.data, y, s.pos);
  }

  lemma SameTarget(x: seq<byte>, y: seq<byte>, p: nat)
    requires |x| == |y| && p + 4 < |x| && forall i | p < i <= p + 4 :: x[i] == y[i]
    ensures Target(x, p) == Target(y, p)
  {
  }

  // ---------- In pieces ----------

  lemma {:induction false} WalkOn(s: Scan, end1: nat, end2: nat, base: int, encoding: bool)
    requires end1 <= end2 <= |s.data| && s.mask < 8
    ensures Walk(Walk(s, end1, base, encoding), end2, base, encoding) == Walk(s, end2, base, encoding)
    decreases end1 - s.pos
  {
    hide Step;
    if s.pos + 4 < end1 {
      WalkOn(Step(s, base, encoding), end1, end2, base, encoding);
    }
  }

  /** One call after the other, each starting where the one before stopped. */
  function Pieces(s: Scan, ends: seq<nat>, base: int, encoding: bool): (r: Scan)
    requires s.mask < 8 && forall i | 0 <= i < |ends| :: ends[i] <= |s.data|
    ensures |r.data| == |s.data| && r.mask < 8
    decreases |ends|
  {
    if ends == [] then s else Pieces(Walk(s, ends[0], base, encoding), ends[1..], base, encoding)
  }

  /** However the buffer is cut, the pieces give what one call over all of it gives. */
  lemma {:induction false} PiecesAreWhole(s: Scan, ends: seq<nat>, base: int, encoding: bool)
    requires s.mask < 8 && ends != [] && forall i | 0 <= i < |ends| :: ends[i] <= |s.data|
    requires forall i, j | 0 <= i < j < |ends| :: ends[i] <= ends[j]
    ensures Pieces(s, ends, base, encoding) == Walk(s, ends[|ends| - 1], base, encoding)
    decreases |ends|
  {
    var s1 := Walk(s, ends[0], base, encoding);
    if |ends| > 1 {
      PiecesAreWhole(s1, ends[1..], base, encoding);
      WalkOn(s, ends[0], ends[|ends| - 1], base, encoding);
    }
  }

  /** Addresses count modulo 2^32. */
  lemma {:induction false} SameBase(s: Scan, end: nat, base: int, base': int, encoding: bool)
    requires end <= |s.data| && s.mask < 8 && (base - base') % WORD == 0
    ensures Walk(s, end, base, encoding) == Walk(s, end, base', encoding)
    decreases end - s.pos
  {
    hide Convert, Target, PutTarget, Converts;
    if s.pos + 4 < end {
      assert Cur(base, s.pos) == Cur(base', s.pos);
      SameBase(Step(s, base, encoding), end, base, base', encoding);
    }
  }

  // ---------- x86_Convert ----------

  function Turn32(v: nat, cur: nat, encoding: bool): nat {
    if encoding then (v + cur) % WORD else (v - cur) % WORD
  }

  lemma ModOfWord(y: int)
    ensures y % WORD % FIELD == y % FIELD
  {
    var r := y % WORD;
    assert y == WORD * (y / WORD) + r && r == FIELD * (r / FIELD) + r % FIELD;
    Remainder(y, FIELD, 0x80 * (y / WORD) + r / FIELD, r % FIELD);
  }

  lemma ModOfSum(v: nat, d: int)
    ensures (v % FIELD + d) % FIELD == (v + d) % FIELD
  {
    var x := v % FIELD;
    assert v == FIELD * (v / FIELD) + x && x + d == FIELD * ((x + d) / FIELD) + (x + d) % FIELD;
    Remainder(v + d, FIELD, v / FIELD + (x + d) / FIELD, (x + d) % FIELD);
  }

  /** Nothing above bit 24 matters. */
  lemma LowBits(v: nat, cur: nat, encoding: bool)
    ensures Turn32(v, cur, encoding) % FIELD == Turn(v % FIELD, cur, encoding)
  {
    ModOfWord(v + cur);
    ModOfWord(v - cur);
    ModOfSum(v, cur);
    ModOfSum(v, -(cur as int));
  }

  lemma LowMod(v: nat, m: nat, f: nat)
    requires m > 0 && FIELD == m * f
    ensures v % FIELD % m == v % m
  {
    var x, q := v % FIELD, v / FIELD;
    Associate(m, f, q);
    Plus(m, f * q, x / m);
    Remainder(v, m, f * q + x / m, x % m);
  }

  lemma Plus(m: int, a: int, b: int)
    ensures m * (a + b) == m * a + m * b
  {
  }

  /** A digit in the middle. */
  lemma MidDigit(v: nat, unit: nat, k: nat, m: nat)
    requires unit > 0 && k > 0 && m == unit * k && m > 0
    ensures v / unit % k == v % m / unit
  {
    var q, a := v / m, v % m;
    var c, d := a / unit, a % unit;
    DivMod(v, m);
    DivMod(a, unit);
    Regroup(q, unit, k, c);
    Split(v, unit, q * k + c, d);
    BelowProduct(a, unit, k, m);
    ModUnique(q * k + c, k, q, c);
  }

  lemma Split(v: nat, unit: nat, high: nat, low: nat)
    requires low < unit && v == high * unit + low
    ensures v / unit == high
  {
    ModUnique(v, unit, high, low);
  }

  lemma BelowProduct(a: nat, unit: nat, k: nat, m: nat)
    requires unit > 0 && m == unit * k && a < m
    ensures a / unit < k
  {
    QuotientBelow(a, unit, k);
  }

  lemma LowTop(v: nat, m: nat)
    requires ByteEnd(m)
    ensures Top(v, m) == Top(v % FIELD, m) == v / (m / 0x100) % 0x100
    ensures 0 <= Flip(v, m) && Flip(v, m) % FIELD == Flip(v % FIELD, m)
  {
    hide Flip;
    LowMod(v, m, if m == 0x100 then 0x2_0000 else if m == 0x1_0000 then 0x200 else 2);
    MidDigit(v, m / 0x100, 0x100, m);
    FlipBack(v % FIELD, m);
    LowFlip(v, m);
  }

  lemma LowFlip(v: nat, m: nat)
    requires m > 0 && v % FIELD % m == v % m && 0 <= Flip(v % FIELD, m) < FIELD
    ensures 0 <= Flip(v, m) && Flip(v, m) % FIELD == Flip(v % FIELD, m)
  {
    DivMod(v, FIELD);
    Remainder(Flip(v, m), FIELD, v / FIELD, Flip(v % FIELD, m));
  }

  /** (mask & 6) << 2, as the power of two that v is shifted down by. */
  function ShiftUnit(mask: nat): nat {
    if mask < 2 then 1 else if mask < 4 then 0x100 else 0x1_0000
  }

  /** The rewriting of one target. */
  method ConvertAt(data: array<byte>, p: nat, cur: nat, mask: nat, encoding: bool)
    requires p + 4 < data.Length && (mask == 0 || mask == 1 || mask == 2 || mask == 4) && MSByte(data[p + 4])
    modifies data
    ensures data[..] == PutTarget(old(data[..]), p, Convert(Target(old(data[..]), p), cur, EndOf(mask), encoding))
  {
    hide Turn, Turn32, Flip, Top;
    var v := 0x100_0000 * data[p + 4] as int + 0x1_0000 * data[p + 3] as int + 0x100 * data[p + 2] as int + data[p + 1] as int;
    ghost var before, x := data[..], Target(data[..], p);
    Remainder(v, FIELD, data[p + 4] as int / 2, x);
    LowBits(v, cur, encoding);
    v := Turn32(v, cur, encoding);
    if mask != 0 {
      var unit := ShiftUnit(mask);
      LowTop(v, EndOf(mask));
      if MSByte(v / unit % 0x100) {
        LowBits(Flip(v, 0x100 * unit), cur, encoding);
        v := Turn32(Flip(v, 0x100 * unit), cur, encoding);   // v ^= (0x100 << sh) - 1, and once more
      }
    }
    BytesOf(v);
    data[p + 1] := v % 0x100;
    data[p + 2] := v / 0x100 % 0x100;
    data[p + 3] := v / 0x1_0000 % 0x100;
    data[p + 4] := if v / 0x100_0000 % 2 == 1 then 0xFF else 0;
    assert data[..] == PutTarget(before, p, v % FIELD);
  }

  lemma BytesOf(v: nat)
    ensures var x := v % FIELD;
            v % 0x100 == x % 0x100 && v / 0x100 % 0x100 == x / 0x100 % 0x100 && v / 0x1_0000 % 0x100 == x / 0x1_0000 % 0x100 &&
            v / 0x100_0000 % 2 == x / 0x100_0000 % 2
  {
    var x := v % FIELD;
    LowMod(v, 0x100, 0x2_0000);
    LowMod(v, 0x1_0000, 0x200);
    LowMod(v, 0x100_0000, 2);
    MidDigit(v, 0x100, 0x100, 0x1_0000);
    MidDigit(x, 0x100, 0x100, 0x1_0000);
    MidDigit(v, 0x1_0000, 0x100, 0x100_0000);
    MidDigit(x, 0x1_0000, 0x100, 0x100_0000);
    MidDigit(v, 0x100_0000, 2, FIELD);
    MidDigit(x, 0x100_0000, 2, FIELD);
  }

  /** mask >> d; after three bytes nothing is remembered. */
  function Shifted(mask: nat, d: nat): (r: nat)
    requires mask < 8
    ensures r < 8
  {
    if d == 0 then mask else if d == 1 then mask / 2 else if d == 2 then mask / 4 else 0
  }

  lemma ShiftedOnce(mask: nat, d: nat)
    requires mask < 8 && d > 0
    ensures Shifted(mask / 2, d - 1) == Shifted(mask, d)
  {
  }

  /** Bytes that are no opcodes only shift the mask. */
  lemma {:induction false} WalkOver(s: Scan, p: nat, end: nat, base: int, encoding: bool)
    requires end <= |s.data| && s.mask < 8 && s.pos <= p && (s.pos < p ==> p + 4 <= end)
    requires forall i | s.pos <= i < p :: !IsBranch(s.data[i])
    ensures Walk(s, end, base, encoding) == Walk(Scan(s.data, p, Shifted(s.mask, p - s.pos)), end, base, encoding)
    decreases p - s.pos
  {
    hide Shifted, Convert, Target, PutTarget;
    if s.pos < p {
      ShiftedOnce(s.mask, p - s.pos);
      WalkOver(Scan(s.data, s.pos + 1, s.mask / 2), p, end, base, encoding);
    } else {
      NotShifted(s.mask);
    }
  }

  lemma NotShifted(mask: nat)
    requires mask < 8
    ensures Shifted(mask, 0) == mask
  {
  }

  method FindBranch(data: array<byte>, from: nat, limit: nat) returns (p: nat)
    requires limit <= data.Length
    ensures from <= p && (from < p ==> p <= limit) && (p < limit ==> IsBranch(data[p]))
    ensures forall i | from <= i < p :: !IsBranch(data[i])
  {
    p := from;
    while p < limit
      invariant from <= p && (from < p ==> p <= limit) && forall i | from <= i < p :: !IsBranch(data[i])
    {
      if IsBranch(data[p]) {
        return;
      }
      p := p + 1;
    }
  }

  /** x86_Convert on size bytes from start: the scan of exactly these bytes. */
  method X86Convert(data: array<byte>, start: nat, size: nat, ip: nat, state0: nat, encoding: bool)
    returns (processed: nat, state: nat)
    requires start + size <= data.Length
    modifies data
    ensures var r := Walk(Scan(old(data[..]), start, state0 % 8), start + size, ip - start, encoding);
            data[..] == r.data && start + processed == r.pos && state % 8 == r.mask
  {
    hide Convert, Target, PutTarget, Shifted, Walk, Step, MSByte;
    ghost var end, base := start + size, ip - start;
    ghost var goal := Walk(Scan(data[..], start, state0 % 8), end, base, encoding);
    if size < 5 {
      StopsAtEnd(Scan(data[..], start, state0 % 8), end, base, encoding);
      return 0, state0;
    }
    var mask, pos, limit := state0 % 8, 0, size - 4;
    while true
      invariant 0 <= mask < 8 && 0 <= pos <= size && data.Length == |goal.data|
      invariant Walk(Scan(data[..], start + pos, mask), end, base, encoding) == goal
      decreases size - pos
    {
      var p := FindBranch(data, start + pos, start + limit);
      var d := p - start - pos;
      WalkOver(Scan(data[..], start + pos, mask), p, end, base, encoding);
      mask := Shifted(mask, d);
      pos := p - start;
      ghost var s := Scan(data[..], p, mask);
      if p >= start + limit {
        StopsAtEnd(s, end, base, encoding);
        return pos, mask;
      }
      WalkStep(s, end, base, encoding);
      AtBranch(s, base, encoding);
      if (mask != 0 && (mask > 4 || mask == 3 || MSByte(data[p + mask / 2 + 1]))) || !MSByte(data[p + 4]) {
        mask := mask / 2 + 4;
        pos := pos + 1;
      } else {
        ConvertAt(data, p, (ip + 5 + pos) % WORD, mask, encoding);
        mask := 0;
        pos := pos + 5;
      }
    }
  }

  lemma StopsAtEnd(s: Scan, end: nat, base: int, encoding: bool)
    requires end <= |s.data| && s.mask < 8 && s.pos + 4 >= end
    ensures Walk(s, end, base, encoding) == s
  {
  }

  lemma AtBranch(s: Scan, base: int, encoding: bool)
    requires s.pos + 4 < |s.data| && s.mask < 8 && IsBranch(s.data[s.pos])
    ensures Step(s, base, encoding) ==
            if (s.mask != 0 && (s.mask > 4 || s.mask == 3 || MSByte(s.data[s.pos + s.mask / 2 + 1]))) || !MSByte(s.data[s.pos + 4]) then
              Scan(s.data, s.pos + 1, s.mask / 2 + 4)
            else
              Scan(PutTarget(s.data, s.pos, Convert(Target(s.data, s.pos), Cur(base, s.pos), EndOf(s.mask), encoding)), s.pos + 5, 0)
  {
    hide PutTarget, Convert, Target;
  }

  lemma WalkStep(s: Scan, end: nat, base: int, encoding: bool)
    requires s.pos + 4 < end <= |s.data| && s.mask < 8
    ensures Walk(s, end, base, encoding) == Walk(Step(s, base, encoding), end, base, encoding)
  {
  }
}
