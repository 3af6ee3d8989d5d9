/** What the x86 filter is for: relative targets of CALL and JMP become absolute addresses, so that
    calls of one function look alike wherever they stand. */
module Bra86Calls {
  import opened Bytes
  import opened Bra86

  // ---------- Targets as the processor reads them ----------

  /** The signed 32-bit number behind the opcode at p. */
  function Operand(data: seq<byte>, p: nat): int
    requires p + 4 < |data|
  {
    var v := data[p + 1] as int + 0x100 * data[p + 2] as int + 0x1_0000 * data[p + 3] as int + 0x100_0000 * data[p + 4] as int;
    if v >= 0x8000_0000 then v - WORD else v
  }

  /** Where the instruction at p goes to, when byte 0 of data has this address. */
  function Destination(data: seq<byte>, p: nat, address: int): int
    requires p + 4 < |data|
  {
    address + p + 5 + Operand(data, p)
  }

  /** x is a number of 25 bits, sign included, and is that address as far as so many bits can tell. */
  ghost predicate Names(x: int, address: int) {
    -0x100_0000 <= x < 0x100_0000 && (x - address) % FIELD == 0
  }

  lemma NamesOne(x: int, y: int, a: int, b: int)
    requires Names(x, a) && Names(y, b) && (a - b) % FIELD == 0
    ensures x == y
  {
  }

  /** Only 25 bits of the operand count. */
  lemma OperandTarget(data: seq<byte>, p: nat)
    requires p + 4 < |data|
    ensures (Operand(data, p) - Target(data, p)) % FIELD == 0
    ensures MSByte(data[p + 4]) ==> Operand(data, p) == if Target(data, p) < 0x100_0000 then Target(data, p) else Target(data, p) - FIELD
  {
    var b: int := data[p + 4];
    assert Operand(data, p) - Target(data, p) == FIELD * (b / 2) - if b >= 0x80 then FIELD * 128 else 0;
  }

  lemma TurnMeans(x: nat, cur: nat, base: int, p: nat, encoding: bool)
    requires cur == Cur(base, p)
    ensures (Turn(x, cur, encoding) - if encoding then base + p + 5 + x else x - (base + p + 5)) % FIELD == 0
  {
    var there := base + 5 + p;
    var k := there / WORD;
    var q := TurnQuotient(x, cur, encoding);
    assert there == WORD * k + cur && WORD * k == FIELD * (0x80 * k);
    var turns := if encoding then q + 0x80 * k else q - 0x80 * k;
    hide Turn;
    Remainder(-FIELD * turns, FIELD, -turns, 0);
  }

  /** One conversion with nothing remembered: encoding puts the address there, decoding the distance. */
  lemma ConvertedMeans(s: Scan, base: int, encoding: bool)
    requires s.pos + 4 < |s.data| && s.mask == 0 && Converts(s)
    ensures var r, p := Step(s, base, encoding), s.pos;
            r.pos == p + 5 && r.mask == 0 &&
            Names(Operand(r.data, p), if encoding then Destination(s.data, p, base) else Operand(s.data, p) - (base + p + 5))
  {
    hide Turn, Operand, Target, Cur, PutTarget;
    var p, r := s.pos, Step(s, base, encoding).data;
    var x, cur := Target(s.data, p), Cur(base, p);
    ConvertedStep(s, base, encoding);
    assert Target(r, p) == Turn(x, cur, encoding);
    TurnBelow(x, cur, encoding);
    TurnMeans(x, cur, base, p, encoding);
    OperandTarget(s.data, p);
    OperandTarget(r, p);
    assert (Operand(r, p) - Turn(x, cur, encoding)) % FIELD == 0;
  }

  // ---------- Which instructions are converted ----------

  /** No opcode stands in the four bytes before p, as far as the scan sees them. */
  ghost predicate Alone(s: Scan, p: nat)
    requires p <= |s.data| && s.mask < 8
  {
    s.pos <= p && Shifted(s.mask, p - s.pos) == 0 && forall i | s.pos <= i < p <= i + 4 :: !IsBranch(s.data[i])
  }

  /** The scan comes to such a place with nothing remembered, and has changed nothing from there on. */
  lemma {:induction false} ComesTo(s: Scan, p: nat, end: nat, base: int, encoding: bool) returns (at: seq<byte>)
    requires end <= |s.data| && p + 4 < end && s.mask < 8 && Alone(s, p)
    ensures |at| == |s.data| && forall i | p <= i < |at| :: at[i] == s.data[i]
    ensures Walk(s, end, base, encoding) == Walk(Scan(at, p, 0), end, base, encoding)
    decreases p - s.pos
  {
    hide Convert, Target, PutTarget, Cur, Shifted;
    if s.pos == p {
      NotShifted(s.mask);
      at := s.data;
    } else {
      var s1 := Step(s, base, encoding);
      ShiftedOnce(s.mask, p - s.pos);
      NothingShifted(s1.mask, p, s1.pos);
      if Converts(s) {
        ConvertedStep(s, base, encoding);
      }
      WalkStep(s, end, base, encoding);
      at := ComesTo(s1, p, end, base, encoding);
    }
  }

  lemma NothingShifted(mask: nat, p: nat, pos: nat)
    requires mask < 8
    ensures pos <= p && (mask == 0 || pos + 3 <= p) ==> Shifted(mask, p - pos) == 0
  {
  }

  /** Of an opcode that stands alone and has a plausible target, encoding makes the address that the
      instruction goes to, in 25 bits with sign, and decoding takes that back. */
  lemma CallsAddress(s: Scan, p: nat, end: nat, base: int, encoding: bool)
    requires end <= |s.data| && p + 4 < end && s.mask < 8 && Alone(s, p)
    requires IsBranch(s.data[p]) && MSByte(s.data[p + 4])
    ensures var y := Walk(s, end, base, encoding).data;
            y[p] == s.data[p] &&
            Names(Operand(y, p), if encoding then Destination(s.data, p, base) else Operand(s.data, p) - (base + p + 5))
  {
    hide Walk, Step, Operand, Names;
    var at := ComesTo(s, p, end, base, encoding);
    var t := Scan(at, p, 0);
    SameOperand(at, s.data, p);
    ConvertedMeans(t, base, encoding);
    WalkStep(t, end, base, encoding);
    WalkKeeps(t, end, base, encoding);
    WalkKeeps(Step(t, base, encoding), end, base, encoding);
    SameOperand(Walk(s, end, base, encoding).data, Step(t, base, encoding).data, p);
  }

  lemma SameOperand(x: seq<byte>, y: seq<byte>, p: nat)
    requires p + 4 < |x| == |y| && forall i | p <= i <= p + 4 :: x[i] == y[i]
    ensures Operand(x, p) == Operand(y, p)
  {
  }

  /** Two instructions, wherever they stand, that go to the same address get the same four bytes. */
  lemma SameCallSameBytes(s: Scan, p: nat, end: nat, base: int, s': Scan, p': nat, end': nat, base': int)
    requires end <= |s.data| && p + 4 < end && s.mask < 8 && Alone(s, p) && IsBranch(s.data[p]) && MSByte(s.data[p + 4])
    requires end' <= |s'.data| && p' + 4 < end' && s'.mask < 8 && Alone(s', p') && IsBranch(s'.data[p']) && MSByte(s'.data[p' + 4])
    requires Destination(s.data, p, base) == Destination(s'.data, p', base')
    ensures Walk(s, end, base, true).data[p + 1..p + 5] == Walk(s', end', base', true).data[p' + 1..p' + 5]
  {
    hide Walk, Operand;
    var y, y' := Walk(s, end, base, true).data, Walk(s', end', base', true).data;
    CallsAddress(s, p, end, base, true);
    CallsAddress(s', p', end', base', true);
    NamesOne(Operand(y, p), Operand(y', p'), Destination(s.data, p, base), Destination(s'.data, p', base'));
    OperandIsBytes(y, p, y', p');
  }

  lemma OperandIsBytes(x: seq<byte>, p: nat, y: seq<byte>, q: nat)
    requires p + 4 < |x| && q + 4 < |y| && Operand(x, p) == Operand(y, q)
    ensures x[p + 1..p + 5] == y[q + 1..q + 5]
  {
    assert x[p + 4] == y[q + 4];
    assert x[p + 3] == y[q + 3];
    assert x[p + 2] == y[q + 2];
    assert x[p + 1] == y[q + 1];
  }

  /** A byte that no opcode has in its operand is left as it is. */
  lemma {:induction false} OnlyOperands(s: Scan, i: nat, end: nat, base: int, encoding: bool)
    requires end <= |s.data| && s.mask < 8 && i < |s.data|
    requires forall p | s.pos <= p < i <= p + 4 :: !IsBranch(s.data[p])
    ensures Walk(s, end, base, encoding).data[i] == s.data[i]
    decreases end - s.pos
  {
    hide Convert, Target, PutTarget, Cur;
    if i <= s.pos {
      WalkKeeps(s, end, base, encoding);
    } else if s.pos + 4 < end {
      if Converts(s) {
        ConvertedStep(s, base, encoding);
      }
      OnlyOperands(Step(s, base, encoding), i, end, base, encoding);
    }
  }

  // ---------- Opcodes close together ----------

  /** An opcode d bytes before was left as it was. */
  predicate Remembers(s: Scan, d: nat)
    requires s.mask < 8
  {
    1 <= d <= 3 && Bit(s.mask, if d == 1 then 4 else if d == 2 then 2 else 1)
  }

  /** What is remembered are the opcodes that the scan has just gone by. */
  lemma RemembersOpcodes(s: Scan, base: int, encoding: bool, d: nat)
    requires s.pos + 4 < |s.data| && s.mask < 8 && 1 <= d <= 3
    ensures var r := Step(s, base, encoding);
            Remembers(r, d) <==> !Converts(s) && if d == 1 then IsBranch(s.data[s.pos]) else Remembers(s, d - 1)
  {
    hide Convert, Target, PutTarget, Cur;
    ShiftedMask(s.mask, if IsBranch(s.data[s.pos]) then 4 else 0);
    MaskBits(0);
  }

  /** An opcode with a plausible target is converted unless there are two opcodes just before it, or one whose
      own top byte, which lies in this one's target, is plausible too. */
  lemma WhatConverts(s: Scan)
    requires s.pos + 4 < |s.data| && s.mask < 8
    ensures Converts(s) <==>
            IsBranch(s.data[s.pos]) && MSByte(s.data[s.pos + 4]) &&
            (forall d, d' :: Remembers(s, d) && Remembers(s, d') ==> d == d') &&
            (forall d :: Remembers(s, d) ==> !MSByte(s.data[s.pos + 4 - d]))
  {
    var m := s.mask;
    assert m == 0 || m == 1 || m == 2 || m == 3 || m == 4 || m == 5 || m == 6 || m == 7;
    assert Remembers(s, 1) <==> m >= 4;
    assert Remembers(s, 2) <==> (m == 2 || m == 3 || m == 6 || m == 7);
    assert Remembers(s, 3) <==> (m == 1 || m == 3 || m == 5 || m == 7);
  }
}
