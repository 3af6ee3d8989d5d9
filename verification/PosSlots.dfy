/** The encoder's lookup table for distance slots. */
module PosSlots {
  import opened Arith
  import opened Bytes
  import opened LzmaTokens

  lemma {:induction false} SlotOfBracket(distance: nat, slot: nat)
    requires slot >= 2
    requires SlotBase(slot) <= distance < SlotBase(slot) + Pow2(FooterBits(slot))
    ensures PosSlot(distance) == slot
  {
    if slot >= 4 {
      var h := Pow2(FooterBits(slot) - 1);
      assert FooterBits(slot - 2) == FooterBits(slot) - 1;
      assert (2 + slot % 2) * (2 * h) == 2 * ((2 + slot % 2) * h);
      assert SlotBase(slot) == 2 * SlotBase(slot - 2) by { SlotBaseAt(slot - 2); }
      assert distance >= 4 by { MulStep(1, 2 + slot % 2, h); }
      SlotOfBracket(distance / 2, slot - 2);
    }
  }

  lemma SlotBaseAt(slot: nat)
    requires slot >= 2
    ensures SlotBase(slot) == (2 + slot % 2) * Pow2(FooterBits(slot))
  {
  }

  lemma NextSlotBase(slot: nat)
    requires slot >= 2
    ensures SlotBase(slot + 1) == SlotBase(slot) + Pow2(FooterBits(slot))
  {
    SlotBaseAt(slot);
    SlotBaseAt(slot + 1);
    var h := Pow2(FooterBits(slot));
    if slot % 2 == 0 {
      assert FooterBits(slot + 1) == FooterBits(slot);
      assert 3 * h == 2 * h + h;
    } else {
      assert FooterBits(slot + 1) == FooterBits(slot) + 1;
    }
  }

  /** Dropping k low digits lowers the slot by 2k. */
  lemma {:induction false} PosSlotShift(pos: nat, k: nat)
    requires pos / Pow2(k) >= 2
    ensures PosSlot(pos) == PosSlot(pos / Pow2(k)) + 2 * k
  {
    if k > 0 {
      DivDiv(pos, k - 1);
      assert pos / Pow2(k - 1) >= 4;
      PosSlotShift(pos, k - 1);
    }
  }

  lemma DivDiv(x: nat, k: nat)
    ensures x / Pow2(k) / 2 == x / Pow2(k + 1)
  {
    DivByTwice(x, Pow2(k));
  }

  lemma DivByTwice(x: nat, h: nat)
    requires h > 0
    ensures x / h / 2 == x / (2 * h)
  {
    var q := x / h;
    DivMod(x, h);
    HalfOf(q, h);
    ModUnique(x, 2 * h, q / 2, (if q % 2 == 1 then h else 0) + x % h);
  }

  /** g_FastPos: the slots of all positions below 2^numLogBits. */
  ghost predicate IsFastPos(g: seq<byte>, numLogBits: nat) {
    |g| == Pow2(numLogBits) && forall j | 0 <= j < |g| :: g[j] == PosSlot(j)
  }

  method FastPosInit(numLogBits: nat) returns (g: array<byte>)
    requires numLogBits == 11 || numLogBits == 13
    ensures fresh(g) && IsFastPos(g[..], numLogBits)
  {
    hide SlotBase;
    g := new byte[Pow2(numLogBits)];
    TableEnds(numLogBits);
    g[0] := 0;
    g[1] := 1;
    var filled := 2;
    var slot := 2;
    while slot < numLogBits * 2
      invariant 2 <= slot <= numLogBits * 2
      invariant filled == SlotBase(slot) <= g.Length
      invariant forall j | 0 <= j < filled :: g[j] == PosSlot(j)
    {
      var k := Pow2(slot / 2 - 1);
      NextSlotBase(slot);
      SlotBaseMonotone(slot + 1, numLogBits * 2);
      FillSlot(g, filled, k, slot);
      filled := filled + k;
      slot := slot + 1;
    }
  }

  lemma TableEnds(numLogBits: nat)
    requires numLogBits == 11 || numLogBits == 13
    ensures SlotBase(2) == 2 && Pow2(numLogBits) >= 2
    ensures SlotBase(numLogBits * 2) == Pow2(numLogBits)
  {
    SlotBaseAt(numLogBits * 2);
    MulStep(1, Pow2(numLogBits - 1), 2);
  }

  /** The inner loop: k entries of one slot. */
  method FillSlot(g: array<byte>, filled: nat, k: nat, slot: nat)
    requires 2 <= slot < 256 && filled == SlotBase(slot) && k == Pow2(FooterBits(slot)) && filled + k <= g.Length
    requires forall j | 0 <= j < filled :: g[j] == PosSlot(j)
    modifies g
    ensures forall j | 0 <= j < filled + k :: g[j] == PosSlot(j)
  {
    hide SlotBase, PosSlot;
    var j := 0;
    while j < k
      invariant 0 <= j <= k
      invariant forall i | 0 <= i < filled + j :: g[i] == PosSlot(i)
    {
      g[filled + j] := slot;
      SlotOfBracket(filled + j, slot);
      j := j + 1;
    }
  }

  lemma {:induction false} SlotBaseMonotone(a: nat, b: nat)
    requires 2 <= a <= b
    ensures SlotBase(a) <= SlotBase(b)
    decreases b - a
  {
    if a < b {
      NextSlotBase(a);
      SlotBaseMonotone(a + 1, b);
    }
  }

  /** The macro GetPosSlot with BSR2_RET behind it. */
  method GetPosSlot(g: array<byte>, numLogBits: nat, pos: nat) returns (slot: nat)
    requires numLogBits == 11 || numLogBits == 13
    requires IsFastPos(g[..], numLogBits)
    requires pos < Pow2(2 * numLogBits + 5)
    ensures slot == PosSlot(pos)
  {
    Powers();
    Pow2Sum(7, numLogBits - 7);
    MulStep(1, Pow2(numLogBits - 7), 128);
    Pow2Sum(numLogBits, 6);
    Pow2Sum(numLogBits, numLogBits + 5);
    assert forall j | 0 <= j < g.Length :: g[j] == g[..][j];
    if pos < 128 {
      slot := g[pos];
    } else {
      var zz := if pos < Pow2(numLogBits + 6) then 6 else 6 + numLogBits - 1;
      QuotientBelow(pos, Pow2(zz), Pow2(numLogBits));
      AtLeastTwo(pos, zz);
      PosSlotShift(pos, zz);
      slot := g[pos / Pow2(zz)] + zz * 2;
    }
  }

  lemma AtLeastTwo(pos: nat, k: nat)
    requires pos >= Pow2(k + 1)
    ensures pos / Pow2(k) >= 2
  {
    DivMod(pos, Pow2(k));
    MulStep(pos / Pow2(k), 2, Pow2(k));
  }
}
