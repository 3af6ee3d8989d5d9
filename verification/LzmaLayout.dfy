/** The probabilities: every kind of decision in every context has one of its own. The decoder keeps all of them in one
    array; because no two share a place in it, that is as good as the encoder's separate tables. */
module LzmaLayout {
  import opened Arith
  import opened Bytes
  import opened RangeCoder
  import opened LzmaModel
  import opened LzmaTokens
  import opened LzmaStream

  /** A decision and what it depends on. `node` is the place in a binary tree, `repeated` tells the two length coders apart,
      `place` and `prev` are the bits of the position and of the byte before that choose a literal coder. */
  datatype Cell =
    | WhetherMatch(state: nat, posState: nat)
    | WhetherRep(state: nat)
    | WhetherOlder(state: nat)
    | WhetherOlder1(state: nat)
    | WhetherOlder2(state: nat)
    | WhetherLong(state: nat, posState: nat)
    | Slot(lenState: nat, node: nat)
    | Footer(slot: nat, node: nat)
    | Aligned(node: nat)
    | Longer(repeated: bool)
    | Longest(repeated: bool)
    | ShortLen(repeated: bool, posState: nat, node: nat)
    | MidLen(repeated: bool, posState: nat, node: nat)
    | LongLen(repeated: bool, node: nat)
    | Plain(place: nat, prev: nat, node: nat)
    | Beside(place: nat, prev: nat, matchBit: bool, node: nat)

  predicate ValidCell(p: Props, c: Cell) {
    match c
    case WhetherMatch(state, posState) => state < NUM_STATES && posState < 16
    case WhetherRep(state) => state < NUM_STATES
    case WhetherOlder(state) => state < NUM_STATES
    case WhetherOlder1(state) => state < NUM_STATES
    case WhetherOlder2(state) => state < NUM_STATES
    case WhetherLong(state, posState) => state < NUM_STATES && posState < 16
    case Slot(lenState, node) => lenState < 4 && 1 <= node < 64
    case Footer(slot, node) => START_POS_MODEL <= slot < END_POS_MODEL && 1 <= node < Pow2(FooterBits(slot))
    case Aligned(node) => 1 <= node < 16
    case Longer(_) => true
    case Longest(_) => true
    case ShortLen(_, posState, node) => posState < 16 && 1 <= node < 8
    case MidLen(_, posState, node) => posState < 16 && 1 <= node < 8
    case LongLen(_, node) => 1 <= node < 256
    case Plain(place, prev, node) => place < Pow2(p.lp) && prev < Pow2(p.lc) && 1 <= node < 256
    case Beside(place, prev, _, node) => place < Pow2(p.lp) && prev < Pow2(p.lc) && 1 <= node < 256
  }

  function LenBase(repeated: bool): nat {
    if repeated then REP_LEN_CODER else LEN_CODER
  }

  function CoderBase(p: Props, place: nat, prev: nat): nat {
    LITERAL + LITERAL_SIZE * (place * Pow2(p.lc) + prev)
  }

  /** Where the decoder keeps it. */
  function Address(p: Props, c: Cell): int {
    match c
    case WhetherMatch(state, posState) => IS_MATCH + state * 16 + posState
    case WhetherRep(state) => IS_REP + state
    case WhetherOlder(state) => IS_REP_G0 + state
    case WhetherOlder1(state) => IS_REP_G1 + state
    case WhetherOlder2(state) => IS_REP_G2 + state
    case WhetherLong(state, posState) => IS_REP0_LONG + state * 16 + posState
    case Slot(lenState, node) => POS_SLOT + lenState * 64 + node
    case Footer(slot, node) => SPEC_POS + SlotBase(slot) - slot - 1 + node
    case Aligned(node) => ALIGN + node
    case Longer(repeated) => LenBase(repeated) + LEN_CHOICE
    case Longest(repeated) => LenBase(repeated) + LEN_CHOICE2
    case ShortLen(repeated, posState, node) => LenBase(repeated) + LEN_LOW + posState * 8 + node
    case MidLen(repeated, posState, node) => LenBase(repeated) + LEN_MID + posState * 8 + node
    case LongLen(repeated, node) => LenBase(repeated) + LEN_HIGH + node
    case Plain(place, prev, node) => CoderBase(p, place, prev) + node
    case Beside(place, prev, matchBit, node) => CoderBase(p, place, prev) + 0x100 + (if matchBit then 0x100 else 0) + node
  }

  // ---------- No two share a place ----------

  /** Tables, in the order in which they stand. */
  function Table(c: Cell): nat {
    match c
    case WhetherMatch(_, _) => 0
    case WhetherRep(_) => 1
    case WhetherOlder(_) => 2
    case WhetherOlder1(_) => 3
    case WhetherOlder2(_) => 4
    case WhetherLong(_, _) => 5
    case Slot(_, _) => 6
    case Footer(_, _) => 7
    case Aligned(_) => 8
    case Plain(_, _, _) => 11
    case Beside(_, _, _, _) => 11
    case _ => if c.repeated then 10 else 9
  }

  function TableStart(k: nat): nat {
    if k == 0 then IS_MATCH else if k == 1 then IS_REP else if k == 2 then IS_REP_G0 else if k == 3 then IS_REP_G1
    else if k == 4 then IS_REP_G2 else if k == 5 then IS_REP0_LONG else if k == 6 then POS_SLOT else if k == 7 then SPEC_POS
    else if k == 8 then ALIGN else if k == 9 then LEN_CODER else if k == 10 then REP_LEN_CODER else LITERAL
  }

  lemma InItsTable(p: Props, c: Cell)
    requires ValidCell(p, c)
    ensures TableStart(Table(c)) <= Address(p, c) && (Table(c) < 11 ==> Address(p, c) < TableStart(Table(c) + 1))
  {
    if c.Footer? {
      SpecBase(c.slot);
    }
  }

  lemma FootersApart(slot: nat, node: nat, slot': nat, node': nat)
    requires START_POS_MODEL <= slot < slot' < END_POS_MODEL
    requires 1 <= node < Pow2(FooterBits(slot)) && 1 <= node' < Pow2(FooterBits(slot'))
    ensures SlotBase(slot) - slot - 1 + node < SlotBase(slot') - slot' - 1 + node'
    decreases slot' - slot
  {
    NextBase(slot);
    if slot + 1 < slot' {
      FootersApart(slot + 1, 1, slot', node');
      PowNext(FooterBits(slot + 1) - 1);
    }
  }

  lemma NextBase(slot: nat)
    requires START_POS_MODEL <= slot < END_POS_MODEL
    ensures SlotBase(slot + 1) == SlotBase(slot) + Pow2(FooterBits(slot)) && Pow2(FooterBits(slot)) >= 2
  {
    assert Pow2(1) == 2 && Pow2(2) == 4 && Pow2(3) == 8 && Pow2(4) == 16 && Pow2(5) == 32 && Pow2(6) == 64;
  }

  /** Of a literal coder and a place in it, the address gives both back. */
  lemma CodersApart(p: Props, place: nat, prev: nat, k: nat, place': nat, prev': nat, k': nat)
    requires prev < Pow2(p.lc) && prev' < Pow2(p.lc) && k < LITERAL_SIZE && k' < LITERAL_SIZE
    requires CoderBase(p, place, prev) + k == CoderBase(p, place', prev') + k'
    ensures place == place' && prev == prev' && k == k'
  {
    var a, a' := place * Pow2(p.lc) + prev, place' * Pow2(p.lc) + prev';
    ModUnique(LITERAL_SIZE * a + k, LITERAL_SIZE, a, k);
    ModUnique(LITERAL_SIZE * a' + k', LITERAL_SIZE, a', k');
    ModUnique(a, Pow2(p.lc), place, prev);
    ModUnique(a', Pow2(p.lc), place', prev');
  }

  /** The place of a literal's decision within its coder. */
  function InCoder(c: Cell): nat
    requires c.Plain? || c.Beside?
  {
    if c.Plain? then c.node else 0x100 + (if c.matchBit then 0x100 else 0) + c.node
  }

  lemma LiteralsApart(p: Props, c: Cell, d: Cell)
    requires ValidCell(p, c) && ValidCell(p, d) && Table(c) == Table(d) == 11 && Address(p, c) == Address(p, d)
    ensures c == d
  {
    hide CoderBase;
    CodersApart(p, c.place, c.prev, InCoder(c), d.place, d.prev, InCoder(d));
  }

  lemma LensApart(p: Props, c: Cell, d: Cell)
    requires ValidCell(p, c) && ValidCell(p, d) && Table(c) == Table(d) && 9 <= Table(c) <= 10 && Address(p, c) == Address(p, d)
    ensures c == d
  {
  }

  lemma SlotsApart(p: Props, c: Cell, d: Cell)
    requires ValidCell(p, c) && ValidCell(p, d) && Table(c) == Table(d) == 7 && Address(p, c) == Address(p, d)
    ensures c == d
  {
    hide SlotBase;
    if c.slot < d.slot {
      FootersApart(c.slot, c.node, d.slot, d.node);
    } else if d.slot < c.slot {
      FootersApart(d.slot, d.node, c.slot, c.node);
    }
  }

  lemma SameTable(p: Props, c: Cell, d: Cell)
    requires ValidCell(p, c) && ValidCell(p, d) && Address(p, c) == Address(p, d)
    ensures Table(c) == Table(d) <= 11
  {
    InItsTable(p, c);
    InItsTable(p, d);
    hide Address, ValidCell;
    if Table(c) < Table(d) {
      TablesInOrder(Table(c), Table(d));
    } else if Table(d) < Table(c) {
      TablesInOrder(Table(d), Table(c));
    }
  }

  lemma TablesInOrder(a: nat, b: nat)
    requires a < b <= 11
    ensures TableStart(a + 1) <= TableStart(b)
  {
  }

  /** Different decisions have different places. */
  lemma Apart(p: Props, c: Cell, d: Cell)
    requires ValidCell(p, c) && ValidCell(p, d) && Address(p, c) == Address(p, d)
    ensures c == d
  {
    SameTable(p, c, d);
    if Table(c) == 11 {
      LiteralsApart(p, c, d);
    } else if Table(c) >= 9 {
      LensApart(p, c, d);
    } else if Table(c) == 7 {
      SlotsApart(p, c, d);
    }
  }

  lemma InArray(p: Props, c: Cell)
    requires ValidCell(p, c)
    ensures 0 <= Address(p, c) < NumProbs(p)
  {
    InItsTable(p, c);
    if Table(c) == 11 {
      Pow2Sum(p.lp, p.lc);
      TwoDigits(c.place, c.prev, Pow2(p.lp), Pow2(p.lc));
      assert c.place * Pow2(p.lc) + c.prev + 1 <= Pow2(p.lc + p.lp);
    }
  }
}
