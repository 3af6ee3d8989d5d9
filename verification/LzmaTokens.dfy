/** LZMA tokens: the bits that stand for a literal, a match or a repeated match, and the
    proof that reading a token back inverts writing it. */
module LzmaTokens {
  import opened Arith
  import opened Bytes
  import opened RangeCoder
  import opened LzmaModel

  // Layout of the probability table.
  const IS_MATCH := 0
  const IS_REP := 192
  const IS_REP_G0 := 204
  const IS_REP_G1 := 216
  const IS_REP_G2 := 228
  const IS_REP0_LONG := 240
  const POS_SLOT := 432
  const SPEC_POS := 688
  const ALIGN := 802
  const LEN_CODER := 818
  const REP_LEN_CODER := 1332
  const LITERAL := 1846
  const LITERAL_SIZE := 0x300

  // Layout of a length coder.
  const LEN_CHOICE := 0
  const LEN_CHOICE2 := 1
  const LEN_LOW := 2
  const LEN_MID := 130
  const LEN_HIGH := 258

  const NUM_STATES := 12
  const NUM_LIT_STATES := 7
  const START_POS_MODEL := 4
  const END_POS_MODEL := 14
  const MATCH_MIN_LEN := 2
  const MATCH_MAX_LEN := 273
  const END_MARKER_DISTANCE := 0xFFFF_FFFF

  datatype Token =
    | Literal(b: byte)
    | ShortRep
    | Rep(index: nat, len: nat)
    | Match(distance: nat, len: nat)   // distance 0 is the previous byte

  predicate ValidToken(t: Token) {
    match t
    case Literal(_) => true
    case ShortRep => true
    case Rep(index, len) => index < 4 && MATCH_MIN_LEN <= len <= MATCH_MAX_LEN
    case Match(distance, len) => distance < WORD && MATCH_MIN_LEN <= len <= MATCH_MAX_LEN
  }

  /** What both sides know before a token: the state, the position modulo 2^pb, the literal
      coder in use and the byte at the last match distance. */
  datatype Context = Context(state: nat, posState: nat, lit: nat, matchByte: byte)

  ghost predicate ValidContext(c: Context, size: nat) {
    c.state < NUM_STATES && c.posState < 16 && LITERAL <= c.lit && c.lit + LITERAL_SIZE <= size
  }

  // ---------- Distance slots ----------

  /** The slot of a distance: its two leading binary digits and their position. */
  function PosSlot(distance: nat): (slot: nat) {
    if distance < 4 then distance else PosSlot(distance / 2) + 2
  }

  function FooterBits(slot: nat): nat
    requires slot >= 2
  {
    slot / 2 - 1
  }

  function SlotBase(slot: nat): nat {
    if slot < 4 then slot else (2 + slot % 2) * Pow2(FooterBits(slot))
  }

  lemma {:induction false} PosSlotBrackets(distance: nat)
    requires distance >= 4
    ensures PosSlot(distance) >= 4
    ensures var slot := PosSlot(distance);
            SlotBase(slot) <= distance < SlotBase(slot) + Pow2(FooterBits(slot))
  {
    if distance < 8 {
      assert PosSlot(distance) == distance / 2 + 2;
      assert Pow2(1) == 2;
    } else {
      hide SlotBase, Pow2, FooterBits;
      PosSlotBrackets(distance / 2);
      TwoSlotsOn(PosSlot(distance / 2));
    }
  }

  lemma TwoSlotsOn(slot: nat)
    requires slot >= 4
    ensures SlotBase(slot + 2) == 2 * SlotBase(slot) && Pow2(FooterBits(slot + 2)) == 2 * Pow2(FooterBits(slot))
  {
    hide Pow2;
    PowNext(FooterBits(slot));
    assert FooterBits(slot + 2) == FooterBits(slot) + 1 && (slot + 2) % 2 == slot % 2;
    assert (2 + slot % 2) * (2 * Pow2(FooterBits(slot))) == 2 * SlotBase(slot);
  }

  lemma {:induction false} PosSlotBound(distance: nat, k: nat)
    requires distance < Pow2(k) && k >= 2
    ensures PosSlot(distance) < 2 * k
  {
    assert Pow2(2) == 4 by { assert Pow2(1) == 2; }
    if distance >= 4 {
      PosSlotBound(distance / 2, k - 1);
    }
  }

  lemma Powers()
    ensures Pow2(1) == 2 && Pow2(2) == 4 && Pow2(3) == 8 && Pow2(4) == 16 && Pow2(5) == 32 && Pow2(6) == 64
    ensures Pow2(7) == 128 && Pow2(8) == 256
  {
    assert Pow2(2) == 4 && Pow2(3) == 8;
    assert Pow2(5) == 32 && Pow2(6) == 64;
  }

  // ---------- Writing ----------

  function LenEvents(base: nat, posState: nat, symbol: nat): seq<Event> {
    if symbol < 8 then
      [Modelled(base + LEN_CHOICE, false)] + TreeEvents(base + LEN_LOW + posState * 8, 1, 3, symbol)
    else
      [Modelled(base + LEN_CHOICE, true)] + LongLenEvents(base, posState, symbol)
  }

  function LongLenEvents(base: nat, posState: nat, symbol: nat): seq<Event>
    requires symbol >= 8
  {
    if symbol < 16 then
      [Modelled(base + LEN_CHOICE2, false)] + TreeEvents(base + LEN_MID + posState * 8, 1, 3, symbol - 8)
    else
      [Modelled(base + LEN_CHOICE2, true)] + TreeEvents(base + LEN_HIGH, 1, 8, symbol - 16)
  }

  function FooterEvents(slot: nat, distance: nat): seq<Event>
    requires slot == PosSlot(distance)
  {
    if slot < START_POS_MODEL then []
    else
      PosSlotBrackets(distance);
      var reduced := distance - SlotBase(slot);
      if slot < END_POS_MODEL then
        SpecBase(slot);
        ReverseEvents(SPEC_POS + SlotBase(slot) - slot - 1, 1, FooterBits(slot), reduced)
      else AlignedEvents(slot, reduced)
  }

  function AlignedEvents(slot: nat, reduced: nat): seq<Event>
    requires slot >= END_POS_MODEL
  {
    DirectEvents(reduced / 16, FooterBits(slot) - 4) + ReverseEvents(ALIGN, 1, 4, reduced % 16)
  }

  lemma SpecBase(slot: nat)
    requires START_POS_MODEL <= slot < END_POS_MODEL
    ensures 0 <= SlotBase(slot) - slot && SlotBase(slot) - slot - 1 + Pow2(FooterBits(slot)) <= 114
  {
    assert Pow2(1) == 2 && Pow2(2) == 4 && Pow2(3) == 8 && Pow2(4) == 16 && Pow2(5) == 32;
  }

  /** The slot tree for a match of length lenSymbol + 2. */
  function SlotTree(lenSymbol: nat): nat {
    POS_SLOT + Min(lenSymbol, 3) * 64
  }

  function DistanceEvents(lenSymbol: nat, distance: nat): seq<Event> {
    TreeEvents(SlotTree(lenSymbol), 1, 6, PosSlot(distance)) + FooterEvents(PosSlot(distance), distance)
  }

  function LiteralEvents(c: Context, b: byte): seq<Event> {
    if c.state < NUM_LIT_STATES then TreeEvents(c.lit, 1, 8, b)
    else MatchedEvents(c.lit, 1, 8, b, c.matchByte, true)
  }

  /** The bits that choose among the four last distances. */
  function RepChoice(c: Context, index: nat): seq<Event> {
    if index == 0 then [Modelled(IS_REP_G0 + c.state, false)]
    else if index == 1 then [Modelled(IS_REP_G0 + c.state, true), Modelled(IS_REP_G1 + c.state, false)]
    else [Modelled(IS_REP_G0 + c.state, true), Modelled(IS_REP_G1 + c.state, true),
          Modelled(IS_REP_G2 + c.state, index != 2)]
  }

  function Rep0Long(c: Context, long: bool): Event {
    Modelled(IS_REP0_LONG + c.state * 16 + c.posState, long)
  }

  function IsMatch(c: Context, bit: bool): Event {
    Modelled(IS_MATCH + c.state * 16 + c.posState, bit)
  }

  function IsRep(c: Context, bit: bool): Event {
    Modelled(IS_REP + c.state, bit)
  }

  function RepTail(c: Context, t: Token): seq<Event>
    requires ValidToken(t) && (t.Rep? || t.ShortRep?)
  {
    if t.ShortRep? then RepChoice(c, 0) + [Rep0Long(c, false)]
    else
      RepChoice(c, t.index) + (if t.index == 0 then [Rep0Long(c, true)] else []) +
      LenEvents(REP_LEN_CODER, c.posState, t.len - 2)
  }

  function MatchTail(c: Context, t: Token): seq<Event>
    requires ValidToken(t) && t.Match?
  {
    LenEvents(LEN_CODER, c.posState, t.len - 2) + DistanceEvents(t.len - 2, t.distance)
  }

  /** Everything after the first bit of a token. */
  function TokenTail(c: Context, t: Token): seq<Event>
    requires ValidToken(t)
  {
    match t
    case Literal(b) => LiteralEvents(c, b)
    case Match(_, _) => [IsRep(c, false)] + MatchTail(c, t)
    case _ => [IsRep(c, true)] + RepTail(c, t)
  }

  function TokenEvents(c: Context, t: Token): seq<Event>
    requires ValidToken(t)
  {
    [IsMatch(c, !t.Literal?)] + TokenTail(c, t)
  }

  // ---------- Reading ----------

  function LenRead(input: seq<byte>, d: Dec, base: nat, posState: nat): (r: Option<(nat, Dec)>)
    ensures r.Some? ==> Onward(input, d, r.value.1)
    ensures r.Some? ==> r.value.0 < 272
  {
    assert Pow2(3) == 8 && Pow2(8) == 256 by { Powers(); }
    var (choice, d) :- ReadModelled(input, d, base + LEN_CHOICE);
    if !choice then
      var (v, d) :- TreeRead(input, d, base + LEN_LOW + posState * 8, 1, 3);
      Some((v - 8, d))
    else LongLenRead(input, d, base, posState)
  }

  /** The mid tree leaves its root bit in place: the node count 8 is also the offset. */
  function LongLenRead(input: seq<byte>, d: Dec, base: nat, posState: nat): (r: Option<(nat, Dec)>)
    ensures r.Some? ==> Onward(input, d, r.value.1)
    ensures r.Some? ==> r.value.0 < 272
  {
    assert Pow2(3) == 8 && Pow2(8) == 256 by { Powers(); }
    var (choice2, d) :- ReadModelled(input, d, base + LEN_CHOICE2);
    if !choice2 then
      TreeRead(input, d, base + LEN_MID + posState * 8, 1, 3)
    else
      var (v, d) :- TreeRead(input, d, base + LEN_HIGH, 1, 8);
      Some((v - 0x100 + 16, d))
  }

  function FooterRead(input: seq<byte>, d: Dec, slot: nat): (r: Option<(nat, Dec)>)
    ensures r.Some? ==> Onward(input, d, r.value.1)
  {
    if slot < START_POS_MODEL then Some((slot, d))
    else if slot < END_POS_MODEL then
      SpecBase(slot);
      ReverseRead(input, d, SPEC_POS + SlotBase(slot) - slot - 1, 1, FooterBits(slot), 1, SlotBase(slot))
    else AlignedRead(input, d, slot)
  }

  function AlignedRead(input: seq<byte>, d: Dec, slot: nat): (r: Option<(nat, Dec)>)
    ensures r.Some? ==> Onward(input, d, r.value.1)
    requires slot >= END_POS_MODEL
  {
    var (high, d) :- DirectRead(input, d, FooterBits(slot) - 4, 2 + slot % 2);
    ReverseRead(input, d, ALIGN, 1, 4, 1, high * 16)
  }

  function DistanceRead(input: seq<byte>, d: Dec, lenSymbol: nat): (r: Option<(nat, Dec)>)
    ensures r.Some? ==> Onward(input, d, r.value.1)
  {
    assert Pow2(6) == 64 by { Powers(); }
    var (v, d) :- TreeRead(input, d, SlotTree(lenSymbol), 1, 6);
    FooterRead(input, d, v - 64)
  }

  function LiteralRead(input: seq<byte>, d: Dec, c: Context): (r: Option<(Token, Dec)>)
    ensures r.Some? ==> Onward(input, d, r.value.1)
  {
    var (v, d) :-
      if c.state < NUM_LIT_STATES then TreeRead(input, d, c.lit, 1, 8)
      else MatchedRead(input, d, c.lit, 1, 8, c.matchByte, true);
    Some((Literal(v % 256), d))
  }

  function RepIndexRead(input: seq<byte>, d: Dec, c: Context): (r: Option<(nat, Dec)>)
    ensures r.Some? ==> Onward(input, d, r.value.1)
  {
    var (g0, d) :- ReadModelled(input, d, IS_REP_G0 + c.state);
    if !g0 then Some((0, d))
    else
      var (g1, d) :- ReadModelled(input, d, IS_REP_G1 + c.state);
      if !g1 then Some((1, d))
      else
        var (g2, d) :- ReadModelled(input, d, IS_REP_G2 + c.state);
        Some((if g2 then 3 else 2, d))
  }

  function RepRead(input: seq<byte>, d: Dec, c: Context): (r: Option<(Token, Dec)>)
    ensures r.Some? ==> Onward(input, d, r.value.1)
  {
    var (index, d) :- RepIndexRead(input, d, c);
    var (long, d) :- if index == 0 then ReadModelled(input, d, Rep0Long(c, true).a) else Some((true, d));
    if !long then Some((ShortRep, d))
    else
      var (len, d) :- LenRead(input, d, REP_LEN_CODER, c.posState);
      Some((Rep(index, len + MATCH_MIN_LEN), d))
  }

  function MatchRead(input: seq<byte>, d: Dec, c: Context): (r: Option<(Token, Dec)>)
    ensures r.Some? ==> Onward(input, d, r.value.1)
  {
    var (len, d) :- LenRead(input, d, LEN_CODER, c.posState);
    var (distance, d) :- DistanceRead(input, d, len);
    Some((Match(distance, len + MATCH_MIN_LEN), d))
  }

  function TokenRead(input: seq<byte>, d: Dec, c: Context): (r: Option<(Token, Dec)>)
    ensures r.Some? ==> Onward(input, d, r.value.1)
  {
    var (isMatch, d) :- ReadModelled(input, d, IsMatch(c, true).a);
    if !isMatch then LiteralRead(input, d, c) else NonLiteralRead(input, d, c)
  }

  function NonLiteralRead(input: seq<byte>, d: Dec, c: Context): (r: Option<(Token, Dec)>)
    ensures r.Some? ==> Onward(input, d, r.value.1)
  {
    var (isRep, d) :- ReadModelled(input, d, IsRep(c, true).a);
    if isRep then RepRead(input, d, c) else MatchRead(input, d, c)
  }

  // ---------- The match byte beside a literal ----------

  /** Bit 8 of x. */
  function Bit8(x: nat): bool {
    x / 256 % 2 == 1
  }

  /** x & offs, where offs is 0 or 0x100. */
  function AndMask(x: nat, offs: nat): nat {
    if offs == 0x100 && Bit8(x) then 0x100 else 0
  }

  lemma ShiftedMatch(b: byte, i: nat)
    requires i < 8
    ensures b * Pow2(i + 1) == 2 * (b * Pow2(i))
    ensures Bit8(b * Pow2(i + 1)) == BitOf(b, 7 - i)
  {
    var p, h := Pow2(i), Pow2(7 - i);
    Powers();
    Pow2Sum(i, 7 - i);
    ScaledQuotient(b, h, p);
    TwiceProduct(b, p);
    HalfOfQuotient(b * p);
  }

  lemma HalfOfQuotient(x: nat)
    ensures 2 * x / 256 == x / 128
  {
  }
}
