/** Reading a token depends only on the bytes ahead, and looking ahead without adapting the
    probabilities sees the same token: no probability is used twice within one symbol. */
module LzmaLookahead {
  import opened Arith
  import opened Bytes
  import opened RangeCoder
  import opened LzmaModel
  import opened LzmaTokens
  import opened LzmaStream

  /** Two decoders with the same range and code, k positions apart, with the same bytes ahead of
      them up to position top of the first. Either they are twins (same), or their probabilities
      agree on [lo, hi). */
  ghost predicate Alike(i1: seq<byte>, d1: Dec, i2: seq<byte>, d2: Dec, k: int, top: nat, same: bool, lo: nat, hi: nat) {
    d1.rd.range == d2.rd.range && d1.rd.code == d2.rd.code && d1.rd.pos + k == d2.rd.pos &&
    d1.rd.pos <= top <= |i1| && d2.rd.pos <= top + k <= |i2| && i1[d1.rd.pos..top] == i2[d2.rd.pos..top + k] &&
    |d1.probs| == |d2.probs| &&
    (same ==> d1.probs == d2.probs && d1.adapts == d2.adapts) &&
    (!same ==> forall a | lo <= a < hi && a < |d1.probs| :: d1.probs[a] == d2.probs[a])
  }

  lemma NormalizeAlike(i1: seq<byte>, d1: Dec, i2: seq<byte>, d2: Dec, k: int, top: nat, same: bool, lo: nat, hi: nat)
    requires Alike(i1, d1, i2, d2, k, top, same, lo, hi) && Normalize(i1, d1.rd).Some? && Normalize(i1, d1.rd).value.pos <= top
    ensures Normalize(i2, d2.rd).Some?
    ensures Alike(i1, d1.(rd := Normalize(i1, d1.rd).value), i2, d2.(rd := Normalize(i2, d2.rd).value), k, top, same, lo, hi)
  {
    if d1.rd.range < TOP {
      var t1, t2 := i1[d1.rd.pos..top], i2[d2.rd.pos..top + k];
      assert t1[0] == t2[0];
      assert i1[d1.rd.pos + 1..top] == t1[1..] && i2[d2.rd.pos + 1..top + k] == t2[1..];
    }
  }

  lemma HalfAlike(i1: seq<byte>, d1: Dec, i2: seq<byte>, d2: Dec, k: int, top: nat, same: bool, lo: nat, hi: nat)
    requires Alike(i1, d1, i2, d2, k, top, same, lo, hi) && ReadHalf(i1, d1).Some? && ReadHalf(i1, d1).value.1.rd.pos <= top
    ensures ReadHalf(i2, d2).Some? && ReadHalf(i1, d1).value.0 == ReadHalf(i2, d2).value.0
    ensures Alike(i1, ReadHalf(i1, d1).value.1, i2, ReadHalf(i2, d2).value.1, k, top, same, lo, hi)
  {
    NormalizeAlike(i1, d1, i2, d2, k, top, same, lo, hi);
  }

  /** A bit at a leaves agreement everywhere else. */
  lemma BitAlike(i1: seq<byte>, d1: Dec, i2: seq<byte>, d2: Dec, k: int, top: nat, same: bool, a: nat, lo: nat, hi: nat)
    requires Alike(i1, d1, i2, d2, k, top, same, a, a + 1) && Alike(i1, d1, i2, d2, k, top, same, lo, hi)
    requires (a < lo || hi <= a) && ReadModelled(i1, d1, a).Some? && ReadModelled(i1, d1, a).value.1.rd.pos <= top
    ensures ReadModelled(i2, d2, a).Some? && ReadModelled(i1, d1, a).value.0 == ReadModelled(i2, d2, a).value.0
    ensures Alike(i1, ReadModelled(i1, d1, a).value.1, i2, ReadModelled(i2, d2, a).value.1, k, top, same, lo, hi)
  {
    NormalizeAlike(i1, d1, i2, d2, k, top, same, lo, hi);
  }

  /** Agreement on a smaller interval. */
  lemma Shrink(i1: seq<byte>, d1: Dec, i2: seq<byte>, d2: Dec, k: int, top: nat, same: bool, lo: nat, hi: nat, lo': nat, hi': nat)
    requires Alike(i1, d1, i2, d2, k, top, same, lo, hi) && lo <= lo' && hi' <= hi
    ensures Alike(i1, d1, i2, d2, k, top, same, lo', hi')
  {
  }

  lemma ChildBelow(base: nat, m: nat, n: nat, bit: bool, hi: nat)
    requires n > 0 && base + (m + 1) * Pow2(n - 1) <= hi
    ensures base + m < hi
    ensures n > 1 ==> base + (Child(m, bit) + 1) * Pow2(n - 2) <= hi
  {
    MulStep(1, Pow2(n - 1), m + 1);
    if n > 1 {
      ChildScaled(m, bit, Pow2(n - 2));
      assert (Child(m, bit) + 1) * Pow2(n - 2) == Child(m, bit) * Pow2(n - 2) + Pow2(n - 2);
      assert (m + 1) * Pow2(n - 1) == m * Pow2(n - 1) + Pow2(n - 1);
    }
  }

  /** A tree touches only [base + m, hi): what lies outside is kept. */
  lemma {:induction false} TreeAlike(i1: seq<byte>, d1: Dec, i2: seq<byte>, d2: Dec, k: int, top: nat, same: bool,
                                     base: nat, m: nat, n: nat, hi: nat, lo: nat, kept: nat)
    requires Alike(i1, d1, i2, d2, k, top, same, base + m, hi) && Alike(i1, d1, i2, d2, k, top, same, lo, kept)
    requires m >= 1 && (kept <= base + 1 || hi <= lo) && (n > 0 ==> base + (m + 1) * Pow2(n - 1) <= hi)
    requires TreeRead(i1, d1, base, m, n).Some? && TreeRead(i1, d1, base, m, n).value.1.rd.pos <= top
    ensures TreeRead(i2, d2, base, m, n).Some?
    ensures var (v1, e1) := TreeRead(i1, d1, base, m, n).value;
            var (v2, e2) := TreeRead(i2, d2, base, m, n).value;
            v1 == v2 && Alike(i1, e1, i2, e2, k, top, same, lo, kept)
    decreases n
  {
    hide ReadModelled, Alike;
    if n > 0 {
      var bit := ReadModelled(i1, d1, base + m).value.0;
      ChildBelow(base, m, n, bit, hi);
      var next := base + Child(m, bit);
      Shrink(i1, d1, i2, d2, k, top, same, base + m, hi, base + m, base + m + 1);
      Shrink(i1, d1, i2, d2, k, top, same, base + m, hi, next, hi);
      BitAlike(i1, d1, i2, d2, k, top, same, base + m, lo, kept);
      BitAlike(i1, d1, i2, d2, k, top, same, base + m, next, hi);
      var e1, e2 := ReadModelled(i1, d1, base + m).value.1, ReadModelled(i2, d2, base + m).value.1;
      TreeAlike(i1, e1, i2, e2, k, top, same, base, Child(m, bit), n - 1, hi, lo, kept);
    }
  }

  lemma {:induction false} ReverseAlike(i1: seq<byte>, d1: Dec, i2: seq<byte>, d2: Dec, k: int, top: nat, same: bool,
                                        base: nat, m: nat, n: nat, weight: nat, acc: nat, hi: nat, lo: nat, kept: nat)
    requires Alike(i1, d1, i2, d2, k, top, same, base + m, hi) && Alike(i1, d1, i2, d2, k, top, same, lo, kept)
    requires m >= 1 && (kept <= base + 1 || hi <= lo) && (n > 0 ==> base + (m + 1) * Pow2(n - 1) <= hi)
    requires ReverseRead(i1, d1, base, m, n, weight, acc).Some? && ReverseRead(i1, d1, base, m, n, weight, acc).value.1.rd.pos <= top
    ensures ReverseRead(i2, d2, base, m, n, weight, acc).Some?
    ensures var (v1, e1) := ReverseRead(i1, d1, base, m, n, weight, acc).value;
            var (v2, e2) := ReverseRead(i2, d2, base, m, n, weight, acc).value;
            v1 == v2 && Alike(i1, e1, i2, e2, k, top, same, lo, kept)
    decreases n
  {
    hide ReadModelled, Alike;
    if n > 0 {
      var bit := ReadModelled(i1, d1, base + m).value.0;
      ChildBelow(base, m, n, bit, hi);
      var next := base + Child(m, bit);
      Shrink(i1, d1, i2, d2, k, top, same, base + m, hi, base + m, base + m + 1);
      Shrink(i1, d1, i2, d2, k, top, same, base + m, hi, next, hi);
      BitAlike(i1, d1, i2, d2, k, top, same, base + m, lo, kept);
      BitAlike(i1, d1, i2, d2, k, top, same, base + m, next, hi);
      var e1, e2 := ReadModelled(i1, d1, base + m).value.1, ReadModelled(i2, d2, base + m).value.1;
      ReverseAlike(i1, e1, i2, e2, k, top, same, base, Child(m, bit), n - 1, 2 * weight, if bit then acc + weight else acc, hi, lo, kept);
    }
  }

  lemma {:induction false} DirectAlike(i1: seq<byte>, d1: Dec, i2: seq<byte>, d2: Dec, k: int, top: nat, same: bool, n: nat, acc: nat, lo: nat, hi: nat)
    requires Alike(i1, d1, i2, d2, k, top, same, lo, hi) && DirectRead(i1, d1, n, acc).Some? && DirectRead(i1, d1, n, acc).value.1.rd.pos <= top
    ensures DirectRead(i2, d2, n, acc).Some?
    ensures var (v1, e1) := DirectRead(i1, d1, n, acc).value;
            var (v2, e2) := DirectRead(i2, d2, n, acc).value;
            v1 == v2 && Alike(i1, e1, i2, e2, k, top, same, lo, hi)
    decreases n
  {
    hide Alike, ReadHalf;
    if n > 0 {
      HalfAlike(i1, d1, i2, d2, k, top, same, lo, hi);
      var (bit, e1) := ReadHalf(i1, d1).value;
      DirectAlike(i1, e1, i2, ReadHalf(i2, d2).value.1, k, top, same, n - 1, Child(acc, bit), lo, hi);
    }
  }

  /** The matched-literal coder has three trees of 0x100 nodes; a later bit is at a higher node
      of one of them, so no address comes back. */
  lemma {:induction false} MatchedAlike(i1: seq<byte>, d1: Dec, i2: seq<byte>, d2: Dec, k: int, top: nat, same: bool,
                                        base: nat, m: nat, n: nat, matchByte: nat, agreed: bool)
    requires m >= 1 && (n > 0 ==> (m + 1) * Pow2(n - 1) <= 0x100)
    requires Alike(i1, d1, i2, d2, k, top, same, base + m, base + 0x100)
    requires Alike(i1, d1, i2, d2, k, top, same, base + 0x100 + m, base + 0x200)
    requires Alike(i1, d1, i2, d2, k, top, same, base + 0x200 + m, base + 0x300)
    requires MatchedRead(i1, d1, base, m, n, matchByte, agreed).Some? && MatchedRead(i1, d1, base, m, n, matchByte, agreed).value.1.rd.pos <= top
    ensures MatchedRead(i2, d2, base, m, n, matchByte, agreed).Some?
    ensures var (v1, e1) := MatchedRead(i1, d1, base, m, n, matchByte, agreed).value;
            var (v2, e2) := MatchedRead(i2, d2, base, m, n, matchByte, agreed).value;
            v1 == v2 && Alike(i1, e1, i2, e2, k, top, same, 0, 0)
    decreases n
  {
    hide ReadModelled, Alike;
    if n == 0 {
      Shrink(i1, d1, i2, d2, k, top, same, base + m, base + 0x100, base + m, 0);
      Narrower(i1, d1, i2, d2, k, top, same, base + m);
    } else {
      var matchBit := BitOf(matchByte, n - 1);
      var a := MatchedAddress(base, m, matchBit, agreed);
      var bit := ReadModelled(i1, d1, a).value.0;
      ChildBelow(0, m, n, bit, 0x100);
      var c := Child(m, bit);
      var own := a - m;
      Shrink(i1, d1, i2, d2, k, top, same, own + m, own + 0x100, a, a + 1);
      Shrink(i1, d1, i2, d2, k, top, same, base + m, base + 0x100, base + c, base + 0x100);
      Shrink(i1, d1, i2, d2, k, top, same, base + 0x100 + m, base + 0x200, base + 0x100 + c, base + 0x200);
      Shrink(i1, d1, i2, d2, k, top, same, base + 0x200 + m, base + 0x300, base + 0x200 + c, base + 0x300);
      BitAlike(i1, d1, i2, d2, k, top, same, a, base + c, base + 0x100);
      BitAlike(i1, d1, i2, d2, k, top, same, a, base + 0x100 + c, base + 0x200);
      BitAlike(i1, d1, i2, d2, k, top, same, a, base + 0x200 + c, base + 0x300);
      var e1, e2 := ReadModelled(i1, d1, a).value.1, ReadModelled(i2, d2, a).value.1;
      MatchedAlike(i1, e1, i2, e2, k, top, same, base, c, n - 1, matchByte, agreed && bit == matchBit);
    }
  }

  lemma Narrower(i1: seq<byte>, d1: Dec, i2: seq<byte>, d2: Dec, k: int, top: nat, same: bool, lo: nat)
    requires Alike(i1, d1, i2, d2, k, top, same, lo, 0)
    ensures Alike(i1, d1, i2, d2, k, top, same, 0, 0)
  {
  }

  lemma LenAlike(i1: seq<byte>, d1: Dec, i2: seq<byte>, d2: Dec, k: int, top: nat, same: bool, base: nat, posState: nat, lo: nat, kept: nat)
    requires posState < 16 && kept <= base
    requires Alike(i1, d1, i2, d2, k, top, same, base, base + 514) && Alike(i1, d1, i2, d2, k, top, same, lo, kept)
    requires LenRead(i1, d1, base, posState).Some? && LenRead(i1, d1, base, posState).value.1.rd.pos <= top
    ensures LenRead(i2, d2, base, posState).Some?
    ensures var (v1, e1) := LenRead(i1, d1, base, posState).value;
            var (v2, e2) := LenRead(i2, d2, base, posState).value;
            v1 == v2 && Alike(i1, e1, i2, e2, k, top, same, lo, kept)
  {
    hide Alike, ReadModelled, TreeRead, LongLenRead;
    Powers();
    Shrink(i1, d1, i2, d2, k, top, same, base, base + 514, base, base + 1);
    Shrink(i1, d1, i2, d2, k, top, same, base, base + 514, base + 1, base + 514);
    BitAlike(i1, d1, i2, d2, k, top, same, base, base + 1, base + 514);
    BitAlike(i1, d1, i2, d2, k, top, same, base, lo, kept);
    var (choice, e1) := ReadModelled(i1, d1, base + LEN_CHOICE).value;
    var e2 := ReadModelled(i2, d2, base + LEN_CHOICE).value.1;
    if !choice {
      var tree := base + LEN_LOW + posState * 8;
      Shrink(i1, e1, i2, e2, k, top, same, base + 1, base + 514, tree + 1, tree + 8);
      TreeAlike(i1, e1, i2, e2, k, top, same, tree, 1, 3, tree + 8, lo, kept);
    } else {
      LongLenAlike(i1, e1, i2, e2, k, top, same, base, posState, lo, kept);
    }
  }

  lemma LongLenAlike(i1: seq<byte>, d1: Dec, i2: seq<byte>, d2: Dec, k: int, top: nat, same: bool, base: nat, posState: nat, lo: nat, kept: nat)
    requires posState < 16 && kept <= base
    requires Alike(i1, d1, i2, d2, k, top, same, base + 1, base + 514) && Alike(i1, d1, i2, d2, k, top, same, lo, kept)
    requires LongLenRead(i1, d1, base, posState).Some? && LongLenRead(i1, d1, base, posState).value.1.rd.pos <= top
    ensures LongLenRead(i2, d2, base, posState).Some?
    ensures var (v1, e1) := LongLenRead(i1, d1, base, posState).value;
            var (v2, e2) := LongLenRead(i2, d2, base, posState).value;
            v1 == v2 && Alike(i1, e1, i2, e2, k, top, same, lo, kept)
  {
    hide Alike, ReadModelled, TreeRead;
    Powers();
    Shrink(i1, d1, i2, d2, k, top, same, base + 1, base + 514, base + 1, base + 2);
    Shrink(i1, d1, i2, d2, k, top, same, base + 1, base + 514, base + 2, base + 514);
    BitAlike(i1, d1, i2, d2, k, top, same, base + 1, base + 2, base + 514);
    BitAlike(i1, d1, i2, d2, k, top, same, base + 1, lo, kept);
    var (choice2, e1) := ReadModelled(i1, d1, base + LEN_CHOICE2).value;
    var e2 := ReadModelled(i2, d2, base + LEN_CHOICE2).value.1;
    var tree, n, size := if !choice2 then base + LEN_MID + posState * 8 else base + LEN_HIGH,
                         if !choice2 then 3 else 8, if !choice2 then 8 else 256;
    Shrink(i1, e1, i2, e2, k, top, same, base + 2, base + 514, tree + 1, tree + size);
    TreeAlike(i1, e1, i2, e2, k, top, same, tree, 1, n, tree + size, lo, kept);
  }

  lemma FooterAlike(i1: seq<byte>, d1: Dec, i2: seq<byte>, d2: Dec, k: int, top: nat, same: bool, slot: nat)
    requires Alike(i1, d1, i2, d2, k, top, same, SPEC_POS, LEN_CODER) && FooterRead(i1, d1, slot).Some? && FooterRead(i1, d1, slot).value.1.rd.pos <= top
    ensures FooterRead(i2, d2, slot).Some?
    ensures var (v1, e1) := FooterRead(i1, d1, slot).value;
            var (v2, e2) := FooterRead(i2, d2, slot).value;
            v1 == v2 && Alike(i1, e1, i2, e2, k, top, same, 0, 0)
  {
    hide Alike, ReverseRead, DirectRead;
    Powers();
    Shrink(i1, d1, i2, d2, k, top, same, SPEC_POS, LEN_CODER, SPEC_POS, 0);
    Narrower(i1, d1, i2, d2, k, top, same, SPEC_POS);
    if slot < START_POS_MODEL {
    } else if slot < END_POS_MODEL {
      SpecBase(slot);
      var base := SPEC_POS + SlotBase(slot) - slot - 1;
      SpecTop(slot);
      Shrink(i1, d1, i2, d2, k, top, same, SPEC_POS, LEN_CODER, base + 1, ALIGN);
      ReverseAlike(i1, d1, i2, d2, k, top, same, base, 1, FooterBits(slot), 1, SlotBase(slot), ALIGN, 0, 0);
    } else {
      var n, lead := FooterBits(slot) - 4, 2 + slot % 2;
      Shrink(i1, d1, i2, d2, k, top, same, SPEC_POS, LEN_CODER, ALIGN + 1, ALIGN + 16);
      DirectAlike(i1, d1, i2, d2, k, top, same, n, lead, 0, 0);
      DirectAlike(i1, d1, i2, d2, k, top, same, n, lead, ALIGN + 1, ALIGN + 16);
      var (high, e1) := DirectRead(i1, d1, n, lead).value;
      ReverseAlike(i1, e1, i2, DirectRead(i2, d2, n, lead).value.1, k, top, same, ALIGN, 1, 4, 1, high * 16, ALIGN + 16, 0, 0);
    }
  }

  lemma SpecTop(slot: nat)
    requires START_POS_MODEL <= slot < END_POS_MODEL
    ensures SlotBase(slot) >= slot
    ensures SPEC_POS + SlotBase(slot) - slot - 1 + 2 * Pow2(FooterBits(slot) - 1) <= ALIGN
  {
    SpecBase(slot);
  }

  lemma DistanceAlike(i1: seq<byte>, d1: Dec, i2: seq<byte>, d2: Dec, k: int, top: nat, same: bool, lenSymbol: nat)
    requires Alike(i1, d1, i2, d2, k, top, same, POS_SLOT, LEN_CODER) && DistanceRead(i1, d1, lenSymbol).Some? && DistanceRead(i1, d1, lenSymbol).value.1.rd.pos <= top
    ensures DistanceRead(i2, d2, lenSymbol).Some?
    ensures var (v1, e1) := DistanceRead(i1, d1, lenSymbol).value;
            var (v2, e2) := DistanceRead(i2, d2, lenSymbol).value;
            v1 == v2 && Alike(i1, e1, i2, e2, k, top, same, 0, 0)
  {
    hide Alike, TreeRead, FooterRead;
    Powers();
    var tree := SlotTree(lenSymbol);
    Shrink(i1, d1, i2, d2, k, top, same, POS_SLOT, LEN_CODER, tree + 1, tree + 64);
    Shrink(i1, d1, i2, d2, k, top, same, POS_SLOT, LEN_CODER, SPEC_POS, LEN_CODER);
    TreeAlike(i1, d1, i2, d2, k, top, same, tree, 1, 6, tree + 64, SPEC_POS, LEN_CODER);
    var (v, e1) := TreeRead(i1, d1, tree, 1, 6).value;
    FooterAlike(i1, e1, i2, TreeRead(i2, d2, tree, 1, 6).value.1, k, top, same, v - 64);
  }

  lemma LiteralAlike(i1: seq<byte>, d1: Dec, i2: seq<byte>, d2: Dec, k: int, top: nat, same: bool, c: Context)
    requires Alike(i1, d1, i2, d2, k, top, same, c.lit, c.lit + LITERAL_SIZE) && LiteralRead(i1, d1, c).Some? && LiteralRead(i1, d1, c).value.1.rd.pos <= top
    ensures LiteralRead(i2, d2, c).Some? && LiteralRead(i1, d1, c).value.0 == LiteralRead(i2, d2, c).value.0
    ensures Alike(i1, LiteralRead(i1, d1, c).value.1, i2, LiteralRead(i2, d2, c).value.1, k, top, same, 0, 0)
  {
    hide Alike, TreeRead, MatchedRead;
    Powers();
    var lit := c.lit;
    Shrink(i1, d1, i2, d2, k, top, same, lit, lit + 0x300, lit, 0);
    Narrower(i1, d1, i2, d2, k, top, same, lit);
    Shrink(i1, d1, i2, d2, k, top, same, lit, lit + 0x300, lit + 1, lit + 0x100);
    if c.state < NUM_LIT_STATES {
      TreeAlike(i1, d1, i2, d2, k, top, same, lit, 1, 8, lit + 0x100, 0, 0);
    } else {
      Shrink(i1, d1, i2, d2, k, top, same, lit, lit + 0x300, lit + 0x101, lit + 0x200);
      Shrink(i1, d1, i2, d2, k, top, same, lit, lit + 0x300, lit + 0x201, lit + 0x300);
      MatchedAlike(i1, d1, i2, d2, k, top, same, lit, 1, 8, c.matchByte, true);
    }
  }

  /** A bit at a, when only what lies above is read later. */
  lemma BitThenAbove(i1: seq<byte>, d1: Dec, i2: seq<byte>, d2: Dec, k: int, top: nat, same: bool, a: nat, lo: nat, hi: nat)
    requires Alike(i1, d1, i2, d2, k, top, same, lo, hi) && lo <= a < hi && ReadModelled(i1, d1, a).Some? && ReadModelled(i1, d1, a).value.1.rd.pos <= top
    ensures ReadModelled(i2, d2, a).Some? && ReadModelled(i1, d1, a).value.0 == ReadModelled(i2, d2, a).value.0
    ensures Alike(i1, ReadModelled(i1, d1, a).value.1, i2, ReadModelled(i2, d2, a).value.1, k, top, same, a + 1, hi)
  {
    Shrink(i1, d1, i2, d2, k, top, same, lo, hi, a, a + 1);
    Shrink(i1, d1, i2, d2, k, top, same, lo, hi, a + 1, hi);
    BitAlike(i1, d1, i2, d2, k, top, same, a, a + 1, hi);
  }

  lemma RepIndexAlike(i1: seq<byte>, d1: Dec, i2: seq<byte>, d2: Dec, k: int, top: nat, same: bool, c: Context, hi: nat)
    requires c.state < NUM_STATES && hi >= LITERAL
    requires Alike(i1, d1, i2, d2, k, top, same, IS_REP_G0, hi) && RepIndexRead(i1, d1, c).Some? && RepIndexRead(i1, d1, c).value.1.rd.pos <= top
    ensures RepIndexRead(i2, d2, c).Some? && RepIndexRead(i1, d1, c).value.0 == RepIndexRead(i2, d2, c).value.0
    ensures Alike(i1, RepIndexRead(i1, d1, c).value.1, i2, RepIndexRead(i2, d2, c).value.1, k, top, same, IS_REP0_LONG, hi)
  {
    hide Alike, ReadModelled;
    var a0, a1, a2 := IS_REP_G0 + c.state, IS_REP_G1 + c.state, IS_REP_G2 + c.state;
    BitThenAbove(i1, d1, i2, d2, k, top, same, a0, IS_REP_G0, hi);
    var (g0, e1) := ReadModelled(i1, d1, a0).value;
    var e2 := ReadModelled(i2, d2, a0).value.1;
    if !g0 {
      Shrink(i1, e1, i2, e2, k, top, same, a0 + 1, hi, IS_REP0_LONG, hi);
    } else {
      BitThenAbove(i1, e1, i2, e2, k, top, same, a1, a0 + 1, hi);
      var (g1, f1) := ReadModelled(i1, e1, a1).value;
      var f2 := ReadModelled(i2, e2, a1).value.1;
      if !g1 {
        Shrink(i1, f1, i2, f2, k, top, same, a1 + 1, hi, IS_REP0_LONG, hi);
      } else {
        BitThenAbove(i1, f1, i2, f2, k, top, same, a2, a1 + 1, hi);
        var h1, h2 := ReadModelled(i1, f1, a2).value.1, ReadModelled(i2, f2, a2).value.1;
        Shrink(i1, h1, i2, h2, k, top, same, a2 + 1, hi, IS_REP0_LONG, hi);
      }
    }
  }

  lemma RepAlike(i1: seq<byte>, d1: Dec, i2: seq<byte>, d2: Dec, k: int, top: nat, same: bool, c: Context, hi: nat)
    requires c.state < NUM_STATES && c.posState < 16 && hi >= LITERAL
    requires Alike(i1, d1, i2, d2, k, top, same, IS_REP_G0, hi) && RepRead(i1, d1, c).Some? && RepRead(i1, d1, c).value.1.rd.pos <= top
    ensures RepRead(i2, d2, c).Some? && RepRead(i1, d1, c).value.0 == RepRead(i2, d2, c).value.0
    ensures Alike(i1, RepRead(i1, d1, c).value.1, i2, RepRead(i2, d2, c).value.1, k, top, same, 0, 0)
  {
    hide Alike, ReadModelled, RepIndexRead, LenRead;
    RepIndexAlike(i1, d1, i2, d2, k, top, same, c, hi);
    var (index, e1) := RepIndexRead(i1, d1, c).value;
    var e2 := RepIndexRead(i2, d2, c).value.1;
    var a := Rep0Long(c, true).a;
    var f1, f2, long := e1, e2, true;
    if index == 0 {
      BitThenAbove(i1, e1, i2, e2, k, top, same, a, IS_REP0_LONG, hi);
      long := ReadModelled(i1, e1, a).value.0;
      f1, f2 := ReadModelled(i1, e1, a).value.1, ReadModelled(i2, e2, a).value.1;
      Shrink(i1, f1, i2, f2, k, top, same, a + 1, hi, REP_LEN_CODER, LITERAL);
    } else {
      Shrink(i1, f1, i2, f2, k, top, same, IS_REP0_LONG, hi, REP_LEN_CODER, LITERAL);
    }
    Shrink(i1, f1, i2, f2, k, top, same, REP_LEN_CODER, LITERAL, REP_LEN_CODER, 0);
    Narrower(i1, f1, i2, f2, k, top, same, REP_LEN_CODER);
    if long {
      LenAlike(i1, f1, i2, f2, k, top, same, REP_LEN_CODER, c.posState, 0, 0);
    }
  }

  lemma MatchAlike(i1: seq<byte>, d1: Dec, i2: seq<byte>, d2: Dec, k: int, top: nat, same: bool, c: Context, hi: nat)
    requires c.posState < 16 && hi >= LITERAL
    requires Alike(i1, d1, i2, d2, k, top, same, IS_REP_G0, hi) && MatchRead(i1, d1, c).Some? && MatchRead(i1, d1, c).value.1.rd.pos <= top
    ensures MatchRead(i2, d2, c).Some? && MatchRead(i1, d1, c).value.0 == MatchRead(i2, d2, c).value.0
    ensures Alike(i1, MatchRead(i1, d1, c).value.1, i2, MatchRead(i2, d2, c).value.1, k, top, same, 0, 0)
  {
    hide Alike, LenRead, DistanceRead;
    Shrink(i1, d1, i2, d2, k, top, same, IS_REP_G0, hi, LEN_CODER, LEN_CODER + 514);
    Shrink(i1, d1, i2, d2, k, top, same, IS_REP_G0, hi, POS_SLOT, LEN_CODER);
    LenAlike(i1, d1, i2, d2, k, top, same, LEN_CODER, c.posState, POS_SLOT, LEN_CODER);
    var (len, e1) := LenRead(i1, d1, LEN_CODER, c.posState).value;
    DistanceAlike(i1, e1, i2, LenRead(i2, d2, LEN_CODER, c.posState).value.1, k, top, same, len);
  }

  /** The token ahead depends only on the bytes ahead and on probabilities as they were. */
  lemma TokenAlike(i1: seq<byte>, d1: Dec, i2: seq<byte>, d2: Dec, k: int, top: nat, same: bool, c: Context)
    requires ValidContext(c, |d1.probs|)
    requires Alike(i1, d1, i2, d2, k, top, same, 0, |d1.probs|) && TokenRead(i1, d1, c).Some? && TokenRead(i1, d1, c).value.1.rd.pos <= top
    ensures TokenRead(i2, d2, c).Some? && TokenRead(i1, d1, c).value.0 == TokenRead(i2, d2, c).value.0
    ensures Alike(i1, TokenRead(i1, d1, c).value.1, i2, TokenRead(i2, d2, c).value.1, k, top, same, 0, 0)
  {
    hide Alike, ReadModelled, LiteralRead, RepRead, MatchRead;
    var hi := |d1.probs|;
    var a, r := IsMatch(c, true).a, IsRep(c, true).a;
    BitThenAbove(i1, d1, i2, d2, k, top, same, a, 0, hi);
    var (isMatch, e1) := ReadModelled(i1, d1, a).value;
    var e2 := ReadModelled(i2, d2, a).value.1;
    if !isMatch {
      Shrink(i1, e1, i2, e2, k, top, same, a + 1, hi, c.lit, c.lit + LITERAL_SIZE);
      LiteralAlike(i1, e1, i2, e2, k, top, same, c);
    } else {
      BitThenAbove(i1, e1, i2, e2, k, top, same, r, a + 1, hi);
      var (isRep, f1) := ReadModelled(i1, e1, r).value;
      var f2 := ReadModelled(i2, e2, r).value.1;
      Shrink(i1, f1, i2, f2, k, top, same, r + 1, hi, IS_REP_G0, hi);
      if isRep {
        RepAlike(i1, f1, i2, f2, k, top, same, c, hi);
      } else {
        MatchAlike(i1, f1, i2, f2, k, top, same, c, hi);
      }
    }
  }

  // ---------- Looking ahead ----------

  /** One symbol and the normalisation that DecodeReal ends with. */
  function SymbolRead(input: seq<byte>, d: Dec, c: Context): (r: Option<(Token, Dec)>)
    ensures r.Some? ==> Onward(input, d, r.value.1)
  {
    var (t, d1) :- TokenRead(input, d, c);
    var rd :- Normalize(input, d1.rd);
    Some((t, d1.(rd := rd)))
  }

  lemma SymbolAlike(i1: seq<byte>, d1: Dec, i2: seq<byte>, d2: Dec, k: int, top: nat, same: bool, c: Context)
    requires ValidContext(c, |d1.probs|)
    requires Alike(i1, d1, i2, d2, k, top, same, 0, |d1.probs|) && SymbolRead(i1, d1, c).Some? && SymbolRead(i1, d1, c).value.1.rd.pos <= top
    ensures SymbolRead(i2, d2, c).Some? && SymbolRead(i1, d1, c).value.0 == SymbolRead(i2, d2, c).value.0
    ensures Alike(i1, SymbolRead(i1, d1, c).value.1, i2, SymbolRead(i2, d2, c).value.1, k, top, same, 0, 0)
  {
    hide TokenRead;
    TokenAlike(i1, d1, i2, d2, k, top, same, c);
    NormalizeAlike(i1, TokenRead(i1, d1, c).value.1, i2, TokenRead(i2, d2, c).value.1, k, top, same, 0, 0);
  }

  /** TryDummy, which leaves the probabilities alone, accepts an input exactly when the real
      decoding of the next symbol fits in it, and then sees the same token. */
  lemma DummyIsExact(input: seq<byte>, d: Dec, c: Context)
    requires ValidContext(c, |d.probs|) && d.rd.pos <= |input|
    ensures SymbolRead(input, d.(adapts := false), c).Some? <==> SymbolRead(input, d.(adapts := true), c).Some?
    ensures SymbolRead(input, d.(adapts := false), c).Some? ==>
              var (t, e) := SymbolRead(input, d.(adapts := false), c).value;
              var (u, f) := SymbolRead(input, d.(adapts := true), c).value;
              t == u && e.rd == f.rd
  {
    hide SymbolRead;
    var looking, adapting := d.(adapts := false), d.(adapts := true);
    if SymbolRead(input, looking, c).Some? {
      SymbolAlike(input, looking, input, adapting, 0, |input|, false, c);
    }
    if SymbolRead(input, adapting, c).Some? {
      SymbolAlike(input, adapting, input, looking, 0, |input|, false, c);
    }
  }

  /** More input, earlier or later, changes nothing about a symbol that was already there. */
  lemma SymbolInLongerInput(before: seq<byte>, input: seq<byte>, after: seq<byte>, d: Dec, c: Context)
    requires ValidContext(c, |d.probs|) && d.rd.pos <= |input| && SymbolRead(input, d, c).Some?
    ensures var (t, e) := SymbolRead(input, d, c).value;
            SymbolRead(before + input + after, d.(rd := d.rd.(pos := |before| + d.rd.pos)), c) ==
            Some((t, e.(rd := e.rd.(pos := |before| + e.rd.pos))))
  {
    hide SymbolRead;
    var longer, d2 := before + input + after, d.(rd := d.rd.(pos := |before| + d.rd.pos));
    assert longer[d2.rd.pos..|before| + |input|] == input[d.rd.pos..|input|];
    SymbolAlike(input, d, longer, d2, |before|, |input|, true, c);
  }

  /** A symbol that did not fit in an input takes bytes from beyond it. */
  lemma StuckNeedsMore(input: seq<byte>, more: seq<byte>, d: Dec, c: Context)
    requires ValidContext(c, |d.probs|) && d.rd.pos <= |input|
    requires SymbolRead(input, d, c).None? && SymbolRead(input + more, d, c).Some?
    ensures SymbolRead(input + more, d, c).value.1.rd.pos > |input|
  {
    hide TokenRead;
    if SymbolRead(input + more, d, c).value.1.rd.pos <= |input| {
      assert (input + more)[d.rd.pos..|input|] == input[d.rd.pos..|input|];
      SymbolAlike(input + more, d, input, d, 0, |input|, true, c);
      assert false;
    }
  }
}
