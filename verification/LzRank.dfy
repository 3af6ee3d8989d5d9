/** The order in which the match finder keeps strings: the first `limit` bytes from a position,
    read as one number, so that comparing strings is comparing numbers. */
module LzRank {
  import opened Bytes
  import opened Arith

  type octet = bv8

  function Value(b: octet): (v: nat)
    ensures v < 256
  {
    b as int
  }

  lemma ValueOrder(x: octet, y: octet)
    ensures (x < y <==> Value(x) < Value(y)) && (x == y <==> Value(x) == Value(y))
  {
  }

  /** Byte k from position i of the text; 0 behind its end. */
  function At(text: seq<octet>, i: nat, k: nat): octet {
    if i + k < |text| then text[i + k] else 0
  }

  /** The first limit bytes from i, as a big-endian number. */
  function Rank(text: seq<octet>, i: nat, limit: nat): nat {
    if limit == 0 then 0 else Rank(text, i, limit - 1) * 256 + Value(At(text, i, limit - 1))
  }

  ghost predicate Agree(text: seq<octet>, i: nat, j: nat, len: nat) {
    forall k | 0 <= k < len :: At(text, i, k) == At(text, j, k)
  }

  lemma {:induction false} RankBound(text: seq<octet>, i: nat, limit: nat)
    ensures Rank(text, i, limit) < Pow256(limit)
  {
    if limit > 0 {
      RankBound(text, i, limit - 1);
    }
  }

  /** A shorter limit keeps the leading digits. */
  lemma {:induction false} RankShorter(text: seq<octet>, i: nat, limit: nat, shorter: nat)
    requires shorter <= limit
    ensures Rank(text, i, limit) / Pow256(limit - shorter) == Rank(text, i, shorter)
    decreases limit
  {
    if shorter < limit {
      RankShorter(text, i, limit - 1, shorter);
      QuotientStep(Rank(text, i, limit - 1), Value(At(text, i, limit - 1)), Pow256(limit - 1 - shorter));
    }
  }

  lemma QuotientStep(x: nat, digit: nat, m: nat)
    requires m > 0 && digit < 256
    ensures (x * 256 + digit) / (256 * m) == x / m
  {
    DivMod(x, m);
    var q, r := x / m, x % m;
    assert q * m * 256 == q * (256 * m);
    ModUnique(x * 256 + digit, 256 * m, q, r * 256 + digit);
  }

  /** Equal ranks are equal strings. */
  lemma {:induction false} RankAgree(text: seq<octet>, i: nat, j: nat, limit: nat)
    ensures Rank(text, i, limit) == Rank(text, j, limit) <==> Agree(text, i, j, limit)
  {
    hide Value;
    if limit > 0 {
      var last := limit - 1;
      RankAgree(text, i, j, last);
      ValueOrder(At(text, i, last), At(text, j, last));
      assert Agree(text, i, j, limit) <==> Agree(text, i, j, last) && At(text, i, last) == At(text, j, last);
    }
  }

  lemma Floor(x: int, m: nat)
    requires m > 0
    ensures x / m * m <= x < (x / m + 1) * m
  {
    assert (x / m + 1) * m == x / m * m + m;
  }

  /** Quotients keep the order. */
  lemma QuotientOrder(x: int, y: int, m: nat)
    requires x <= y && m > 0
    ensures x / m <= y / m
  {
    Floor(x, m);
    Floor(y, m);
    Cancel(m, y / m + 1, x / m);
  }

  lemma QuotientOrderStrict(x: int, y: int, m: nat)
    requires m > 0 && x / m < y / m
    ensures x < y
  {
    if y <= x {
      QuotientOrder(y, x, m);
    }
  }

  /** The first difference decides. */
  lemma RankLess(text: seq<octet>, i: nat, j: nat, k: nat, limit: nat)
    requires k < limit && Agree(text, i, j, k) && At(text, i, k) < At(text, j, k)
    ensures Rank(text, i, limit) < Rank(text, j, limit)
  {
    ValueOrder(At(text, i, k), At(text, j, k));
    RankAgree(text, i, j, k);
    RankShorter(text, i, limit, k + 1);
    RankShorter(text, j, limit, k + 1);
    assert Rank(text, i, k + 1) == Rank(text, i, k) * 256 + Value(At(text, i, k));
    assert Rank(text, j, k + 1) == Rank(text, j, k) * 256 + Value(At(text, j, k));
    QuotientOrderStrict(Rank(text, i, limit), Rank(text, j, limit), Pow256(limit - k - 1));
  }

  /** What lies between two strings that begin alike begins like them. */
  lemma Between(text: seq<octet>, a: nat, c: nat, b: nat, k: nat, limit: nat)
    requires k <= limit && Rank(text, a, limit) <= Rank(text, c, limit) <= Rank(text, b, limit) && Agree(text, a, b, k)
    ensures Agree(text, a, c, k)
  {
    var m := Pow256(limit - k);
    RankShorter(text, a, limit, k);
    RankShorter(text, c, limit, k);
    RankShorter(text, b, limit, k);
    QuotientOrder(Rank(text, a, limit), Rank(text, c, limit), m);
    QuotientOrder(Rank(text, c, limit), Rank(text, b, limit), m);
    RankAgree(text, a, b, k);
    RankAgree(text, a, c, k);
  }

  /** Bytes that come later do not change ranks that were inside the text. */
  lemma {:induction false} RankOfLonger(text: seq<octet>, more: seq<octet>, i: nat, limit: nat)
    requires i + limit <= |text|
    ensures Rank(text + more, i, limit) == Rank(text, i, limit)
  {
    if limit > 0 {
      RankOfLonger(text, more, i, limit - 1);
    }
  }
}
