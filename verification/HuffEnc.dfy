/** Huffman_Generate: code lengths from counts, canonical codes from code lengths, and what they are good for. */
module HuffEnc {
  import opened Arith
  import opened Huffman
  import opened HuffmanHeight
  import opened Sort
  import opened HuffmanList
  import opened HuffmanTree
  import opened HuffmanDepths

  // ---------- Lengths ----------

  /** The lengths from l on, longest first. */
  function Spread(c: seq<nat>, l: nat): (r: seq<nat>)
    requires l <= |c|
    ensures forall j | 0 <= j < |r| :: l <= r[j] < |c|
    decreases |c| - l
  {
    if l == |c| then [] else Spread(c, l + 1) + Constant(c[l], l)
  }

  lemma {:induction false} SpreadFalls(c: seq<nat>, l: nat)
    requires l <= |c|
    ensures Falling(Spread(c, l), 0)
    decreases |c| - l
  {
    if l < |c| {
      SpreadFalls(c, l + 1);
    }
  }

  lemma {:induction false} SpreadCounts(c: seq<nat>, l: nat, v: nat)
    requires l <= |c|
    ensures multiset(Spread(c, l))[v] == if l <= v < |c| then c[v] else 0
    decreases |c| - l
  {
    if l < |c| {
      hide Constant;
      SpreadCounts(c, l + 1, v);
      ConstantCount(c[l], l, v);
      assert multiset(Spread(c, l)) == multiset(Spread(c, l + 1)) + multiset(Constant(c[l], l));
    }
  }

  lemma {:induction false} ConstantCount(n: nat, x: nat, v: nat)
    ensures multiset(Constant(n, x))[v] == if v == x then n else 0
  {
    if n > 0 {
      ConstantCount(n - 1, x, v);
      assert Constant(n, x) == Constant(n - 1, x) + [x];
    }
  }

  lemma {:induction false} SpreadLength(c: seq<nat>, l: nat)
    requires l <= |c|
    ensures |Spread(c, l)| == Sum(c[l..])
    decreases |c| - l
  {
    if l < |c| {
      SpreadLength(c, l + 1);
      assert c[l..][1..] == c[l + 1..];
    }
  }

  /** Two falling lists of the same numbers are one. */
  lemma {:induction false} SameFalling(s: seq<nat>, t: seq<nat>)
    requires Falling(s, 0) && Falling(t, 0) && multiset(s) == multiset(t)
    ensures s == t
  {
    SameLength(s, t);
    if s != [] {
      SameHead(s, t);
      Tail(s);
      Tail(t);
      SameFalling(s[1..], t[1..]);
    }
  }

  lemma SameLength(s: seq<nat>, t: seq<nat>)
    requires multiset(s) == multiset(t)
    ensures |s| == |t|
  {
    assert |multiset(s)| == |s| && |multiset(t)| == |t|;
  }

  lemma SameHead(s: seq<nat>, t: seq<nat>)
    requires s != [] && t != [] && Falling(s, 0) && Falling(t, 0) && multiset(s) == multiset(t)
    ensures s[0] == t[0]
  {
    assert s[0] in multiset(t) && t[0] in multiset(s);
  }

  lemma Tail(s: seq<nat>)
    requires s != []
    ensures s == [s[0]] + s[1..] && multiset(s[1..]) == multiset(s) - multiset{s[0]}
  {
    assert s == [s[0]] + s[1..];
  }

  /** What a list of code lengths uses up, against its counts. */
  lemma {:induction false} SpreadShares(c: seq<nat>, l: nat)
    requires l <= |c| == MAX_LEN + 1
    ensures AtMost(Spread(c, l), MAX_LEN)
    ensures Sum(Shares(Spread(c, l), MAX_LEN)) == Sum(Weighted(Pows(), c)[l..])
    decreases |c| - l
  {
    if l < |c| {
      hide Pow2, Sum;
      SpreadShares(c, l + 1);
      MoreShares(Spread(c, l + 1), c[l], l);
      OneMoreNode(Weighted(Pows(), c), l);
    }
  }

  lemma MoreShares(a: seq<nat>, n: nat, l: nat)
    requires AtMost(a, MAX_LEN) && l <= MAX_LEN
    ensures AtMost(a + Constant(n, l), MAX_LEN)
    ensures Sum(Shares(a + Constant(n, l), MAX_LEN)) == Sum(Shares(a, MAX_LEN)) + Pow2(MAX_LEN - l) * n
  {
    hide Pow2, Sum;
    var v := Pow2(MAX_LEN - l);
    assert Shares(a + Constant(n, l), MAX_LEN) == Shares(a, MAX_LEN) + Constant(n, v);
    SumConcat(Shares(a, MAX_LEN), Constant(n, v));
    SumConstant(n, v);
  }

  lemma {:induction false} SumConstant(n: nat, v: nat)
    ensures Sum(Constant(n, v)) == v * n
  {
    if n > 0 {
      assert Constant(n, v)[1..] == Constant(n - 1, v);
      SumConstant(n - 1, v);
    }
  }

  /** The lengths that the counts give fill the code space, and are the depths if none is too deep. */
  lemma SpreadIs(c: seq<nat>, w: seq<nat>, maxLen: nat, ld: seq<nat>)
    requires Counted(c, w, maxLen, ld)
    ensures |Spread(c, 1)| == |w| && (forall j | 0 <= j < |w| :: 1 <= Spread(c, 1)[j] <= maxLen)
    ensures AtMost(Spread(c, 1), MAX_LEN) && Sum(Shares(Spread(c, 1), MAX_LEN)) == Pow2(MAX_LEN)
    ensures Height(Leaves(w)) <= maxLen ==> Spread(c, 1) == ld
    ensures maxLen < Height(Leaves(w)) ==> maxLen in Spread(c, 1)
  {
    hide Pow2, Huff, Height, Sum, Shares, Falling, Spread, Cost;
    SpreadSums(c, |w|, maxLen);
    SpreadCounts(c, 1, maxLen);
    if ld[0] <= maxLen {
      SpreadFalls(c, 1);
      SameCounts(c, ld);
      SameFalling(Spread(c, 1), ld);
    }
  }

  lemma SpreadSums(c: seq<nat>, num: nat, maxLen: nat)
    requires Full(c, num, maxLen)
    ensures |Spread(c, 1)| == num && (forall j | 0 <= j < num :: 1 <= Spread(c, 1)[j] <= maxLen)
    ensures AtMost(Spread(c, 1), MAX_LEN) && Sum(Shares(Spread(c, 1), MAX_LEN)) == Pow2(MAX_LEN)
  {
    hide Pow2, Sum, Shares, Spread, Weighted;
    var s := Spread(c, 1);
    SpreadLength(c, 1);
    SpreadShares(c, 1);
    OneMoreNode(c, 0);
    OneMoreNode(Weighted(Pows(), c), 0);
    assert c[0..] == c && Weighted(Pows(), c)[0..] == Weighted(Pows(), c);
    forall j | 0 <= j < |s|
      ensures s[j] <= maxLen
    {
      SpreadCounts(c, 1, s[j]);
      assert s[j] in multiset(s);
    }
  }

  lemma SameCounts(c: seq<nat>, ld: seq<nat>)
    requires |c| == MAX_LEN + 1 && c[0] == 0 && Falling(ld, 0) && ld != [] && ld[0] <= MAX_LEN
    requires forall l | 0 <= l <= MAX_LEN :: c[l] == multiset(ld)[l]
    ensures multiset(Spread(c, 1)) == multiset(ld)
  {
    hide Spread, Constant;
    assert forall j | 0 <= j < |ld| :: ld[j] <= ld[0];
    forall v: nat
      ensures multiset(Spread(c, 1))[v] == multiset(ld)[v]
    {
      SpreadCounts(c, 1, v);
      assert v > MAX_LEN ==> v !in ld;
    }
  }

  // ---------- Sums over symbols ----------

  /** The items of a list that names every symbol with a share, each once, add up to all shares. */
  lemma {:induction false} Relisted(f: seq<nat>, sym: seq<nat>)
    requires forall j | 0 <= j < |sym| :: sym[j] < |f|
    requires forall i, j | 0 <= i < j < |sym| :: sym[i] != sym[j]
    requires forall k | 0 <= k < |f| && f[k] != 0 :: k in sym
    ensures Sum(Picked(f, sym)) == Sum(f)
    decreases |sym|
  {
    if sym == [] {
      Nowhere(f);
    } else {
      var n := |sym| - 1;
      var k := sym[n];
      var g := f[k := 0];
      forall i | 0 <= i < |g| && g[i] != 0
        ensures i in sym[..n]
      {
        assert i in sym;
      }
      Relisted(g, sym[..n]);
      SumUpdate(f, k, 0);
      assert Picked(f, sym) == Picked(g, sym[..n]) + [f[k]];
      SumConcat(Picked(g, sym[..n]), [f[k]]);
      assert Sum([f[k]]) == f[k];
    }
  }

  function Picked(f: seq<nat>, sym: seq<nat>): (r: seq<nat>)
    requires forall j | 0 <= j < |sym| :: sym[j] < |f|
    ensures |r| == |sym| && forall j | 0 <= j < |sym| :: r[j] == f[sym[j]]
  {
    seq(|sym|, j requires 0 <= j < |sym| => f[sym[j]])
  }

  // ---------- Codes ----------

  /** How many of the first n symbols have codes of length l. */
  function CountOf(lens: seq<nat>, n: nat, l: nat): (r: nat)
    requires n <= |lens|
    ensures r <= n
  {
    if n == 0 then 0 else CountOf(lens, n - 1, l) + if lens[n - 1] == l then 1 else 0
  }

  /** The first code of length l: the codes before it, and a bit. */
  function First(c: seq<nat>, l: nat): nat
    requires l <= |c|
  {
    if l == 0 then 0 else 2 * (First(c, l - 1) + c[l - 1])
  }

  function CodeOf(c: seq<nat>, lens: seq<nat>, k: nat): nat
    requires k < |lens| && lens[k] < |c|
  {
    First(c, lens[k]) + CountOf(lens, k, lens[k])
  }

  lemma {:induction false} CountGrows(lens: seq<nat>, n: nat, m: nat, l: nat)
    requires n <= m <= |lens|
    ensures CountOf(lens, n, l) <= CountOf(lens, m, l)
    ensures n < m && lens[n] == l ==> CountOf(lens, n, l) < CountOf(lens, m, l)
    decreases m - n
  {
    if n < m {
      CountGrows(lens, n + 1, m, l);
    }
  }

  /** All codes of at most a given length come before the first longer one. */
  lemma {:induction false} FirstLater(c: seq<nat>, l: nat, m: nat)
    requires l < m <= |c|
    ensures (First(c, l) + c[l]) * Pow2(m - l) <= First(c, m)
    decreases m
  {
    if l + 1 < m {
      FirstLater(c, l, m - 1);
      var x := First(c, l) + c[l];
      assert x * (2 * Pow2(m - 1 - l)) == 2 * (x * Pow2(m - 1 - l));
    } else {
      assert Pow2(1) == 2;
    }
  }

  /** How much of the code space lies before the codes of length l. */
  lemma {:induction false} FirstShare(c: seq<nat>, l: nat)
    requires |c| == MAX_LEN + 1 && l <= MAX_LEN
    ensures First(c, l) * Pow2(MAX_LEN - l) == Sum(Weighted(Pows(), c)[..l])
    decreases l
  {
    hide Pow2, Weighted;
    var w := Weighted(Pows(), c);
    if l == 0 {
      assert w[..l] == [] && First(c, l) == 0;
    } else {
      hide Sum;
      FirstShare(c, l - 1);
      SumSnoc(w, l - 1);
      PowNext(MAX_LEN - l);
      Doubled(First(c, l - 1), c[l - 1], Pow2(MAX_LEN - l));
    }
  }

  lemma SumSnoc(s: seq<nat>, k: nat)
    requires k < |s|
    ensures Sum(s[..k + 1]) == Sum(s[..k]) + s[k]
  {
    assert s[..k + 1] == s[..k] + [s[k]];
    SumConcat(s[..k], [s[k]]);
    assert Sum([s[k]]) == s[k];
  }

  lemma Doubled(x: nat, y: nat, h: nat)
    ensures 2 * (x + y) * h == x * (2 * h) + 2 * h * y
  {
  }

  /** A code fits in its bits. */
  lemma CodeFits(c: seq<nat>, num: nat, maxLen: nat, l: nat)
    requires Full(c, num, maxLen) && l <= MAX_LEN
    ensures First(c, l) + c[l] <= Pow2(l)
  {
    hide Pow2, First, Sum, Weighted;
    var w, h := Weighted(Pows(), c), Pow2(MAX_LEN - l);
    FirstShare(c, l);
    SumConcat(w[..l], w[l..]);
    assert w[..l] + w[l..] == w;
    OneMoreNode(w, l);
    Pow2Sum(MAX_LEN - l, l);
    assert MAX_LEN - l + l == MAX_LEN;
    Bounded(h, First(c, l), c[l], Pow2(l));
  }

  lemma Bounded(h: nat, x: nat, y: nat, p: nat)
    requires h > 0 && x * h + h * y <= h * p
    ensures x + y <= p
  {
    Distribute(h, x, y);
    Cancel(h, x + y, p);
  }

  /** Neither code is the beginning of the other. */
  ghost predicate Apart(l: nat, code: nat, l': nat, code': nat) {
    if l <= l' then code' / Pow2(l' - l) != code else code / Pow2(l - l') != code'
  }

  ghost predicate PrefixFree(lens: seq<nat>, codes: seq<word>) {
    |lens| <= |codes| && forall j, k | 0 <= j < k < |lens| && lens[j] > 0 && lens[k] > 0 :: Apart(lens[j], codes[j], lens[k], codes[k])
  }

  /** The counts are those of the lengths. */
  ghost predicate CountsOf(c: seq<nat>, lens: seq<nat>) {
    forall l | 1 <= l < |c| :: c[l] == CountOf(lens, |lens|, l)
  }

  lemma CodesApart(c: seq<nat>, lens: seq<nat>, j: nat, k: nat)
    requires CountsOf(c, lens) && j < |lens| && k < |lens| && j != k && 0 < lens[j] <= lens[k] < |c|
    ensures CodeOf(c, lens, k) / Pow2(lens[k] - lens[j]) != CodeOf(c, lens, j)
  {
    hide Pow2, First, CountOf;
    var l, m := lens[j], lens[k];
    CountGrows(lens, j, |lens|, l);
    if l < m {
      FirstLater(c, l, m);
      Behind(CodeOf(c, lens, k), First(c, l) + c[l], Pow2(m - l));
    } else {
      if j < k {
        CountGrows(lens, j, k, l);
      } else {
        CountGrows(lens, k, j, l);
      }
      NoShift(CodeOf(c, lens, k));
    }
  }

  lemma NoShift(x: nat)
    ensures x / Pow2(0) == x
  {
  }

  lemma Behind(y: nat, x: nat, p: nat)
    requires p > 0 && x * p <= y
    ensures x <= y / p
  {
    DivMod(y, p);
    MulStep(y / p, x, p);
  }

  // ---------- The list and the symbols ----------

  function Syms(s: seq<word>): (r: seq<nat>)
    ensures |r| == |s| && forall j | 0 <= j < |s| :: r[j] == Sym(s[j])
  {
    seq(|s|, j requires 0 <= j < |s| => Sym(s[j]))
  }

  /** The symbols that are listed are those with a weight, each once. */
  ghost predicate Names(freqs: seq<nat>, sym: seq<nat>) {
    (forall j | 0 <= j < |sym| :: sym[j] < |freqs|) &&
    (forall i, j | 0 <= i < j < |sym| :: sym[i] != sym[j]) &&
    (forall k | 0 <= k < |freqs| :: freqs[k] > 0 <==> k in sym)
  }

  lemma ListedNames(freqs: seq<word>, s: seq<word>)
    requires Packable(freqs) && Listed(freqs, |freqs|, s)
    ensures Names(freqs, Syms(s)) && Highs(s) == Picked(freqs, Syms(s))
  {
    hide Sym, High, Pack;
    forall k | 0 <= k < |freqs| && freqs[k] > 0
      ensures k in Syms(s)
    {
      var j :| 0 <= j < |s| && s[j] == Item(freqs, k);
      assert Syms(s)[j] == k;
    }
    forall k | k in Syms(s)
      ensures k < |freqs| && freqs[k] > 0
    {
      var j :| 0 <= j < |s| && Syms(s)[j] == k;
    }
  }

  /** Shares of the symbols that have a code. */
  function CodedShares(lens: seq<nat>, m: nat): (r: seq<nat>)
    requires AtMost(lens, m)
    ensures |r| == |lens|
  {
    seq(|lens|, k requires 0 <= k < |lens| => if lens[k] > 0 then Pow2(m - lens[k]) else 0)
  }

  /** Shares of the symbols that occur. */
  function UsedShares(freqs: seq<nat>, l: seq<nat>, m: nat): (r: seq<nat>)
    requires |l| == |freqs| && forall k | 0 <= k < |l| && freqs[k] > 0 :: l[k] <= m
    ensures |r| == |l|
  {
    seq(|l|, k requires 0 <= k < |l| => if freqs[k] > 0 then Pow2(m - l[k]) else 0)
  }

  function Used(freqs: seq<nat>): nat {
    Sum(seq(|freqs|, k requires 0 <= k < |freqs| => if freqs[k] > 0 then 1 else 0))
  }

  /** A prefix code for the symbols that occur, of at least a bit each. */
  ghost predicate CodeFor(freqs: seq<nat>, l: seq<nat>, m: nat) {
    |l| == |freqs| && (forall k | 0 <= k < |l| && freqs[k] > 0 :: 1 <= l[k] <= m) && Sum(UsedShares(freqs, l, m)) <= Pow2(m)
  }

  /** No prefix code costs less. */
  ghost predicate Optimal(freqs: seq<nat>, lens: seq<nat>) {
    |lens| == |freqs| && forall l: seq<nat>, m: nat | CodeFor(freqs, l, m) :: Cost(freqs, lens) <= Cost(freqs, l)
  }

  lemma ListedUsed(freqs: seq<nat>, sym: seq<nat>)
    requires Names(freqs, sym)
    ensures Used(freqs) == |sym| && Sum(Picked(freqs, sym)) == Sum(freqs)
  {
    var f: seq<nat> := seq(|freqs|, k requires 0 <= k < |freqs| => if freqs[k] > 0 then 1 else 0);
    Relisted(f, sym);
    Relisted(freqs, sym);
    assert Picked(f, sym) == Constant(|sym|, 1);
    SumConstant(|sym|, 1);
  }

  lemma ListedCost(freqs: seq<nat>, sym: seq<nat>, l: seq<nat>)
    requires Names(freqs, sym) && |l| == |freqs|
    ensures Cost(Picked(freqs, sym), Picked(l, sym)) == Cost(freqs, l)
  {
    forall k | 0 <= k < |freqs| && Weighted(freqs, l)[k] != 0
      ensures k in sym
    {
      assert freqs[k] > 0;
    }
    Relisted(Weighted(freqs, l), sym);
    assert Weighted(Picked(freqs, sym), Picked(l, sym)) == Picked(Weighted(freqs, l), sym);
  }

  lemma ListedShares(freqs: seq<nat>, sym: seq<nat>, l: seq<nat>, m: nat)
    requires Names(freqs, sym) && |l| == |freqs| && forall k | 0 <= k < |l| && freqs[k] > 0 :: l[k] <= m
    ensures AtMost(Picked(l, sym), m) && Sum(Shares(Picked(l, sym), m)) == Sum(UsedShares(freqs, l, m))
  {
    hide Pow2;
    forall j | 0 <= j < |sym|
      ensures l[sym[j]] <= m
    {
      assert sym[j] in sym;
    }
    Relisted(UsedShares(freqs, l, m), sym);
    assert Shares(Picked(l, sym), m) == Picked(UsedShares(freqs, l, m), sym) by {
      forall j | 0 <= j < |sym|
        ensures freqs[sym[j]] > 0
      {
        assert sym[j] in sym;
      }
    }
  }

  /** Lengths of Huffman's cost are not beaten. */
  lemma BestPossible(freqs: seq<nat>, sym: seq<nat>, lens: seq<nat>)
    requires Names(freqs, sym) && |lens| == |freqs| && |sym| >= 1 && Sorted(Picked(freqs, sym))
    requires Cost(freqs, lens) == Huff(Picked(freqs, sym))
    ensures Optimal(freqs, lens)
  {
    forall l: seq<nat>, m: nat | CodeFor(freqs, l, m)
      ensures Cost(freqs, lens) <= Cost(freqs, l)
    {
      hide Huff, Cost, Sum, Pow2, Shares, UsedShares;
      ListedShares(freqs, sym, l, m);
      ListedCost(freqs, sym, l);
      NoBetter(Picked(freqs, sym), Picked(l, sym), m);
    }
  }

  // ---------- The weights in order ----------

  /** The frequencies that occur, smallest first. */
  function Occurring(freqs: seq<nat>): (w: seq<nat>)
    ensures Sorted(w)
  {
    if freqs == [] then []
    else if freqs[0] == 0 then Occurring(freqs[1..])
    else Insert(freqs[0], Occurring(freqs[1..]))
  }

  /** How deep Huffman's tree for these frequencies is. */
  function TreeHeight(freqs: seq<nat>): nat {
    Height(Leaves(Occurring(freqs)))
  }

  lemma InsertCounts(x: nat, q: seq<nat>)
    ensures multiset(Insert(x, q)) == multiset(q) + multiset{x}
  {
    var p := Place(x, q);
    assert q == q[..p] + q[p..];
  }

  lemma {:induction false} OccurringCounts(freqs: seq<nat>, v: nat)
    ensures multiset(Occurring(freqs))[v] == if v > 0 then multiset(freqs)[v] else 0
    decreases |freqs|
  {
    if freqs != [] {
      hide Insert;
      OccurringCounts(freqs[1..], v);
      InsertCounts(freqs[0], Occurring(freqs[1..]));
      assert freqs == [freqs[0]] + freqs[1..];
    }
  }

  lemma PickedCounts(freqs: seq<nat>, sym: seq<nat>, v: nat)
    requires Names(freqs, sym)
    ensures multiset(Picked(freqs, sym))[v] == if v > 0 then multiset(freqs)[v] else 0
  {
    var w := Picked(freqs, sym);
    if v == 0 {
      assert v !in w by {
        forall j | 0 <= j < |w|
          ensures w[j] > 0
        {
          assert sym[j] in sym;
        }
      }
    } else {
      CountIsSum(freqs, |freqs|, v);
      CountIsSum(w, |w|, v);
      assert freqs[..|freqs|] == freqs && w[..|w|] == w;
      Relisted(Indicator(freqs, v), sym);
      assert Picked(Indicator(freqs, v), sym) == Indicator(w, v);
    }
  }

  /** Two rising lists of the same numbers are one. */
  lemma {:induction false} SameRising(s: seq<nat>, t: seq<nat>)
    requires Sorted(s) && Sorted(t) && multiset(s) == multiset(t)
    ensures s == t
  {
    SameLength(s, t);
    if s != [] {
      SameFirst(s, t);
      Tail(s);
      Tail(t);
      SameRising(s[1..], t[1..]);
    }
  }

  lemma SameFirst(s: seq<nat>, t: seq<nat>)
    requires s != [] && t != [] && Sorted(s) && Sorted(t) && multiset(s) == multiset(t)
    ensures s[0] == t[0]
  {
    assert s[0] in multiset(t) && t[0] in multiset(s);
  }

  lemma OccurringIs(freqs: seq<nat>, sym: seq<nat>)
    requires Names(freqs, sym) && Sorted(Picked(freqs, sym))
    ensures Occurring(freqs) == Picked(freqs, sym)
  {
    forall v: nat
      ensures multiset(Occurring(freqs))[v] == multiset(Picked(freqs, sym))[v]
    {
      OccurringCounts(freqs, v);
      PickedCounts(freqs, sym, v);
    }
    SameRising(Occurring(freqs), Picked(freqs, sym));
  }

  // ---------- The best codes are long ----------

  function Where(sym: seq<nat>, k: nat): (j: nat)
    requires k in sym
    ensures j < |sym| && sym[j] == k
  {
    if sym[0] == k then 0 else 1 + Where(sym[1..], k)
  }

  /** Every symbol of the list gets its length. */
  function Unlisted(n: nat, sym: seq<nat>, l: seq<nat>): (r: seq<nat>)
    requires |l| == |sym|
    ensures |r| == n
  {
    seq(n, k requires 0 <= k < n => if k in sym then l[Where(sym, k)] else 0)
  }

  lemma UnlistedIs(freqs: seq<nat>, sym: seq<nat>, l: seq<nat>)
    requires Names(freqs, sym) && |l| == |sym|
    ensures Picked(Unlisted(|freqs|, sym, l), sym) == l
  {
    forall j | 0 <= j < |sym|
      ensures Where(sym, sym[j]) == j
    {
      assert sym[Where(sym, sym[j])] == sym[j];
    }
  }

  /** There is a code of Huffman's cost. */
  lemma CodeOfCost(freqs: seq<nat>, sym: seq<nat>) returns (l: seq<nat>, m: nat)
    requires Names(freqs, sym) && |sym| >= 2
    ensures CodeFor(freqs, l, m) && Cost(freqs, l) == Huff(Picked(freqs, sym))
  {
    hide Huff, Cost, Sum, Pow2, Shares, UsedShares, Where, Unlisted;
    var d;
    d, m := CostReached(Picked(freqs, sym));
    l := Unlisted(|freqs|, sym, d);
    UnlistedIs(freqs, sym, d);
    forall k | 0 <= k < |freqs| && freqs[k] > 0
      ensures 1 <= l[k] <= m
    {
      var j :| 0 <= j < |sym| && sym[j] == k;
      assert l[sym[j]] == d[j];
    }
    ListedShares(freqs, sym, l, m);
    ListedCost(freqs, sym, l);
  }

  /** No optimal code gets along with fewer bits than Huffman's tree is deep. */
  lemma OptimalIsLong(freqs: seq<nat>, sym: seq<nat>, lens: seq<nat>, m: nat)
    requires Names(freqs, sym) && |sym| >= 2 && Sorted(Picked(freqs, sym))
    requires CodeFor(freqs, lens, m) && Optimal(freqs, lens)
    ensures exists k | 0 <= k < |freqs| :: freqs[k] > 0 && lens[k] >= TreeHeight(freqs)
  {
    hide Huff, Height, Cost, Sum, Pow2, Shares, UsedShares, Leaves, Occurring;
    var w := Picked(freqs, sym);
    var l, n := CodeOfCost(freqs, sym);
    OccurringIs(freqs, sym);
    ListedShares(freqs, sym, lens, m);
    ListedCost(freqs, sym, lens);
    NoBetter(w, Picked(lens, sym), m);
    LongEnough(w, Picked(lens, sym), m);
    var j :| 0 <= j < |sym| && Picked(lens, sym)[j] >= Height(Leaves(w));
    assert sym[j] in sym && lens[sym[j]] >= TreeHeight(freqs);
  }

  // ---------- In place ----------

  lemma {:induction false} SpreadPrefix(c: seq<nat>, l: nat)
    requires 1 <= l <= |c|
    ensures Spread(c, l) <= Spread(c, 1)
    decreases l
  {
    if l > 1 {
      SpreadPrefix(c, l - 1);
    }
  }

  lemma {:induction false} SpreadNothing(c: seq<nat>, l: nat)
    requires l <= |c| && forall i | l <= i < |c| :: c[i] == 0
    ensures Spread(c, l) == []
    decreases |c| - l
  {
    if l < |c| {
      SpreadNothing(c, l + 1);
    }
  }

  lemma SpreadAt(c: seq<nat>, l: nat, j: nat)
    requires 1 <= l < |c| && |Spread(c, l + 1)| <= j < |Spread(c, l + 1)| + c[l]
    ensures j < |Spread(c, 1)| && Spread(c, 1)[j] == l
  {
    SpreadPrefix(c, l);
    assert Spread(c, l)[j] == l;
  }

  /** The first i symbols of the list have their lengths; nothing else was written. */
  ghost predicate Given(s: seq<word>, before: seq<word>, sym: seq<nat>, sp: seq<nat>, i: nat) {
    |s| == |before| && i <= |sp| == |sym| &&
    (forall j | 0 <= j < |sym| :: sym[j] < |s|) && (forall x, y | 0 <= x < y < |sym| :: sym[x] != sym[y]) &&
    (forall j | 0 <= j < i :: s[sym[j]] == sp[j]) && (forall k | 0 <= k < |s| && k !in sym :: s[k] == before[k])
  }

  lemma GiveOne(s: seq<word>, before: seq<word>, sym: seq<nat>, sp: seq<nat>, i: nat, v: word)
    requires Given(s, before, sym, sp, i) && i < |sp| && v == sp[i]
    ensures sym[i] < |s| && Given(s[sym[i] := v], before, sym, sp, i + 1)
  {
  }

  /** The longest codes go to the first, lightest symbols of the list. */
  method AssignLengths(p: array<word>, lens: array<word>, lenCounters: array<nat>, num: nat, maxLen: nat)
    requires num <= p.Length && p != lens && Full(lenCounters[..], num, maxLen)
    requires var sym := Syms(p[..num]);
      (forall j | 0 <= j < num :: sym[j] < lens.Length) && (forall i, j | 0 <= i < j < num :: sym[i] != sym[j])
    modifies lens
    ensures Given(lens[..], old(lens[..]), Syms(p[..num]), Spread(lenCounters[..], 1), num)
  {
    hide Full, Spread, Sym, Given, Cost, Sum, Pow2;
    ghost var c, sym := lenCounters[..], Syms(p[..num]);
    FullShape(c, num, maxLen);
    SpreadSums(c, num, maxLen);
    NoneLonger(c, num, maxLen);
    NoneGiven(lens[..], sym, Spread(c, 1));
    var i: nat, len: nat := 0, maxLen;
    while len != 0
      invariant len <= maxLen && i == |Spread(c, len + 1)| <= num
      invariant Given(lens[..], old(lens[..]), sym, Spread(c, 1), i)
    {
      SpreadMore(c, len);
      i := GiveLength(p, lens, lenCounters[len], i, len, old(lens[..]), sym, c);
      len := len - 1;
    }
  }

  lemma NoneGiven(s: seq<word>, sym: seq<nat>, sp: seq<nat>)
    requires |sp| == |sym| && (forall j | 0 <= j < |sym| :: sym[j] < |s|) && (forall i, j | 0 <= i < j < |sym| :: sym[i] != sym[j])
    ensures Given(s, s, sym, sp, 0)
  {
  }

  method GiveLength(p: array<word>, lens: array<word>, count: nat, i0: nat, len: nat, ghost before: seq<word>, ghost sym: seq<nat>, ghost c: seq<nat>)
    returns (i: nat)
    requires 1 <= len < |c| <= MAX_LEN + 1 && count == c[len] && i0 == |Spread(c, len + 1)| && p != lens
    requires |Spread(c, 1)| == |sym| <= p.Length && sym == Syms(p[..|sym|]) && Given(lens[..], before, sym, Spread(c, 1), i0)
    modifies lens
    ensures i == |Spread(c, len)| && Given(lens[..], before, sym, Spread(c, 1), i)
  {
    hide Given, Spread, Sym;
    SpreadMore(c, len);
    i := i0;
    var k := count;
    while k != 0
      invariant i + k == i0 + count && i <= |sym|
      invariant Given(lens[..], before, sym, Spread(c, 1), i)
    {
      SpreadAt(c, len, i);
      GiveOne(lens[..], before, sym, Spread(c, 1), i, len);
      assert sym[i] == Sym(p[i]);
      lens[Sym(p[i])] := len;
      i := i + 1;
      k := k - 1;
    }
  }

  lemma SpreadMore(c: seq<nat>, l: nat)
    requires 1 <= l < |c|
    ensures |Spread(c, l)| == |Spread(c, l + 1)| + c[l] <= |Spread(c, 1)|
  {
    SpreadPrefix(c, l);
  }

  lemma NoneLonger(c: seq<nat>, num: nat, maxLen: nat)
    requires Full(c, num, maxLen)
    ensures Spread(c, maxLen + 1) == []
  {
    SpreadNothing(c, maxLen + 1);
  }

  lemma PowOf16(l: nat)
    requires l <= MAX_LEN
    ensures Pow2(l) <= 0x10000
  {
    Pow2Order(l, MAX_LEN);
    Pow2Sum(8, 8);
    assert Pow2(8) == 0x100;
  }

  lemma FirstSmall(c: seq<nat>, num: nat, maxLen: nat, l: nat)
    requires Full(c, num, maxLen) && 1 <= l <= MAX_LEN
    ensures First(c, l) == (First(c, l - 1) + c[l - 1]) * 2 <= 0x10000
  {
    CodeFits(c, num, maxLen, l);
    PowOf16(l);
  }

  lemma NoFirst(c: seq<nat>)
    ensures First(c, 0) == 0
  {
  }

  method FirstCodes(lenCounters: array<nat>, ghost num: nat, ghost maxLen: nat) returns (nextCodes: array<word>)
    requires Full(lenCounters[..], num, maxLen)
    ensures fresh(nextCodes) && nextCodes.Length == MAX_LEN + 1
    ensures forall l | 1 <= l <= MAX_LEN :: nextCodes[l] == First(lenCounters[..], l)
  {
    hide Full, First;
    ghost var c := lenCounters[..];
    FullShape(c, num, maxLen);
    NoFirst(c);
    nextCodes := new word[MAX_LEN + 1];
    var code, len := 0, 1;
    while len <= MAX_LEN
      invariant 1 <= len <= MAX_LEN + 1 && code == First(c, len - 1)
      invariant forall l | 1 <= l < len :: nextCodes[l] == First(c, l)
    {
      FirstSmall(c, num, maxLen, len);
      code := (code + lenCounters[len - 1]) * 2;
      nextCodes[len] := code;
      len := len + 1;
    }
  }

  /** A UInt32 goes round. The counter of length 0 starts anywhere; nobody reads the codes it gives. */
  function Increased(v: word): word {
    if v == 0xFFFF_FFFF then 0 else v + 1
  }

  lemma CodeSmall(c: seq<nat>, lens: seq<nat>, num: nat, maxLen: nat, k: nat)
    requires Full(c, num, maxLen) && CountsOf(c, lens) && k < |lens| && 0 < lens[k] < |c|
    ensures CodeOf(c, lens, k) == First(c, lens[k]) + CountOf(lens, k, lens[k]) < Pow2(lens[k]) <= 0x10000
  {
    hide Pow2, First;
    CodeFits(c, num, maxLen, lens[k]);
    PowOf16(lens[k]);
    CountGrows(lens, k, |lens|, lens[k]);
  }

  method AssignCodes(p: array<word>, lens: array<word>, lenCounters: array<nat>, n: nat, ghost num: nat, ghost maxLen: nat)
    requires n <= p.Length && n <= lens.Length && p != lens && Full(lenCounters[..], num, maxLen)
    requires (forall k | 0 <= k < n :: lens[k] <= MAX_LEN) && CountsOf(lenCounters[..], lens[..n])
    modifies p
    ensures |lenCounters[..]| == MAX_LEN + 1
    ensures forall k | 0 <= k < n && lens[k] > 0 :: p[k] == CodeOf(lenCounters[..], lens[..n], k) < Pow2(lens[k])
  {
    hide Full, First, Pow2, CodeOf;
    ghost var c, l := lenCounters[..], lens[..n];
    FullShape(c, num, maxLen);
    var nextCodes := FirstCodes(lenCounters, num, maxLen);
    for k := 0 to n
      invariant forall x | 1 <= x <= MAX_LEN :: nextCodes[x] == First(c, x) + CountOf(l, k, x)
      invariant forall j | 0 <= j < k && lens[j] > 0 :: p[j] == CodeOf(c, l, j) < Pow2(lens[j])
    {
      var len := lens[k];
      if len > 0 {
        CodeSmall(c, l, num, maxLen, k);
      }
      p[k] := nextCodes[len];
      nextCodes[len] := Increased(nextCodes[len]);
    }
  }

  // ---------- What is generated ----------

  /** The lengths of a list of symbols; all others have none. */
  ghost predicate LengthsOf(lens: seq<nat>, sym: seq<nat>, sp: seq<nat>) {
    |sym| == |sp| && (forall j | 0 <= j < |sym| :: sym[j] < |lens|) &&
    (forall i, j | 0 <= i < j < |sym| :: sym[i] != sym[j]) &&
    (forall j | 0 <= j < |sym| :: lens[sym[j]] == sp[j] > 0) && (forall k | 0 <= k < |lens| && k !in sym :: lens[k] == 0)
  }

  function Indicator(s: seq<nat>, l: nat): (r: seq<nat>)
    ensures |r| == |s|
  {
    seq(|s|, k requires 0 <= k < |s| => if s[k] == l then 1 else 0)
  }

  lemma {:induction false} CountIsSum(s: seq<nat>, n: nat, l: nat)
    requires n <= |s|
    ensures CountOf(s, n, l) == Sum(Indicator(s[..n], l)) == multiset(s[..n])[l]
    decreases n
  {
    if n > 0 {
      CountIsSum(s, n - 1, l);
      assert s[..n] == s[..n - 1] + [s[n - 1]];
      assert Indicator(s[..n], l) == Indicator(s[..n - 1], l) + [if s[n - 1] == l then 1 else 0];
      SumConcat(Indicator(s[..n - 1], l), [if s[n - 1] == l then 1 else 0]);
      assert Sum([if s[n - 1] == l then 1 else 0]) == if s[n - 1] == l then 1 else 0;
    }
  }

  lemma LengthCounts(c: seq<nat>, lens: seq<nat>, sym: seq<nat>)
    requires 1 <= |c| && LengthsOf(lens, sym, Spread(c, 1))
    ensures CountsOf(c, lens)
  {
    hide Spread;
    var sp := Spread(c, 1);
    forall l | 1 <= l < |c|
      ensures c[l] == CountOf(lens, |lens|, l)
    {
      SpreadCounts(c, 1, l);
      CountIsSum(lens, |lens|, l);
      CountIsSum(sp, |sp|, l);
      assert sp[..|sp|] == sp && lens[..|lens|] == lens;
      SameIndicator(lens, sym, sp, l);
    }
  }

  lemma SameIndicator(lens: seq<nat>, sym: seq<nat>, sp: seq<nat>, l: nat)
    requires LengthsOf(lens, sym, sp) && l > 0
    ensures Sum(Indicator(lens, l)) == Sum(Indicator(sp, l))
  {
    Relisted(Indicator(lens, l), sym);
    assert Picked(Indicator(lens, l), sym) == Indicator(sp, l);
  }

  lemma LengthShares(lens: seq<nat>, sym: seq<nat>, sp: seq<nat>, m: nat)
    requires LengthsOf(lens, sym, sp) && AtMost(sp, m)
    ensures AtMost(lens, m) && Sum(CodedShares(lens, m)) == Sum(Shares(sp, m))
  {
    forall k | 0 <= k < |lens|
      ensures lens[k] <= m
    {
      if k in sym {
        var j :| 0 <= j < |sym| && sym[j] == k;
        assert lens[sym[j]] == sp[j];
      }
    }
    Relisted(CodedShares(lens, m), sym);
    assert Picked(CodedShares(lens, m), sym) == Shares(sp, m);
  }

  /** A prefix code that leaves no room: no length above maxLen, every code within its bits, none the beginning of another. */
  ghost predicate Coded(lens: seq<word>, codes: seq<word>, maxLen: nat) {
    |lens| == |codes| && maxLen <= MAX_LEN && AtMost(lens, maxLen) && AtMost(lens, MAX_LEN) &&
    Sum(CodedShares(lens, MAX_LEN)) == Pow2(MAX_LEN) &&
    (forall k | 0 <= k < |lens| && lens[k] > 0 :: codes[k] < Pow2(lens[k])) && PrefixFree(lens, codes)
  }

  lemma CodesAreApart(c: seq<nat>, lens: seq<word>, codes: seq<word>)
    requires CountsOf(c, lens) && |lens| == |codes| && AtMost(lens, MAX_LEN) && |c| == MAX_LEN + 1
    requires forall k | 0 <= k < |lens| && lens[k] > 0 :: codes[k] == CodeOf(c, lens, k)
    ensures PrefixFree(lens, codes)
  {
    hide CodeOf, CountsOf, Pow2;
    forall j, k | 0 <= j < k < |lens| && lens[j] > 0 && lens[k] > 0
      ensures Apart(lens[j], codes[j], lens[k], codes[k])
    {
      if lens[j] <= lens[k] {
        CodesApart(c, lens, j, k);
      } else {
        CodesApart(c, lens, k, j);
      }
    }
  }

  /** A code within maxLen bits needs room for the symbols that occur. */
  lemma NeedsRoom(freqs: seq<nat>, l: seq<nat>, maxLen: nat)
    requires CodeFor(freqs, l, maxLen)
    ensures Used(freqs) <= Pow2(maxLen)
  {
    var f: seq<nat> := seq(|freqs|, k requires 0 <= k < |freqs| => if freqs[k] > 0 then 1 else 0);
    assert forall k | 0 <= k < |f| :: f[k] <= UsedShares(freqs, l, maxLen)[k];
    SumOrder(f, UsedShares(freqs, l, maxLen));
  }

  lemma {:induction false} SumOrder(s: seq<nat>, t: seq<nat>)
    requires |s| == |t| && forall k | 0 <= k < |s| :: s[k] <= t[k]
    ensures Sum(s) <= Sum(t)
  {
    if s != [] {
      SumOrder(s[1..], t[1..]);
    }
  }

  /** No prefix code is better exactly if the tree is not too deep, and then the cost is Huffman's; otherwise some
      length is the greatest allowed. */
  ghost predicate BestIfShallow(freqs: seq<nat>, lens: seq<nat>, maxLen: nat) {
    |lens| == |freqs| && (Optimal(freqs, lens) <==> TreeHeight(freqs) <= maxLen) &&
    if TreeHeight(freqs) > maxLen then maxLen in lens else Cost(freqs, lens) == Huff(Occurring(freqs))
  }

  /** From the lists to the lengths: they fill the code space, and nothing is better exactly if no leaf is too deep. */
  lemma FromTheTree(freqs: seq<nat>, sym: seq<nat>, lens: seq<nat>, c: seq<nat>, maxLen: nat, ld: seq<nat>)
    requires Names(freqs, sym) && Sorted(Picked(freqs, sym)) && Counted(c, Picked(freqs, sym), maxLen, ld)
    requires LengthsOf(lens, sym, Spread(c, 1)) && |lens| == |freqs|
    ensures AtMost(lens, maxLen) && AtMost(lens, MAX_LEN) && Sum(CodedShares(lens, MAX_LEN)) == Pow2(MAX_LEN) && CountsOf(c, lens)
    ensures BestIfShallow(freqs, lens, maxLen)
  {
    hide Spread, Full, Cost, Huff, Height, Sum, Pow2, Shares, CodedShares, Optimal, Occurring, Leaves;
    FullShape(c, |ld|, maxLen);
    var w, sp := Picked(freqs, sym), Spread(c, 1);
    OccurringIs(freqs, sym);
    SpreadIs(c, w, maxLen, ld);
    LengthCounts(c, lens, sym);
    LengthShares(lens, sym, sp, MAX_LEN);
    assert AtMost(sp, maxLen);
    LengthShares(lens, sym, sp, maxLen);
    assert Picked(lens, sym) == sp;
    if TreeHeight(freqs) <= maxLen {
      ListedCost(freqs, sym, lens);
      BestPossible(freqs, sym, lens);
    } else {
      var j :| 0 <= j < |sp| && sp[j] == maxLen;
      assert lens[sym[j]] == maxLen;
      ClampedIsWorse(freqs, sym, lens, sp, maxLen);
    }
  }

  lemma ClampedIsWorse(freqs: seq<nat>, sym: seq<nat>, lens: seq<nat>, sp: seq<nat>, maxLen: nat)
    requires Names(freqs, sym) && |sym| >= 2 && Sorted(Picked(freqs, sym)) && LengthsOf(lens, sym, sp) && |lens| == |freqs|
    requires AtMost(lens, maxLen) && maxLen < TreeHeight(freqs) && AtMost(sp, MAX_LEN) && Sum(Shares(sp, MAX_LEN)) <= Pow2(MAX_LEN)
    requires maxLen <= MAX_LEN
    ensures !Optimal(freqs, lens)
  {
    hide Cost, Huff, Height, Sum, Pow2, Shares, UsedShares, Optimal, Occurring, Leaves, TreeHeight;
    assert Picked(lens, sym) == sp;
    ListedShares(freqs, sym, lens, MAX_LEN);
    forall k | 0 <= k < |freqs| && freqs[k] > 0
      ensures lens[k] >= 1
    {
      var j :| 0 <= j < |sym| && sym[j] == k;
      assert lens[sym[j]] == sp[j];
    }
    if Optimal(freqs, lens) {
      OptimalIsLong(freqs, sym, lens, MAX_LEN);
    }
  }

  // ---------- Huffman_Generate ----------

  /** Fewer than two symbols occur: two codes of one bit, one of them for the symbol that does. */
  method TwoCodes(p: array<word>, lens: array<word>, num: nat, ghost freqs: seq<nat>)
    requires num < 2 && num <= p.Length && p != lens && 2 <= p.Length && 2 <= lens.Length && |freqs| <= p.Length && |freqs| <= lens.Length
    requires num == 1 ==> Sym(p[0]) < |freqs|
    requires forall k | 0 <= k < |freqs| && freqs[k] == 0 :: lens[k] == 0
    requires forall k | 0 <= k < |freqs| && freqs[k] > 0 :: num == 1 && k == Sym(p[0])
    modifies p, lens
    ensures var n := if |freqs| < 2 then 2 else |freqs|;
      n <= lens.Length && n <= p.Length && Coded(lens[..n], p[..n], 1)
    ensures forall k | 0 <= k < |freqs| && freqs[k] > 0 :: lens[k] == 1
  {
    hide Sym, Pow2;
    var minCode, maxCode := 0, 1;
    if num == 1 {
      maxCode := Sym(p[0]);
      if maxCode == 0 {
        maxCode := maxCode + 1;
      }
    }
    p[minCode], p[maxCode] := 0, 1;
    lens[maxCode] := 1;
    lens[minCode] := lens[maxCode];
    ghost var n := if |freqs| < 2 then 2 else |freqs|;
    TwoBits(lens[..n], p[..n], maxCode);
  }

  lemma TwoBits(lens: seq<word>, codes: seq<word>, k: nat)
    requires |lens| == |codes| && 0 < k < |lens| && lens[0] == lens[k] == 1 && codes[0] == 0 && codes[k] == 1
    requires forall j | 0 <= j < |lens| && j != 0 && j != k :: lens[j] == 0
    ensures Coded(lens, codes, 1)
  {
    hide Sum;
    assert Pow2(0) == 1 && Pow2(1) == 2;
    OneBitShares(lens, k);
    NoShift(codes[0]);
    NoShift(codes[k]);
  }

  lemma OneBitShares(lens: seq<nat>, k: nat)
    requires 0 < k < |lens| && lens[0] == lens[k] == 1 && forall j | 0 <= j < |lens| && j != 0 && j != k :: lens[j] == 0
    ensures AtMost(lens, MAX_LEN) && Sum(CodedShares(lens, MAX_LEN)) == Pow2(MAX_LEN)
  {
    hide Pow2, Sum;
    TwoEntries(CodedShares(lens, MAX_LEN), k);
    PowNext(MAX_LEN - 1);
  }

  lemma TwoEntries(s: seq<nat>, k: nat)
    requires 0 < k < |s| && forall j | 0 <= j < |s| && j != 0 && j != k :: s[j] == 0
    ensures Sum(s) == s[0] + s[k]
  {
    SumUpdate(s, 0, 0);
    OneEntry(s[0 := 0], k);
  }

  function AtLeastTwo(n: nat): nat {
    if n < 2 then 2 else n
  }

  /** HuffEnc.h: at most 1024 symbols of less than 2^22 in all. */
  ghost predicate Acceptable(freqs: seq<word>, maxLen: nat) {
    |freqs| <= MASKED && Sum(freqs) < 0x40_0000 && 1 <= maxLen <= MAX_LEN && Used(freqs) <= Pow2(maxLen)
  }

  /** A code without gaps for all that occurs, and for nothing else unless less than two symbols do. No prefix code is
      better exactly if the tree is not too deep; if it is, some length is the greatest allowed. */
  ghost predicate Generated(freqs: seq<word>, lens: seq<word>, codes: seq<word>, maxLen: nat) {
    var n := AtLeastTwo(|freqs|);
    n <= |lens| && n <= |codes| && Coded(lens[..n], codes[..n], maxLen) &&
    (forall k | 0 <= k < |freqs| && freqs[k] > 0 :: lens[k] > 0) &&
    (Used(freqs) >= 2 ==> forall k | 0 <= k < |freqs| && freqs[k] == 0 :: lens[k] == 0) &&
    if Used(freqs) >= 2 then BestIfShallow(freqs, lens[..|freqs|], maxLen)
    else TreeHeight(freqs) == 0 && Optimal(freqs, lens[..|freqs|])
  }

  lemma AllPackable(freqs: seq<word>)
    requires |freqs| <= MASKED && Sum(freqs) < 0x40_0000
    ensures Packable(freqs)
  {
    forall k | 0 <= k < |freqs|
      ensures freqs[k] < 0x40_0000
    {
      PartOfSum(freqs, k);
    }
  }

  lemma FewNames(freqs: seq<nat>, sym: seq<nat>)
    requires Names(freqs, sym) && |sym| < 2
    ensures |sym| == 1 ==> sym[0] < |freqs|
    ensures forall k | 0 <= k < |freqs| && freqs[k] > 0 :: |sym| == 1 && k == sym[0]
  {
  }

  lemma LaxerCode(lens: seq<word>, codes: seq<word>, maxLen: nat)
    requires Coded(lens, codes, 1) && 1 <= maxLen <= MAX_LEN
    ensures Coded(lens, codes, maxLen)
  {
  }

  lemma FewOptimal(freqs: seq<nat>, sym: seq<nat>, lens: seq<nat>)
    requires Names(freqs, sym) && |sym| < 2 && |lens| == |freqs|
    requires forall k | 0 <= k < |freqs| && freqs[k] > 0 :: lens[k] == 1
    ensures Optimal(freqs, lens)
  {
    forall l: seq<nat>, m: nat | CodeFor(freqs, l, m)
      ensures Cost(freqs, lens) <= Cost(freqs, l)
    {
      assert forall k | 0 <= k < |freqs| :: Weighted(freqs, lens)[k] <= Weighted(freqs, l)[k] by {
        forall k | 0 <= k < |freqs|
          ensures freqs[k] * lens[k] <= freqs[k] * l[k]
        {
          if freqs[k] > 0 {
            MulStep(1, l[k], freqs[k]);
          }
        }
      }
      SumOrder(Weighted(freqs, lens), Weighted(freqs, l));
    }
  }

  /** Fewer than two leaves make no tree. */
  lemma NoHeight(freqs: seq<nat>, sym: seq<nat>)
    requires Names(freqs, sym) && |sym| < 2
    ensures TreeHeight(freqs) == 0
  {
    hide Height, Occurring;
    OccurringIs(freqs, sym);
    var q := Leaves(Occurring(freqs));
    if |sym| == 1 {
      assert q == [q[0]];
      OneLeft(q[0]);
    } else {
      EmptyHeight(q);
    }
  }

  lemma EmptyHeight(q: seq<Root>)
    ensures q == [] ==> Height(q) == 0
  {
  }

  /** The symbols are listed by weight, and the lengths of their codes are counted. */
  ghost predicate Prepared(freqs: seq<nat>, sym: seq<nat>, c: seq<nat>, maxLen: nat, depths: seq<nat>) {
    Names(freqs, sym) && Sorted(Picked(freqs, sym)) && Counted(c, Picked(freqs, sym), maxLen, depths)
  }

  ghost predicate CodesDone(freqs: seq<word>, lens: seq<word>, codes: seq<word>, maxLen: nat) {
    |freqs| <= |lens| && |freqs| <= |codes| && Coded(lens[..|freqs|], codes[..|freqs|], maxLen) &&
    (forall k | 0 <= k < |freqs| :: freqs[k] > 0 <==> lens[k] > 0) && BestIfShallow(freqs, lens[..|freqs|], maxLen)
  }

  /** From the counts to the lengths and the codes. */
  method FromCounts(freqs: array<word>, p: array<word>, lens: array<word>, lenCounters: array<nat>, num: nat, maxLen: nat,
                    ghost sym: seq<nat>, ghost depths: seq<nat>)
    requires freqs != p && freqs != lens && p != lens && num <= p.Length && freqs.Length <= p.Length && freqs.Length <= lens.Length
    requires sym == Syms(p[..num]) && maxLen <= MAX_LEN && Prepared(freqs[..], sym, lenCounters[..], maxLen, depths)
    requires forall k | 0 <= k < freqs.Length && freqs[k] == 0 :: lens[k] == 0
    modifies p, lens
    ensures CodesDone(freqs[..], lens[..], p[..], maxLen)
  {
    hide Spread, Full, Huff, Sum, Pow2, BestIfShallow, Sym, CodedShares, CountsOf, CodeOf;
    ghost var fs, c, before := freqs[..], lenCounters[..], lens[..];
    AssignLengths(p, lens, lenCounters, num, maxLen);
    ghost var l := lens[..freqs.Length];
    GivenLengths(fs, lens[..], before, sym, c, maxLen, num);
    FromTheTree(fs, sym, l, c, maxLen, depths);
    AssignCodes(p, lens, lenCounters, freqs.Length, num, maxLen);
    CodesAreApart(c, l, p[..freqs.Length]);
  }

  lemma GivenLengths(freqs: seq<word>, s: seq<word>, before: seq<word>, sym: seq<nat>, c: seq<nat>, maxLen: nat, num: nat)
    requires Full(c, num, maxLen) && Names(freqs, sym) && |freqs| <= |s| && num == |sym|
    requires Given(s, before, sym, Spread(c, 1), num) && forall k | 0 <= k < |freqs| && freqs[k] == 0 :: before[k] == 0
    ensures LengthsOf(s[..|freqs|], sym, Spread(c, 1)) && forall k | 0 <= k < |freqs| :: freqs[k] > 0 <==> s[k] > 0
  {
    hide Full, Spread;
    SpreadSums(c, num, maxLen);
    NewLengths(freqs, s, before, sym, Spread(c, 1));
  }

  lemma NewLengths(freqs: seq<word>, s: seq<word>, before: seq<word>, sym: seq<nat>, sp: seq<nat>)
    requires Names(freqs, sym) && |freqs| <= |s| && |sp| == |sym| && forall j | 0 <= j < |sp| :: sp[j] > 0
    requires Given(s, before, sym, sp, |sp|) && forall k | 0 <= k < |freqs| && freqs[k] == 0 :: before[k] == 0
    ensures LengthsOf(s[..|freqs|], sym, sp) && forall k | 0 <= k < |freqs| :: freqs[k] > 0 <==> s[k] > 0
  {
    forall k | 0 <= k < |freqs|
      ensures k in sym ==> s[k] > 0
      ensures k !in sym ==> s[k] == 0
    {
      if k in sym {
        var j :| 0 <= j < |sym| && sym[j] == k;
        assert s[sym[j]] == sp[j];
      }
    }
  }

  lemma WholeSyms(s: seq<word>, s0: seq<word>)
    requires |s| == |s0| && forall j | 0 <= j < |s| :: Sym(s[j]) == Sym(s0[j])
    ensures Syms(s) == Syms(s0)
  {
  }

  /** Lengths and codes of a prefix code for the symbols that occur. */
  method Generate(freqs: array<word>, p: array<word>, lens: array<word>, maxLen: nat)
    requires freqs != p && freqs != lens && p != lens && Acceptable(freqs[..], maxLen)
    requires AtLeastTwo(freqs.Length) <= p.Length && AtLeastTwo(freqs.Length) <= lens.Length
    modifies p, lens
    ensures Generated(freqs[..], lens[..], p[..], maxLen)
  {
    hide Sum, Used, Listed, Optimal, TreeHeight, Occurring, Coded, Packable, Sym, Cost, Pow2, ByWeight, Generated;
    ghost var fs := freqs[..];
    AllPackable(fs);
    var num := ListSymbols(freqs, p, lens);
    ghost var s0 := p[..num];
    ListedNames(fs, s0);
    ListedUsed(fs, Syms(s0));
    if num < 2 {
      FewNames(fs, Syms(s0));
      TwoCodes(p, lens, num, fs);
      FewGenerated(fs, Syms(s0), lens[..], p[..], maxLen);
    } else {
      SortedHighs(s0);
      ManyCodes(freqs, p, lens, num, maxLen, fs);
    }
  }

  lemma FewGenerated(freqs: seq<word>, sym: seq<nat>, lens: seq<word>, codes: seq<word>, maxLen: nat)
    requires Names(freqs, sym) && Used(freqs) == |sym| < 2 && 1 <= maxLen <= MAX_LEN
    requires var n := AtLeastTwo(|freqs|); n <= |lens| && n <= |codes| && Coded(lens[..n], codes[..n], 1)
    requires forall k | 0 <= k < |freqs| && freqs[k] > 0 :: lens[k] == 1
    ensures Generated(freqs, lens, codes, maxLen)
  {
    hide Coded, Optimal, Used, TreeHeight, Occurring;
    LaxerCode(lens[..AtLeastTwo(|freqs|)], codes[..AtLeastTwo(|freqs|)], maxLen);
    FewOptimal(freqs, sym, lens[..|freqs|]);
    NoHeight(freqs, sym);
  }

  /** Two symbols or more. */
  method ManyCodes(freqs: array<word>, p: array<word>, lens: array<word>, num: nat, maxLen: nat, ghost fs: seq<word>)
    requires freqs != p && freqs != lens && p != lens && Acceptable(fs, maxLen) && fs == freqs[..] && 2 <= num <= |fs|
    requires |fs| <= p.Length && |fs| <= lens.Length && Names(fs, Syms(p[..num])) && num == Used(fs) && Picked(fs, Syms(p[..num])) == Highs(p[..num])
    requires ByWeight(p[..num]) && forall k | 0 <= k < |fs| && fs[k] == 0 :: lens[k] == 0
    modifies p, lens
    ensures Generated(fs, lens[..], p[..], maxLen)
  {
    hide Sum, Used, Optimal, TreeHeight, Occurring, Coded, Sym, Cost, Pow2, ByWeight, Generated;
    ghost var s0 := p[..num];
    SortedHighs(s0);
    ListedUsed(fs, Syms(s0));
    ghost var t := BuildTree(p, num);
    var lenCounters;
    ghost var depths, nd;
    lenCounters, depths, nd := CountLengths(p, num, maxLen, s0, t);
    WholeSyms(p[..num], s0);
    FromCounts(freqs, p, lens, lenCounters, num, maxLen, Syms(s0), depths);
    ManyGenerated(fs, lens[..], p[..], maxLen);
  }

  lemma ManyGenerated(freqs: seq<word>, lens: seq<word>, codes: seq<word>, maxLen: nat)
    requires 2 <= |freqs| && Used(freqs) >= 2 && CodesDone(freqs, lens, codes, maxLen)
    ensures Generated(freqs, lens, codes, maxLen)
  {
  }
}
