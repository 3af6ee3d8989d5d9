/** The first phase of Huffman_Generate: the used symbols listed by weight, light ones by counting,
    heavy ones by heap sort. */
module HuffmanList {
  import opened Sort

  const NUM_COUNTERS := 64
  const MASKED := 1024     // 1 << NUM_BITS

  /** The low and the high part of a packed number. */
  function Sym(v: word): (r: nat)
    ensures r < MASKED
  {
    v % MASKED
  }

  function High(v: word): nat {
    v / MASKED
  }

  function Pack(sym: nat, high: nat): (v: word)
    requires sym < MASKED && high < 0x40_0000
    ensures Sym(v) == sym && High(v) == high
  {
    sym + MASKED * high
  }

  ghost predicate Packable(freqs: seq<word>) {
    |freqs| <= MASKED && forall k | 0 <= k < |freqs| :: freqs[k] < 0x40_0000
  }

  function Bucket(freq: word): nat {
    if freq < NUM_COUNTERS - 1 then freq else NUM_COUNTERS - 1
  }

  /** The packed symbols below n in bucket c, in their order. */
  function InBucket(freqs: seq<word>, n: nat, c: nat): (r: seq<word>)
    requires Packable(freqs) && n <= |freqs|
    ensures |r| <= n && forall j | 0 <= j < |r| :: Bucket(High(r[j])) == c
  {
    if n == 0 then []
    else
      InBucket(freqs, n - 1, c) + if Bucket(freqs[n - 1]) == c then [Pack(n - 1, freqs[n - 1])] else []
  }

  lemma {:induction false} BucketGrows(freqs: seq<word>, n: nat, m: nat, c: nat)
    requires Packable(freqs) && n <= m <= |freqs|
    ensures |InBucket(freqs, n, c)| <= |InBucket(freqs, m, c)|
    ensures n < m && Bucket(freqs[n]) == c ==> |InBucket(freqs, n, c)| < |InBucket(freqs, m, c)|
    decreases m - n
  {
    if n < m {
      BucketGrows(freqs, n + 1, m, c);
    }
  }

  /** All buckets below c, the unused symbols left out. */
  function Buckets(freqs: seq<word>, n: nat, c: nat): (r: seq<word>)
    requires Packable(freqs) && n <= |freqs|
  {
    if c <= 1 then [] else Buckets(freqs, n, c - 1) + InBucket(freqs, n, c - 1)
  }

  function Start(freqs: seq<word>, c: nat): nat
    requires Packable(freqs)
  {
    |Buckets(freqs, |freqs|, c)|
  }

  lemma {:induction false} StartGrows(freqs: seq<word>, c: nat, d: nat)
    requires Packable(freqs) && 1 <= c <= d
    ensures Buckets(freqs, |freqs|, c) <= Buckets(freqs, |freqs|, d) && Start(freqs, c) <= Start(freqs, d)
    decreases d
  {
    hide InBucket;
    if c < d {
      StartGrows(freqs, c, d - 1);
    }
  }

  lemma {:induction false} EmptyBuckets(freqs: seq<word>, c: nat)
    requires Packable(freqs)
    ensures Buckets(freqs, 0, c) == []
  {
    if c > 1 {
      EmptyBuckets(freqs, c - 1);
    }
  }

  /** One more symbol is one more item, if it is used. */
  lemma {:induction false} OneMoreSymbol(freqs: seq<word>, n: nat, c: nat)
    requires Packable(freqs) && n < |freqs|
    ensures multiset(Buckets(freqs, n + 1, c)) ==
      multiset(Buckets(freqs, n, c)) + (if 0 < Bucket(freqs[n]) < c then multiset{Pack(n, freqs[n])} else multiset{})
    decreases c
  {
    if c > 1 {
      OneMoreSymbol(freqs, n, c - 1);
    }
  }

  // ---------- What the list is ----------

  function Item(freqs: seq<word>, k: nat): word
    requires Packable(freqs) && k < |freqs|
  {
    Pack(k, freqs[k])
  }

  /** Every used symbol once. */
  ghost predicate Listed(freqs: seq<word>, n: nat, s: seq<word>)
    requires Packable(freqs) && n <= |freqs|
  {
    (forall j | 0 <= j < |s| :: Sym(s[j]) < n && freqs[Sym(s[j])] == High(s[j]) > 0) &&
    (forall i, j | 0 <= i < j < |s| :: Sym(s[i]) != Sym(s[j])) &&
    (forall k | 0 <= k < n && freqs[k] > 0 :: Item(freqs, k) in s)
  }

  /** The same as a property of the multiset alone. */
  ghost predicate Bag(freqs: seq<word>, n: nat, m: multiset<word>)
    requires Packable(freqs) && n <= |freqs|
  {
    (forall v | v in m :: m[v] == 1 && Sym(v) < n && freqs[Sym(v)] == High(v) > 0) &&
    forall k | 0 <= k < n && freqs[k] > 0 :: Item(freqs, k) in m
  }

  lemma {:induction false} BucketsBag(freqs: seq<word>, n: nat, c: nat)
    requires Packable(freqs) && n <= |freqs| && c >= NUM_COUNTERS
    ensures Bag(freqs, n, multiset(Buckets(freqs, n, c)))
    decreases n
  {
    hide Bag, Buckets;
    if n == 0 {
      EmptyBuckets(freqs, c);
      EmptyBag(freqs);
    } else {
      BucketsBag(freqs, n - 1, c);
      OneMoreSymbol(freqs, n - 1, c);
      BagGrows(freqs, n - 1, multiset(Buckets(freqs, n - 1, c)), multiset(Buckets(freqs, n, c)), c);
    }
  }

  lemma EmptyBag(freqs: seq<word>)
    requires Packable(freqs)
    ensures Bag(freqs, 0, multiset([]))
  {
  }

  lemma BagGrows(freqs: seq<word>, n: nat, m: multiset<word>, m': multiset<word>, c: nat)
    requires Packable(freqs) && n < |freqs| && Bag(freqs, n, m) && c >= NUM_COUNTERS
    requires m' == m + if 0 < Bucket(freqs[n]) < c then multiset{Pack(n, freqs[n])} else multiset{}
    ensures Bag(freqs, n + 1, m')
  {
    assert Sym(Item(freqs, n)) == n;
    assert Item(freqs, n) !in m;
  }

  lemma BagListed(freqs: seq<word>, s: seq<word>)
    requires Packable(freqs) && Bag(freqs, |freqs|, multiset(s))
    ensures Listed(freqs, |freqs|, s)
  {
    hide Sym, High, Pack;
    forall j | 0 <= j < |s|
      ensures Sym(s[j]) < |freqs| && freqs[Sym(s[j])] == High(s[j]) > 0
    {
      assert s[j] in multiset(s);
    }
    forall i, j | 0 <= i < j < |s|
      ensures Sym(s[i]) != Sym(s[j])
    {
      assert s[i] in multiset(s) && s[j] in multiset(s);
      OnlyOnce(s, i, j);
      SameParts(s[i], s[j]);
    }
  }

  lemma SameParts(u: word, v: word)
    ensures Sym(u) == Sym(v) && High(u) == High(v) ==> u == v
  {
  }

  lemma OnlyOnce(s: seq<word>, i: nat, j: nat)
    requires i < j < |s| && multiset(s)[s[i]] == 1
    ensures s[i] != s[j]
  {
    if s[i] == s[j] {
      Twice(s, i, j);
    }
  }

  lemma Twice(s: seq<word>, i: nat, j: nat)
    requires i < j < |s| && s[i] == s[j]
    ensures multiset(s)[s[i]] >= 2
  {
    assert s == s[..j] + s[j..];
    assert s[i] in s[..j] && s[i] in s[j..];
    assert multiset(s) == multiset(s[..j]) + multiset(s[j..]);
  }

  ghost predicate ByWeight(s: seq<word>) {
    forall i, j | 0 <= i < j < |s| :: High(s[i]) <= High(s[j])
  }

  lemma {:induction false} BucketsByWeight(freqs: seq<word>, n: nat, c: nat)
    requires Packable(freqs) && n <= |freqs| && c <= NUM_COUNTERS - 1
    ensures ByWeight(Buckets(freqs, n, c)) && forall v | v in Buckets(freqs, n, c) :: High(v) < c
  {
    if c > 1 {
      BucketsByWeight(freqs, n, c - 1);
    }
  }

  // ---------- In place ----------

  lemma Room(freqs: seq<word>, i: nat, c: nat)
    requires Packable(freqs) && i <= |freqs| && 1 <= c
    ensures Start(freqs, c) + |InBucket(freqs, i, c)| <= Start(freqs, c + 1)
    ensures i < |freqs| && Bucket(freqs[i]) == c ==> Start(freqs, c) + |InBucket(freqs, i, c)| < Start(freqs, c + 1)
  {
    BucketGrows(freqs, i, |freqs|, c);
  }

  /** Bucket c, as far as its symbols below i were placed. */
  ghost predicate BucketPlaced(freqs: seq<word>, i: nat, s: seq<word>, end: nat, c: nat)
    requires Packable(freqs) && i <= |freqs| && 1 <= c
  {
    end == Start(freqs, c) + |InBucket(freqs, i, c)| && end <= |s| && s[Start(freqs, c)..end] == InBucket(freqs, i, c)
  }

  ghost predicate Placed(freqs: seq<word>, i: nat, s: seq<word>, ends: seq<word>)
    requires Packable(freqs) && i <= |freqs|
  {
    |ends| == NUM_COUNTERS && Start(freqs, NUM_COUNTERS) <= |s| &&
    forall c | 1 <= c < NUM_COUNTERS :: BucketPlaced(freqs, i, s, ends[c], c)
  }

  lemma PlacedOne(freqs: seq<word>, i: nat, s: seq<word>, ends: seq<word>)
    requires Packable(freqs) && i < |freqs| && freqs[i] > 0 && Placed(freqs, i, s, ends)
    ensures var c := Bucket(freqs[i]);
      ends[c] < Start(freqs, NUM_COUNTERS) &&
      (ends[c] < 0xFFFF_FFFF ==> Placed(freqs, i + 1, s[ends[c] := Item(freqs, i)], ends[c := ends[c] + 1]))
  {
    hide Buckets, InBucket, Pack, Start;
    var c := Bucket(freqs[i]);
    assert BucketPlaced(freqs, i, s, ends[c], c);
    OwnBucket(freqs, i, s, ends[c], c);
    var s' := s[ends[c] := Item(freqs, i)];
    forall d | 1 <= d < NUM_COUNTERS && d != c
      ensures BucketPlaced(freqs, i + 1, s', ends[d], d)
    {
      assert BucketPlaced(freqs, i, s, ends[d], d);
      OtherBucket(freqs, i, s, ends[c], ends[d], c, d);
    }
  }

  lemma OwnBucket(freqs: seq<word>, i: nat, s: seq<word>, end: nat, c: nat)
    requires Packable(freqs) && i < |freqs| && c == Bucket(freqs[i]) && 1 <= c
    requires Start(freqs, NUM_COUNTERS) <= |s| && BucketPlaced(freqs, i, s, end, c)
    ensures end < Start(freqs, c + 1) && end < Start(freqs, NUM_COUNTERS)
    ensures BucketPlaced(freqs, i + 1, s[end := Item(freqs, i)], end + 1, c)
  {
    hide Buckets, Pack, Start;
    Room(freqs, i, c);
    StartGrows(freqs, c + 1, NUM_COUNTERS);
    assert s[end := Item(freqs, i)][Start(freqs, c)..end + 1] == s[Start(freqs, c)..end] + [Item(freqs, i)];
  }

  lemma OtherBucket(freqs: seq<word>, i: nat, s: seq<word>, end: nat, other: nat, c: nat, d: nat)
    requires Packable(freqs) && i < |freqs| && c == Bucket(freqs[i]) && 1 <= c && 1 <= d && d != c
    requires BucketPlaced(freqs, i, s, end, c) && BucketPlaced(freqs, i, s, other, d) && end < |s|
    requires end < Start(freqs, c + 1)
    ensures BucketPlaced(freqs, i + 1, s[end := Item(freqs, i)], other, d)
  {
    hide Buckets, Pack, Start;
    Room(freqs, i, d);
    if d < c {
      StartGrows(freqs, d + 1, c);
    } else {
      StartGrows(freqs, c + 1, d);
    }
    assert s[end := Item(freqs, i)][Start(freqs, d)..other] == s[Start(freqs, d)..other];
  }

  lemma {:induction false} AllPlaced(freqs: seq<word>, s: seq<word>, ends: seq<word>, c: nat)
    requires Packable(freqs) && Placed(freqs, |freqs|, s, ends) && 1 <= c <= NUM_COUNTERS
    ensures Start(freqs, c) <= |s| && s[..Start(freqs, c)] == Buckets(freqs, |freqs|, c)
    decreases c
  {
    StartGrows(freqs, c, NUM_COUNTERS);
    if c > 1 {
      AllPlaced(freqs, s, ends, c - 1);
      assert BucketPlaced(freqs, |freqs|, s, ends[c - 1], c - 1);
      assert s[..Start(freqs, c)] == s[..Start(freqs, c - 1)] + s[Start(freqs, c - 1)..Start(freqs, c)];
    }
  }

  lemma NoBuckets(freqs: seq<word>)
    requires Packable(freqs)
    ensures Buckets(freqs, |freqs|, 1) == []
  {
  }

  lemma LastBucket(freqs: seq<word>, c: nat)
    requires Packable(freqs) && 1 <= c
    ensures Buckets(freqs, |freqs|, c + 1) == Buckets(freqs, |freqs|, c) + InBucket(freqs, |freqs|, c)
  {
  }

  method CountSymbols(freqs: array<word>) returns (counters: array<word>)
    requires Packable(freqs[..])
    ensures fresh(counters) && counters.Length == NUM_COUNTERS
    ensures forall c | 0 <= c < NUM_COUNTERS :: counters[c] == |InBucket(freqs[..], freqs.Length, c)|
  {
    counters := new word[NUM_COUNTERS](_ => 0);
    for i := 0 to freqs.Length
      invariant forall c | 0 <= c < NUM_COUNTERS :: counters[c] == |InBucket(freqs[..], i, c)|
    {
      var c := Bucket(freqs[i]);
      counters[c] := counters[c] + 1;
    }
  }

  method StartPlaces(freqs: array<word>, counters: array<word>) returns (num: word)
    requires Packable(freqs[..]) && counters.Length == NUM_COUNTERS && freqs != counters
    requires forall c | 0 <= c < NUM_COUNTERS :: counters[c] == |InBucket(freqs[..], freqs.Length, c)|
    modifies counters
    ensures forall c | 1 <= c < NUM_COUNTERS :: counters[c] == Start(freqs[..], c)
    ensures num == Start(freqs[..], NUM_COUNTERS) <= freqs.Length
  {
    hide Buckets, InBucket;
    num := 0;
    var i := 1;
    NoBuckets(freqs[..]);
    while i < NUM_COUNTERS
      invariant 1 <= i <= NUM_COUNTERS && num == Start(freqs[..], i) <= freqs.Length
      invariant forall c | 1 <= c < i :: counters[c] == Start(freqs[..], c)
      invariant forall c | i <= c < NUM_COUNTERS :: counters[c] == |InBucket(freqs[..], freqs.Length, c)|
    {
      AtMostAll(freqs[..], freqs.Length, i + 1);
      LastBucket(freqs[..], i);
      var temp := counters[i];
      counters[i] := num;
      num := num + temp;
      i := i + 1;
    }
  }

  lemma {:induction false} AtMostAll(freqs: seq<word>, n: nat, c: nat)
    requires Packable(freqs) && n <= |freqs|
    ensures |Buckets(freqs, n, c)| <= n
    decreases n
  {
    hide Buckets, Bucket, Pack;
    if n == 0 {
      EmptyBuckets(freqs, c);
    } else {
      AtMostAll(freqs, n - 1, c);
      OneMoreSymbol(freqs, n - 1, c);
      OneLonger(Buckets(freqs, n, c), Buckets(freqs, n - 1, c), Item(freqs, n - 1));
    }
  }

  lemma OneLonger(s: seq<word>, t: seq<word>, v: word)
    requires multiset(s) == multiset(t) + multiset{v} || multiset(s) == multiset(t)
    ensures |s| <= |t| + 1
  {
    assert |multiset(s)| == |s| && |multiset(t)| == |t|;
  }

  /** The used symbols go to their buckets, the others get length 0. */
  method PlaceSymbols(freqs: array<word>, p: array<word>, lens: array<word>, counters: array<word>)
    requires Packable(freqs[..]) && counters.Length == NUM_COUNTERS && freqs.Length <= p.Length && freqs.Length <= lens.Length
    requires freqs != p && freqs != lens && freqs != counters && p != lens && p != counters && lens != counters
    requires forall c | 1 <= c < NUM_COUNTERS :: counters[c] == Start(freqs[..], c)
    requires Start(freqs[..], NUM_COUNTERS) <= freqs.Length
    modifies p, lens, counters
    ensures Placed(freqs[..], freqs.Length, p[..], counters[..])
    ensures forall k | 0 <= k < freqs.Length && freqs[k] == 0 :: lens[k] == 0
  {
    hide Buckets, InBucket, Pack, Start, Placed;
    NothingPlaced(freqs[..], p[..], counters[..]);
    for i := 0 to freqs.Length
      invariant Placed(freqs[..], i, p[..], counters[..])
      invariant forall k | 0 <= k < i && freqs[k] == 0 :: lens[k] == 0
    {
      var freq := freqs[i];
      if freq == 0 {
        lens[i] := 0;
        UnusedOne(freqs[..], i, p[..], counters[..]);
      } else {
        var c := Bucket(freq);
        PlacedOne(freqs[..], i, p[..], counters[..]);
        p[counters[c]] := Pack(i, freq);
        counters[c] := counters[c] + 1;
      }
    }
  }

  lemma NothingPlaced(freqs: seq<word>, s: seq<word>, ends: seq<word>)
    requires Packable(freqs) && |ends| == NUM_COUNTERS && Start(freqs, NUM_COUNTERS) <= |s|
    requires forall c | 1 <= c < NUM_COUNTERS :: ends[c] == Start(freqs, c)
    ensures Placed(freqs, 0, s, ends)
  {
    forall c | 1 <= c < NUM_COUNTERS
      ensures BucketPlaced(freqs, 0, s, ends[c], c)
    {
      StartGrows(freqs, c, NUM_COUNTERS);
    }
  }

  lemma UnusedOne(freqs: seq<word>, i: nat, s: seq<word>, ends: seq<word>)
    requires Packable(freqs) && i < |freqs| && freqs[i] == 0 && Placed(freqs, i, s, ends)
    ensures Placed(freqs, i + 1, s, ends)
  {
    forall c | 1 <= c < NUM_COUNTERS
      ensures BucketPlaced(freqs, i + 1, s, ends[c], c)
    {
      assert BucketPlaced(freqs, i, s, ends[c], c);
    }
  }

  /** The used symbols, lightest first. */
  method ListSymbols(freqs: array<word>, p: array<word>, lens: array<word>) returns (num: word)
    requires Packable(freqs[..]) && freqs.Length <= p.Length && freqs.Length <= lens.Length
    requires freqs != p && freqs != lens && p != lens
    modifies p, lens
    ensures num <= freqs.Length && Listed(freqs[..], freqs.Length, p[..num]) && ByWeight(p[..num])
    ensures forall k | 0 <= k < freqs.Length && freqs[k] == 0 :: lens[k] == 0
  {
    hide Buckets, InBucket, Pack, Start, Placed, Listed, ByWeight;
    var counters := CountSymbols(freqs);
    num := StartPlaces(freqs, counters);
    PlaceSymbols(freqs, p, lens, counters);
    ghost var fs, placed := freqs[..], p[..];
    HeavyBucket(fs, placed, counters[..]);
    HeapSort(p, counters[NUM_COUNTERS - 2], counters[NUM_COUNTERS - 1] - counters[NUM_COUNTERS - 2]);
    HeavySorted(fs, placed, p[..]);
  }

  lemma HeavyBucket(freqs: seq<word>, s: seq<word>, ends: seq<word>)
    requires Packable(freqs) && Placed(freqs, |freqs|, s, ends)
    ensures ends[NUM_COUNTERS - 2] == Start(freqs, NUM_COUNTERS - 1)
    ensures ends[NUM_COUNTERS - 1] == Start(freqs, NUM_COUNTERS)
    ensures Start(freqs, NUM_COUNTERS - 1) <= Start(freqs, NUM_COUNTERS) <= |s|
    ensures s[..Start(freqs, NUM_COUNTERS)] == Buckets(freqs, |freqs|, NUM_COUNTERS)
  {
    assert BucketPlaced(freqs, |freqs|, s, ends[NUM_COUNTERS - 2], NUM_COUNTERS - 2);
    assert BucketPlaced(freqs, |freqs|, s, ends[NUM_COUNTERS - 1], NUM_COUNTERS - 1);
    AllPlaced(freqs, s, ends, NUM_COUNTERS);
  }

  lemma HeavySorted(freqs: seq<word>, s: seq<word>, t: seq<word>)
    requires Packable(freqs) && Start(freqs, NUM_COUNTERS - 1) <= Start(freqs, NUM_COUNTERS) <= |s| == |t|
    requires s[..Start(freqs, NUM_COUNTERS)] == Buckets(freqs, |freqs|, NUM_COUNTERS)
    requires var a, b := Start(freqs, NUM_COUNTERS - 1), Start(freqs, NUM_COUNTERS);
      s[..a] == t[..a] && Ordered(t[a..b]) && multiset(t[a..b]) == multiset(s[a..b])
    ensures Listed(freqs, |freqs|, t[..Start(freqs, NUM_COUNTERS)]) && ByWeight(t[..Start(freqs, NUM_COUNTERS)])
  {
    hide Buckets, InBucket, Pack, Listed, Bag;
    var a, b := Start(freqs, NUM_COUNTERS - 1), Start(freqs, NUM_COUNTERS);
    assert s[..b] == s[..a] + s[a..b] && t[..b] == t[..a] + t[a..b];
    assert multiset(t[..b]) == multiset(s[..b]);
    BucketsBag(freqs, |freqs|, NUM_COUNTERS);
    BagListed(freqs, t[..b]);
    LastBucket(freqs, NUM_COUNTERS - 1);
    BucketsByWeight(freqs, |freqs|, NUM_COUNTERS - 1);
    assert s[..a] == Buckets(freqs, |freqs|, NUM_COUNTERS - 1) && s[a..b] == InBucket(freqs, |freqs|, NUM_COUNTERS - 1);
    HeavyBehind(t[..a], t[a..b], s[a..b]);
  }

  lemma HeavyBehind(light: seq<word>, heavy: seq<word>, before: seq<word>)
    requires ByWeight(light) && forall v | v in light :: High(v) < NUM_COUNTERS - 1
    requires Ordered(heavy) && multiset(heavy) == multiset(before)
    requires forall j | 0 <= j < |before| :: Bucket(High(before[j])) == NUM_COUNTERS - 1
    ensures ByWeight(light + heavy)
  {
    forall j | 0 <= j < |heavy|
      ensures High(heavy[j]) >= NUM_COUNTERS - 1
    {
      assert heavy[j] in multiset(before);
    }
    forall i, j | 0 <= i < j < |light + heavy|
      ensures High((light + heavy)[i]) <= High((light + heavy)[j])
    {
      if i < |light| {
        assert light[i] in light;
      }
    }
  }
}
