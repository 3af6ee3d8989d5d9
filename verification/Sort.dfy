/** The heap sort of 7-Zip: a hole moves down the heap until the value taken out fits into it. */
module Sort {

  type word = x: int | 0 <= x < 0x1_0000_0000

  // ---------- Heaps ----------

  /** Element j, counted from 1. */
  function E(a: seq<word>, j: nat): word
    requires 1 <= j <= |a|
  {
    a[j - 1]
  }

  function Put(a: seq<word>, j: nat, v: word): (r: seq<word>)
    requires 1 <= j <= |a|
    ensures |r| == |a| && forall i | 1 <= i <= |a| :: E(r, i) == if i == j then v else E(a, i)
  {
    a[j - 1 := v]
  }

  /** Elements from number from on, of the first size, are not below their children. */
  ghost predicate Heap(a: seq<word>, size: nat, from: nat) {
    size <= |a| && forall j | 2 <= j <= size && from <= j / 2 :: E(a, j / 2) >= E(a, j)
  }

  ghost predicate Below(a: seq<word>, size: nat, top: word) {
    size <= |a| && forall j | 1 <= j <= size :: E(a, j) <= top
  }

  /** The hole is at k: what stands there was moved up, and temp would fit above. */
  ghost predicate Sifting(a: seq<word>, size: nat, from: nat, k: nat, temp: word) {
    1 <= from <= k <= size <= |a| &&
    (forall j | 2 <= j <= size && from <= j / 2 && (j / 2 != k || k != from) :: E(a, j / 2) >= E(a, j)) &&
    (k != from ==> from <= k / 2 && E(a, k) >= temp)
  }

  ghost predicate Fits(a: seq<word>, size: nat, k: nat, temp: word) {
    size <= |a| && forall j | 2 <= j <= size && j / 2 == k :: temp >= E(a, j)
  }

  lemma SiftStep(a: seq<word>, size: nat, from: nat, k: nat, temp: word, s: nat)
    requires Sifting(a, size, from, k, temp) && s / 2 == k && s <= size && temp < E(a, s)
    requires forall j | 2 <= j <= size && j / 2 == k :: E(a, s) >= E(a, j)
    ensures Sifting(Put(a, k, E(a, s)), size, from, s, temp)
    ensures multiset(Put(Put(a, k, E(a, s)), s, temp)) == multiset(Put(a, k, temp))
  {
    MovedHole(a, k - 1, s - 1, temp);
    var b := Put(a, k, E(a, s));
    forall j | 2 <= j <= size && from <= j / 2 && (j / 2 != s || s != from)
      ensures E(b, j / 2) >= E(b, j)
    {
      if j == k {
        assert E(a, k / 2) >= E(a, k) >= E(a, s);
      }
    }
  }

  lemma SiftEnd(a: seq<word>, size: nat, from: nat, k: nat, temp: word)
    requires Sifting(a, size, from, k, temp) && Fits(a, size, k, temp)
    ensures Heap(Put(a, k, temp), size, from)
  {
    var b := Put(a, k, temp);
    forall j | 2 <= j <= size && from <= j / 2
      ensures E(b, j / 2) >= E(b, j)
    {
    }
  }

  lemma MovedHole(s: seq<word>, k: nat, j: nat, temp: word)
    requires k < |s| && j < |s| && k != j
    ensures multiset(s[k := s[j]][j := temp]) == multiset(s[k := temp])
  {
    var b := s[k := temp];
    assert s[k := s[j]][j := temp] == b[k := s[j]][j := temp];
    assert multiset(b[k := s[j]]) == multiset(b) - multiset{temp} + multiset{s[j]};
  }

  // ---------- In place ----------

  /** From lo on, p holds a. */
  ghost predicate Holds(s: seq<word>, lo: nat, a: seq<word>) {
    lo + |a| <= |s| && s[lo..lo + |a|] == a
  }

  ghost predicate SameOutside(s: seq<word>, t: seq<word>, lo: nat, n: nat) {
    |s| == |t| && lo + n <= |s| && s[..lo] == t[..lo] && s[lo + n..] == t[lo + n..]
  }

  lemma HeldAt(s: seq<word>, lo: nat, a: seq<word>, j: nat)
    requires Holds(s, lo, a) && 1 <= j <= |a|
    ensures s[lo + j - 1] == E(a, j)
  {
    assert s[lo..lo + |a|][j - 1] == a[j - 1];
  }

  /** One element is overwritten. */
  method Store(p: array<word>, lo: nat, j: nat, v: word, ghost a: seq<word>)
    requires Holds(p[..], lo, a) && 1 <= j <= |a|
    modifies p
    ensures Holds(p[..], lo, Put(a, j, v)) && SameOutside(p[..], old(p[..]), lo, |a|)
  {
    p[lo + j - 1] := v;
  }

  lemma SiftBounds(a: seq<word>, size: nat, from: nat, k: nat, temp: word)
    requires Sifting(a, size, from, k, temp)
    ensures 1 <= from <= k <= size <= |a|
  {
  }

  lemma BelowWith(a: seq<word>, size: nat, k: nat, v: word, top: word)
    requires 1 <= k <= |a| && Below(a, size, top) && v <= top
    ensures Below(Put(a, k, v), size, top)
  {
  }

  lemma StaysBelow(a: seq<word>, size: nat, k: nat, v: word, s: nat, top: word)
    requires 1 <= k <= |a| && 1 <= s <= size && Below(a, size, top) && v == E(a, s)
    ensures Below(Put(a, k, v), size, top)
  {
  }

  /** HeapSortDown. */
  method SiftDown(p: array<word>, lo: nat, size: nat, k0: nat, temp: word, ghost a0: seq<word>, ghost from: nat, ghost top: word)
    returns (ghost a: seq<word>)
    requires Holds(p[..], lo, a0) && Sifting(a0, size, from, k0, temp) && Below(a0, size, top) && temp <= top
    modifies p
    ensures Holds(p[..], lo, a) && SameOutside(p[..], old(p[..]), lo, |a0|) && |a| == |a0|
    ensures Heap(a, size, from) && Below(a, size, top)
    ensures multiset(a) == multiset(Put(a0, k0, temp))
    ensures forall j | 1 <= j <= |a| && (j < from || size < j) :: E(a, j) == E(a0, j)
  {
    hide Sifting, Heap, Below, Put;
    SiftBounds(a0, size, from, k0, temp);
    var k := k0;
    a := a0;
    while 2 * k <= size
      invariant 1 <= k <= size <= |a|
      invariant Holds(p[..], lo, a) && SameOutside(p[..], old(p[..]), lo, |a0|) && |a| == |a0|
      invariant Sifting(a, size, from, k, temp) && Below(a, size, top)
      invariant multiset(Put(a, k, temp)) == multiset(Put(a0, k0, temp))
      invariant forall j | 1 <= j <= |a| && (j < from || size < j) :: E(a, j) == E(a0, j)
      decreases size - k
    {
      var s := LargerChild(p, lo, size, k, a);
      HeldAt(p[..], lo, a, s);
      if temp >= p[lo + s - 1] {
        break;
      }
      SiftStep(a, size, from, k, temp, s);
      StaysBelow(a, size, k, E(a, s), s, top);
      Store(p, lo, k, p[lo + s - 1], a);
      a := Put(a, k, E(a, s));
      k := s;
    }
    SiftEnd(a, size, from, k, temp);
    BelowWith(a, size, k, temp, top);
    Store(p, lo, k, temp, a);
    a := Put(a, k, temp);
  }

  method LargerChild(p: array<word>, lo: nat, size: nat, k: nat, ghost a: seq<word>) returns (s: nat)
    requires Holds(p[..], lo, a) && size <= |a| && 1 <= k && 2 * k <= size
    ensures s / 2 == k && s <= size && forall j | 2 <= j <= size && j / 2 == k :: E(a, s) >= E(a, j)
  {
    s := 2 * k;
    HeldAt(p[..], lo, a, s);
    if s < size {
      HeldAt(p[..], lo, a, s + 1);
      if p[lo + s] > p[lo + s - 1] {
        s := s + 1;
      }
    }
  }

  // ---------- Sorting ----------

  /** What comes behind the first n elements is in order and not below anything before it. */
  ghost predicate InOrder(a: seq<word>, n: nat) {
    n <= |a| && forall i, j | 1 <= i < j <= |a| && n < j :: E(a, i) <= E(a, j)
  }

  lemma {:induction false} RootIsLargest(a: seq<word>, n: nat, j: nat)
    requires Heap(a, n, 1) && 1 <= j <= n
    ensures E(a, j) <= E(a, 1)
  {
    if j > 1 {
      RootIsLargest(a, n, j / 2);
    }
  }

  /** The largest goes to the end, the larger child of the root into its place. */
  function Taken(a: seq<word>, n: nat, k: nat): (b: seq<word>)
    requires 1 <= k < n <= |a|
    ensures |b| == |a|
  {
    Put(Put(a, n, E(a, 1)), 1, E(a, k))
  }

  lemma TakenIs(a: seq<word>, n: nat, k: nat)
    requires Heap(a, n, 1) && InOrder(a, n) && 3 < n && (k == 2 || k == 3) && E(a, k) >= E(a, 2) && E(a, k) >= E(a, 3)
    ensures var b := Taken(a, n, k);
      Sifting(b, n - 1, 1, k, E(a, n)) && Below(b, n - 1, E(a, k)) && E(a, n) <= E(a, k) && E(b, n) == E(a, 1) &&
      multiset(Put(b, k, E(a, n))) == multiset(a)
  {
    forall j | 1 < j <= n
      ensures E(a, j) <= E(a, k)
    {
      UnderTheRoot(a, n, k, j);
    }
    ThreeMoved(a, n, k);
  }

  /** The hole goes from n to 1, from there to k, and is filled. */
  lemma ThreeMoved(a: seq<word>, n: nat, k: nat)
    requires 1 < k < n <= |a|
    ensures multiset(Put(Taken(a, n, k), k, E(a, n))) == multiset(a)
  {
    MovedHole(a, n - 1, 0, E(a, n));
    MovedHole(a[n - 1 := a[0]], 0, k - 1, E(a, n));
    assert a[n - 1 := a[n - 1]] == a;
  }

  lemma {:induction false} UnderTheRoot(a: seq<word>, n: nat, k: nat, j: nat)
    requires Heap(a, n, 1) && 1 < j <= n && 3 <= n && (k == 2 || k == 3) && E(a, k) >= E(a, 2) && E(a, k) >= E(a, 3)
    ensures E(a, j) <= E(a, k)
  {
    if j > 3 {
      UnderTheRoot(a, n, k, j / 2);
    }
  }

  lemma OneMore(a: seq<word>, n: nat, k: nat, b: seq<word>)
    requires Heap(a, n, 1) && InOrder(a, n) && 3 < n && (k == 2 || k == 3) && |b| == |a| && Below(b, n - 1, E(a, k))
    requires E(b, n) == E(a, 1) && forall j | n < j <= |a| :: E(b, j) == E(a, j)
    ensures InOrder(b, n - 1)
  {
    forall j | 1 <= j <= n
      ensures E(a, j) <= E(a, 1)
    {
      RootIsLargest(a, n, j);
    }
  }

  ghost predicate Ordered(a: seq<word>) {
    forall i, j | 0 <= i < j < |a| :: a[i] <= a[j]
  }

  lemma OrderedAll(a: seq<word>)
    requires InOrder(a, 1) || InOrder(a, 0)
    ensures Ordered(a)
  {
    forall i, j | 0 <= i < j < |a|
      ensures a[i] <= a[j]
    {
      assert E(a, i + 1) <= E(a, j + 1);
    }
  }

  /** The part of p from lo on is put in order; nothing else is touched. */
  method HeapSort(p: array<word>, lo: nat, size: nat)
    requires lo + size <= p.Length
    modifies p
    ensures SameOutside(p[..], old(p[..]), lo, size)
    ensures Ordered(p[lo..lo + size]) && multiset(p[lo..lo + size]) == multiset(old(p[lo..lo + size]))
  {
    if size <= 1 {
      return;
    }
    ghost var a := BuildHeap(p, lo, size);
    a := Shrink(p, lo, size, a);
    OrderedAll(a);
  }

  method BuildHeap(p: array<word>, lo: nat, size: nat) returns (ghost a: seq<word>)
    requires lo + size <= p.Length && 1 < size
    modifies p
    ensures SameOutside(p[..], old(p[..]), lo, size) && Holds(p[..], lo, a) && |a| == size
    ensures Heap(a, size, 1) && multiset(a) == multiset(old(p[lo..lo + size]))
  {
    a := p[lo..lo + size];
    ghost var top: word := 0xFFFF_FFFF;
    var i: nat := size / 2;
    while i != 0
      invariant i <= size / 2 && SameOutside(p[..], old(p[..]), lo, size) && Holds(p[..], lo, a) && |a| == size
      invariant Heap(a, size, i + 1) && multiset(a) == multiset(old(p[lo..lo + size]))
    {
      HeldAt(p[..], lo, a, i);
      assert Put(a, i, E(a, i)) == a;
      a := SiftDown(p, lo, size, i, p[lo + i - 1], a, i, top);
      i := i - 1;
    }
  }

  method Shrink(p: array<word>, lo: nat, size: nat, ghost a0: seq<word>) returns (ghost a: seq<word>)
    requires 1 < size == |a0| && Holds(p[..], lo, a0) && Heap(a0, size, 1)
    modifies p
    ensures SameOutside(p[..], old(p[..]), lo, size) && Holds(p[..], lo, a) && |a| == size
    ensures (InOrder(a, 1) || InOrder(a, 0)) && multiset(a) == multiset(a0)
  {
    a := a0;
    var n := size;
    while n > 3
      invariant 1 < n <= size && SameOutside(p[..], old(p[..]), lo, size) && Holds(p[..], lo, a) && |a| == size
      invariant Heap(a, n, 1) && InOrder(a, n) && multiset(a) == multiset(a0)
    {
      a := TakeLargest(p, lo, n, a);
      n := n - 1;
    }
    a := LastThree(p, lo, n, a);
  }

  lemma SizeOf(a: seq<word>, n: nat)
    requires Heap(a, n, 1)
    ensures n <= |a|
  {
  }

  method TakeLargest(p: array<word>, lo: nat, n: nat, ghost a0: seq<word>) returns (ghost a: seq<word>)
    requires Holds(p[..], lo, a0) && 3 < n && Heap(a0, n, 1) && InOrder(a0, n)
    modifies p
    ensures SameOutside(p[..], old(p[..]), lo, |a0|) && Holds(p[..], lo, a) && |a| == |a0|
    ensures Heap(a, n - 1, 1) && InOrder(a, n - 1) && multiset(a) == multiset(a0)
  {
    hide Heap, InOrder, Below, Sifting, Put;
    SizeOf(a0, n);
    HeldAt(p[..], lo, a0, 1);
    HeldAt(p[..], lo, a0, 2);
    HeldAt(p[..], lo, a0, 3);
    HeldAt(p[..], lo, a0, n);
    var temp := p[lo + n - 1];
    var k := if p[lo + 2] > p[lo + 1] then 3 else 2;
    var first, next := p[lo], p[lo + k - 1];
    Store(p, lo, n, first, a0);
    Store(p, lo, 1, next, Put(a0, n, first));
    TakenIs(a0, n, k);
    ghost var b := Taken(a0, n, k);
    a := SiftDown(p, lo, n - 1, k, temp, b, 1, next);
    OneMore(a0, n, k, a);
  }

  /** Two or three are left. */
  method LastThree(p: array<word>, lo: nat, n: nat, ghost a0: seq<word>) returns (ghost a: seq<word>)
    requires Holds(p[..], lo, a0) && 2 <= n <= 3 && Heap(a0, n, 1) && InOrder(a0, n)
    modifies p
    ensures SameOutside(p[..], old(p[..]), lo, |a0|) && Holds(p[..], lo, a) && |a| == |a0|
    ensures InOrder(a, 1) && multiset(a) == multiset(a0)
  {
    HeldAt(p[..], lo, a0, 1);
    HeldAt(p[..], lo, a0, 2);
    HeldAt(p[..], lo, a0, n);
    var temp, first, second := p[lo + n - 1], p[lo], p[lo + 1];
    Store(p, lo, n, first, a0);
    a := Put(a0, n, first);
    HeldAt(p[..], lo, a, 2);
    if n > 2 && p[lo + 1] < temp {
      Store(p, lo, 1, second, a);
      a := Put(a, 1, second);
      Store(p, lo, 2, temp, a);
      a := Put(a, 2, temp);
      Turned(a0);
    } else {
      Store(p, lo, 1, temp, a);
      a := Put(a, 1, temp);
      Exchanged(a0, n);
    }
  }

  lemma Exchanged(a: seq<word>, n: nat)
    requires 2 <= n <= 3 && Heap(a, n, 1) && InOrder(a, n) && n <= |a| && (n == 3 ==> E(a, 3) <= E(a, 2))
    ensures var b := Put(Put(a, n, E(a, 1)), 1, E(a, n)); InOrder(b, 1) && multiset(b) == multiset(a)
  {
    MovedHole(a, n - 1, 0, E(a, n));
    RootIsLargest(a, n, 2);
    RootIsLargest(a, n, n);
    assert Put(a, n, E(a, n)) == a;
  }

  lemma Turned(a: seq<word>)
    requires 3 <= |a| && Heap(a, 3, 1) && InOrder(a, 3) && E(a, 2) < E(a, 3)
    ensures var b := Put(Taken(a, 3, 2), 2, E(a, 3)); InOrder(b, 1) && multiset(b) == multiset(a)
  {
    ThreeMoved(a, 3, 2);
    RootIsLargest(a, 3, 3);
  }
}
