/** Bytes, optional values and big-endian byte strings. */
module Bytes {

  type byte = x: int | 0 <= x < 256

  datatype Option<+T> = None | Some(value: T) {
    predicate IsFailure() {
      None?
    }

    function PropagateFailure<U>(): Option<U>
      requires None?
    {
      None
    }

    function Extract(): T
      requires Some?
    {
      value
    }
  }

  /** 256 to the power n. */
  function Pow256(n: nat): (r: nat)
    ensures r >= 1
  {
    if n == 0 then 1 else 256 * Pow256(n - 1)
  }

  /** The number denoted by a big-endian byte string. */
  function BigEndian(s: seq<byte>): nat {
    if s == [] then 0 else BigEndian(s[..|s| - 1]) * 256 + s[|s| - 1]
  }

  lemma {:induction false} Pow256Sum(m: nat, n: nat)
    ensures Pow256(m + n) == Pow256(m) * Pow256(n)
  {
    if m > 0 {
      Pow256Sum(m - 1, n);
    }
  }

  lemma {:induction false} BigEndianBound(s: seq<byte>)
    ensures BigEndian(s) < Pow256(|s|)
  {
    if s != [] {
      BigEndianBound(s[..|s| - 1]);
    }
  }

  lemma BigEndianSnoc(s: seq<byte>, b: byte)
    ensures BigEndian(s + [b]) == BigEndian(s) * 256 + b
  {
    assert (s + [b])[..|s|] == s;
  }

  lemma {:induction false} BigEndianConcat(s: seq<byte>, t: seq<byte>)
    ensures BigEndian(s + t) == BigEndian(s) * Pow256(|t|) + BigEndian(t)
  {
    if t == [] {
      assert s + t == s;
    } else {
      var u, b := t[..|t| - 1], t[|t| - 1];
      assert s + t == (s + u) + [b];
      BigEndianSnoc(s + u, b);
      BigEndianConcat(s, u);
      NextDigit(BigEndian(s), Pow256(|u|), BigEndian(u), b);
    }
  }

  lemma NextDigit(x: nat, p: nat, y: nat, b: nat)
    ensures (x * p + y) * 256 + b == x * (256 * p) + (y * 256 + b)
  {
  }

  /** The string of n copies of b. */
  function Repeated(b: byte, n: nat): (r: seq<byte>)
    ensures |r| == n
  {
    seq(n, _ => b)
  }

  lemma RepeatedSnoc(b: byte, n: nat)
    ensures Repeated(b, n + 1) == Repeated(b, n) + [b]
  {
  }

  lemma {:induction false} BigEndianOfFFs(n: nat)
    ensures BigEndian(Repeated(0xFF, n)) == Pow256(n) - 1
  {
    if n > 0 {
      BigEndianOfFFs(n - 1);
      RepeatedSnoc(0xFF, n - 1);
      BigEndianSnoc(Repeated(0xFF, n - 1), 0xFF);
    }
  }

  lemma {:induction false} BigEndianOfZeros(n: nat)
    ensures BigEndian(Repeated(0, n)) == 0
  {
    if n > 0 {
      BigEndianOfZeros(n - 1);
      RepeatedSnoc(0, n - 1);
      BigEndianSnoc(Repeated(0, n - 1), 0);
    }
  }
}
