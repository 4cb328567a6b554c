/** Order-preserving selection and concatenation. */
module Sequences {
  /** The elements of s that satisfy p, in order. */
  function Filter<T>(s: seq<T>, p: T -> bool): (r: seq<T>)
    ensures forall x :: x in r ==> x in s && p(x)
  {
    if s == [] then []
    else
      var init := Filter(s[..|s| - 1], p);
      if p(s[|s| - 1]) then init + [s[|s| - 1]] else init
  }

  lemma FilterSnoc<T>(s: seq<T>, x: T, p: T -> bool)
    ensures Filter(s + [x], p) == if p(x) then Filter(s, p) + [x] else Filter(s, p)
  {
    assert (s + [x])[..|s|] == s;
  }

  lemma {:induction false} FilterAppend<T>(a: seq<T>, b: seq<T>, p: T -> bool)
    ensures Filter(a + b, p) == Filter(a, p) + Filter(b, p)
  {
    if b == [] {
      assert a + b == a;
    } else {
      var n := |b| - 1;
      assert a + b == a + b[..n] + [b[n]];
      FilterAppend(a, b[..n], p);
      FilterSnoc(a + b[..n], b[n], p);
    }
  }

  /** Selecting by q and then by p, where p implies q, is selecting by p. */
  lemma {:induction false} FilterTwice<T>(s: seq<T>, p: T -> bool, q: T -> bool)
    requires forall x :: x in s && p(x) ==> q(x)
    ensures Filter(Filter(s, q), p) == Filter(s, p)
  {
    if s != [] {
      var n := |s| - 1;
      FilterTwice(s[..n], p, q);
      FilterSnoc(Filter(s[..n], q), s[n], p);
    }
  }

  lemma {:induction false} FilterSame<T>(s: seq<T>, p: T -> bool, q: T -> bool)
    requires forall x :: x in s ==> p(x) == q(x)
    ensures Filter(s, p) == Filter(s, q)
  {
    if s != [] {
      FilterSame(s[..|s| - 1], p, q);
    }
  }

  lemma FilterPrefix<T>(a: seq<T>, s: seq<T>, p: T -> bool)
    requires a <= s
    ensures Filter(a, p) <= Filter(s, p)
  {
    assert s == a + s[|a|..];
    FilterAppend(a, s[|a|..], p);
  }

  lemma {:induction false} FilterAll<T>(s: seq<T>, p: T -> bool)
    requires forall x :: x in s ==> p(x)
    ensures Filter(s, p) == s
  {
    if s != [] {
      FilterAll(s[..|s| - 1], p);
      assert s == s[..|s| - 1] + [s[|s| - 1]];
    }
  }

  function Flatten<T>(ss: seq<seq<T>>): seq<T> {
    if ss == [] then [] else Flatten(ss[..|ss| - 1]) + ss[|ss| - 1]
  }

  lemma FlattenSnoc<T>(ss: seq<seq<T>>, s: seq<T>)
    ensures Flatten(ss + [s]) == Flatten(ss) + s
  {
    assert (ss + [s])[..|ss|] == ss;
  }

  /** How many numbers from m up to n, exclusive, satisfy p. */
  ghost function Number(m: nat, n: nat, p: nat -> bool): nat {
    |set i: nat | m <= i < n && p(i)|
  }

  lemma NumberNone(m: nat, p: nat -> bool)
    ensures Number(m, m, p) == 0
  {
    assert (set i: nat | m <= i < m && p(i)) == {};
  }

  lemma NumberNext(m: nat, n: nat, p: nat -> bool)
    requires m <= n
    ensures Number(m, n + 1, p) == Number(m, n, p) + if p(n) then 1 else 0
  {
    var before, after := set i: nat | m <= i < n && p(i), set i: nat | m <= i < n + 1 && p(i);
    assert after == if p(n) then before + {n} else before;
  }
}
