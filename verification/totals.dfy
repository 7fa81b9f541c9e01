/** Sums over sequences and over finite sets. */
module Totals {

  function Total<T>(s: seq<T>, f: T -> nat): nat {
    if s == [] then 0 else Total(s[..|s| - 1], f) + f(s[|s| - 1])
  }

  lemma {:induction false} TotalConcat<T>(a: seq<T>, b: seq<T>, f: T -> nat)
    ensures Total(a + b, f) == Total(a, f) + Total(b, f)
  {
    if b == [] {
      assert a + b == a;
    } else {
      TotalConcat(a, b[..|b| - 1], f);
      assert (a + b)[..|a + b| - 1] == a + b[..|b| - 1];
    }
  }

  function Without<T>(s: seq<T>, i: nat): seq<T>
    requires i < |s|
  {
    s[..i] + s[i + 1..]
  }

  lemma TotalOfOne<T>(x: T, f: T -> nat)
    ensures Total([x], f) == f(x)
  {
    assert [x][..0] == [];
  }

  lemma TotalWithout<T>(s: seq<T>, i: nat, f: T -> nat)
    requires i < |s|
    ensures Total(s, f) == Total(Without(s, i), f) + f(s[i])
  {
    var before, x, after := s[..i], [s[i]], s[i + 1..];
    assert s == before + (x + after);
    TotalConcat(before, x + after, f);
    TotalConcat(x, after, f);
    TotalConcat(before, after, f);
    TotalOfOne(s[i], f);
  }

  lemma MultisetWithout<T>(s: seq<T>, i: nat)
    requires i < |s|
    ensures multiset(Without(s, i)) == multiset(s) - multiset{s[i]}
  {
    assert s == s[..i] + [s[i]] + s[i + 1..];
  }

  /** A total does not depend on the order of the summands. */
  lemma {:induction false} TotalPermuted<T>(a: seq<T>, b: seq<T>, f: T -> nat)
    requires multiset(a) == multiset(b)
    ensures Total(a, f) == Total(b, f)
  {
    if a == [] {
      assert |multiset(b)| == 0;
    } else {
      assert a[0] in multiset(a);
      var i :| 0 <= i < |b| && b[i] == a[0];
      MultisetWithout(a, 0);
      MultisetWithout(b, i);
      TotalPermuted(Without(a, 0), Without(b, i), f);
      TotalWithout(a, 0, f);
      TotalWithout(b, i, f);
    }
  }

  ghost function SumOver<K>(keys: set<K>, f: K -> nat): nat {
    if keys == {} then 0
    else
      var k :| k in keys;
      f(k) + SumOver(keys - {k}, f)
  }

  /** Any element may be split off. */
  lemma {:induction false} SumOverSplit<K>(keys: set<K>, f: K -> nat, x: K)
    requires x in keys
    ensures SumOver(keys, f) == f(x) + SumOver(keys - {x}, f)
  {
    var k :| k in keys && SumOver(keys, f) == f(k) + SumOver(keys - {k}, f);
    if k != x {
      SumOverSplit(keys - {k}, f, x);
      SumOverSplit(keys - {x}, f, k);
      assert keys - {k} - {x} == keys - {x} - {k};
    }
  }

  lemma {:induction false} SumOverSame<K>(keys: set<K>, f: K -> nat, g: K -> nat)
    requires forall k :: k in keys ==> f(k) == g(k)
    ensures SumOver(keys, f) == SumOver(keys, g)
  {
    if keys != {} {
      var k :| k in keys;
      SumOverSplit(keys, f, k);
      SumOverSplit(keys, g, k);
      SumOverSame(keys - {k}, f, g);
    }
  }

  lemma {:induction false} SumOverAtMost<K>(keys: set<K>, f: K -> nat, most: nat)
    requires forall k :: k in keys ==> f(k) <= most
    ensures SumOver(keys, f) <= most * |keys|
  {
    if keys != {} {
      var k :| k in keys;
      SumOverSplit(keys, f, k);
      SumOverAtMost(keys - {k}, f, most);
      OneMore(most, |keys - {k}|);
    }
  }

  lemma OneMore(m: nat, n: nat)
    ensures m * (n + 1) == m * n + m
  {}
}
