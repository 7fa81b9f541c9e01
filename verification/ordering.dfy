/** Strict total orders, sorting by them, ranks, and the k first elements of a set. On strings they stand
    for `localeCompare`, for the database's collation and for the rankings the services build from them;
    nothing but the order laws is used. */
module Ordering {

  type Order = (string, string) -> bool

  /** Marks the pairs for which totality is wanted. */
  ghost predicate Compared<T>(a: T, b: T) { true }

  ghost predicate StrictTotal<T(!new)>(lt: (T, T) -> bool) {
    && (forall a :: !lt(a, a))
    && (forall a, b {:trigger Compared(a, b)} :: a == b || lt(a, b) || lt(b, a))
    && (forall a, b, c :: lt(a, b) && lt(b, c) ==> lt(a, c))
  }

  lemma Compare<T(!new)>(lt: (T, T) -> bool, a: T, b: T)
    requires StrictTotal(lt)
    ensures a == b || lt(a, b) || lt(b, a)
  {
    assert Compared(a, b);
  }

  // ----- the lexicographic order on strings, and orders built from a text or a score -----

  predicate LexLess(a: string, b: string) {
    b != "" && (a == "" || a[0] < b[0] || (a[0] == b[0] && LexLess(a[1..], b[1..])))
  }

  lemma {:induction false} LexIrreflexive(a: string)
    ensures !LexLess(a, a)
  {
    if a != "" { LexIrreflexive(a[1..]); }
  }

  lemma {:induction false} LexTotal(a: string, b: string)
    requires a != b
    ensures LexLess(a, b) || LexLess(b, a)
  {
    if a != "" && b != "" && a[0] == b[0] {
      assert a == [a[0]] + a[1..] && b == [b[0]] + b[1..];
      LexTotal(a[1..], b[1..]);
    }
  }

  lemma {:induction false} LexTransitive(a: string, b: string, c: string)
    requires LexLess(a, b) && LexLess(b, c)
    ensures LexLess(a, c)
  {
    if a != "" && a[0] == b[0] && b[0] == c[0] {
      LexTransitive(a[1..], b[1..], c[1..]);
    }
  }

  /** Compare by `text`, lexicographically; break ties by `tie`. */
  predicate TextThen<T(!new)>(text: T -> string, tie: (T, T) -> bool, a: T, b: T) {
    if text(a) != text(b) then LexLess(text(a), text(b)) else tie(a, b)
  }

  function ByText<T(!new)>(text: T -> string, tie: (T, T) -> bool): (T, T) -> bool {
    (a: T, b: T) => TextThen(text, tie, a, b)
  }

  lemma ByTextIsStrictTotal<T(!new)>(text: T -> string, tie: (T, T) -> bool)
    requires StrictTotal(tie)
    ensures StrictTotal(ByText(text, tie))
  {
    forall a: T, b: T ensures a == b || TextThen(text, tie, a, b) || TextThen(text, tie, b, a) {
      Compare(tie, a, b);
      if text(a) != text(b) { LexTotal(text(a), text(b)); }
    }
    forall a: T, b: T, c: T | TextThen(text, tie, a, b) && TextThen(text, tie, b, c) ensures TextThen(text, tie, a, c) {
      TextTransitive(text, tie, a, b, c);
    }
  }

  lemma TextTransitive<T(!new)>(text: T -> string, tie: (T, T) -> bool, a: T, b: T, c: T)
    requires StrictTotal(tie) && TextThen(text, tie, a, b) && TextThen(text, tie, b, c)
    ensures TextThen(text, tie, a, c)
  {
    if text(a) != text(b) && text(b) != text(c) {
      LexTransitive(text(a), text(b), text(c));
      LexIrreflexive(text(a));
    }
  }

  /** Larger score first; break ties by `tie`. */
  function ByDescending<T(!new)>(score: T -> real, tie: (T, T) -> bool): (T, T) -> bool {
    (a: T, b: T) => if score(a) != score(b) then score(a) > score(b) else tie(a, b)
  }

  lemma ByDescendingIsStrictTotal<T(!new)>(score: T -> real, tie: (T, T) -> bool)
    requires StrictTotal(tie)
    ensures StrictTotal(ByDescending(score, tie))
  {
    var lt := ByDescending(score, tie);
    forall a: T, b: T ensures a == b || lt(a, b) || lt(b, a) { Compare(tie, a, b); }
  }

  // ----- sequences without repetition -----

  function Elems<T>(s: seq<T>): set<T> { set x | x in s }

  ghost predicate Distinct<T>(s: seq<T>) {
    forall i, j :: 0 <= i < j < |s| ==> s[i] != s[j]
  }

  ghost predicate Ascending<T>(lt: (T, T) -> bool, s: seq<T>) {
    forall i, j :: 0 <= i < j < |s| ==> lt(s[i], s[j])
  }

  lemma ElemsConcat<T>(s: seq<T>, t: seq<T>)
    ensures Elems(s + t) == Elems(s) + Elems(t)
  {}

  lemma HeadTail<T>(s: seq<T>)
    requires s != []
    ensures s == [s[0]] + s[1..]
    ensures Elems(s) == {s[0]} + Elems(s[1..])
  {
    assert s == [s[0]] + s[1..];
    ElemsConcat([s[0]], s[1..]);
  }

  lemma PrefixStep<T>(s: seq<T>, i: nat)
    requires i < |s|
    ensures s[..i + 1] == s[..i] + [s[i]]
    ensures Elems(s[..i + 1]) == Elems(s[..i]) + {s[i]}
  {
    assert s[..i + 1] == s[..i] + [s[i]];
    ElemsConcat(s[..i], [s[i]]);
  }

  /** Where an element of a prefix, or of the whole, sits. */
  lemma IndexOf<T>(s: seq<T>, n: nat, x: T) returns (i: nat)
    requires n <= |s| && x in Elems(s[..n])
    ensures i < n && s[i] == x
  {
    i :| 0 <= i < |s[..n]| && s[..n][i] == x;
  }

  lemma PrefixMember<T>(s: seq<T>, n: nat, i: nat)
    requires i < n <= |s|
    ensures s[i] in Elems(s[..n])
  {
    assert s[..n][i] == s[i];
  }

  lemma {:induction false} DistinctSize<T>(s: seq<T>)
    requires Distinct(s)
    ensures |Elems(s)| == |s|
  {
    if s != [] {
      DistinctSize(s[1..]);
      HeadTail(s);
      assert s[0] !in s[1..];
    }
  }

  lemma AscendingDistinct<T(!new)>(lt: (T, T) -> bool, s: seq<T>)
    requires StrictTotal(lt) && Ascending(lt, s)
    ensures Distinct(s)
    ensures |Elems(s)| == |s|
  {
    forall i, j | 0 <= i < j < |s| ensures s[i] != s[j] {
      assert lt(s[i], s[j]);
    }
    DistinctSize(s);
  }

  /** Adding to an insertion-ordered set: present elements are not added again. */
  function AddOnce<T(==)>(s: seq<T>, x: T): (r: seq<T>)
    ensures Distinct(s) ==> Distinct(r)
    ensures Elems(r) == Elems(s) + {x}
  {
    ElemsConcat(s, [x]);
    if x in s then s else s + [x]
  }

  /** The elements that are not excluded, each where it is first mentioned. */
  function DistinctExcept<T(==)>(s: seq<T>, excluded: set<T>): (r: seq<T>)
    ensures Distinct(r)
    ensures Elems(r) == Elems(s) - excluded
  {
    if s == [] then []
    else
      var before, last := s[..|s| - 1], s[|s| - 1];
      assert s == before + [last];
      ElemsConcat(before, [last]);
      if last in excluded then DistinctExcept(before, excluded) else AddOnce(DistinctExcept(before, excluded), last)
  }

  // ----- sorting -----

  function Insert<T>(lt: (T, T) -> bool, x: T, s: seq<T>): seq<T> {
    if s == [] then [x]
    else if lt(x, s[0]) then [x] + s
    else [s[0]] + Insert(lt, x, s[1..])
  }

  /** Array sort with a comparator that is a strict total order. */
  function Sort<T>(lt: (T, T) -> bool, s: seq<T>): seq<T> {
    if s == [] then [] else Insert(lt, s[0], Sort(lt, s[1..]))
  }

  lemma PrependAscending<T>(lt: (T, T) -> bool, x: T, s: seq<T>)
    requires Ascending(lt, s) && forall y :: y in Elems(s) ==> lt(x, y)
    ensures Ascending(lt, [x] + s)
    ensures Elems([x] + s) == {x} + Elems(s)
  {
    forall i | 0 <= i < |s| ensures lt(x, s[i]) { assert s[i] in Elems(s); }
    ElemsConcat([x], s);
  }

  lemma HeadFirst<T>(lt: (T, T) -> bool, s: seq<T>)
    requires s != [] && Ascending(lt, s)
    ensures Ascending(lt, s[1..])
    ensures forall y :: y in Elems(s[1..]) ==> lt(s[0], y)
  {
    forall y | y in Elems(s[1..]) ensures lt(s[0], y) {
      var i :| 0 <= i < |s[1..]| && s[1..][i] == y;
      assert s[i + 1] == y;
    }
  }

  lemma {:induction false} InsertProperties<T(!new)>(lt: (T, T) -> bool, x: T, s: seq<T>)
    requires StrictTotal(lt) && Ascending(lt, s) && x !in Elems(s)
    ensures Ascending(lt, Insert(lt, x, s))
    ensures Elems(Insert(lt, x, s)) == {x} + Elems(s)
    ensures |Insert(lt, x, s)| == |s| + 1
  {
    if s == [] {
      assert Insert(lt, x, s) == [x];
    } else {
      HeadTail(s);
      HeadFirst(lt, s);
      Compare(lt, x, s[0]);
      if lt(x, s[0]) {
        PrependAscending(lt, x, s);
      } else {
        InsertProperties(lt, x, s[1..]);
        PrependAscending(lt, s[0], Insert(lt, x, s[1..]));
      }
    }
  }

  lemma {:induction false} SortProperties<T(!new)>(lt: (T, T) -> bool, s: seq<T>)
    requires StrictTotal(lt) && Distinct(s)
    ensures Ascending(lt, Sort(lt, s))
    ensures Elems(Sort(lt, s)) == Elems(s)
    ensures |Sort(lt, s)| == |s|
  {
    if s != [] {
      SortProperties(lt, s[1..]);
      HeadTail(s);
      assert s[0] !in Elems(s[1..]);
      InsertProperties(lt, s[0], Sort(lt, s[1..]));
    }
  }

  lemma NoElems<T>(s: seq<T>)
    ensures s != [] ==> Elems(s) != {}
  {
    if s != [] { assert s[0] in Elems(s); }
  }

  lemma SameHead<T(!new)>(lt: (T, T) -> bool, s: seq<T>, t: seq<T>)
    requires StrictTotal(lt) && Ascending(lt, s) && Ascending(lt, t) && s != [] && t != []
    requires Elems(s) == Elems(t)
    ensures s[0] == t[0]
    ensures Elems(s[1..]) == Elems(t[1..])
  {
    HeadTail(s);
    HeadTail(t);
    HeadFirst(lt, s);
    HeadFirst(lt, t);
    assert s[0] in Elems(t) && t[0] in Elems(s);
    assert s[0] !in Elems(s[1..]) && t[0] !in Elems(t[1..]);
  }

  /** An ascending sequence is determined by its elements. */
  lemma {:induction false} AscendingUnique<T(!new)>(lt: (T, T) -> bool, s: seq<T>, t: seq<T>)
    requires StrictTotal(lt) && Ascending(lt, s) && Ascending(lt, t) && Elems(s) == Elems(t)
    ensures s == t
  {
    NoElems(s);
    NoElems(t);
    if s != [] && t != [] {
      SameHead(lt, s, t);
      AscendingUnique(lt, s[1..], t[1..]);
      HeadTail(s);
      HeadTail(t);
    }
  }

  // ----- the k first elements of a set -----

  function Min(a: int, b: int): int { if a < b then a else b }

  function Max(a: int, b: int): int { if a < b then b else a }

  function Before<T>(lt: (T, T) -> bool, all: set<T>, p: T): set<T> {
    set q | q in all && lt(q, p)
  }

  function After<T>(lt: (T, T) -> bool, all: set<T>, p: T): set<T> {
    set q | q in all && lt(p, q)
  }

  /** `picked` lists, in order, exactly the elements of `all` that have fewer than k elements before them. */
  ghost predicate IsFirst<T(!new)>(lt: (T, T) -> bool, all: set<T>, k: nat, picked: seq<T>) {
    && Ascending(lt, picked)
    && forall p :: p in Elems(picked) <==> p in all && |Before(lt, all, p)| < k
  }

  lemma SubsetSize<T>(a: set<T>, b: set<T>)
    requires a <= b
    ensures |a| <= |b|
  {
    assert b == a + (b - a);
  }

  lemma RankInAscending<T(!new)>(lt: (T, T) -> bool, s: seq<T>, i: nat)
    requires StrictTotal(lt) && Ascending(lt, s) && i < |s|
    ensures Before(lt, Elems(s), s[i]) == Elems(s[..i])
    ensures |Before(lt, Elems(s), s[i])| == i
  {
    AscendingDistinct(lt, s[..i]);
    forall q | q in Before(lt, Elems(s), s[i]) ensures q in Elems(s[..i]) {
      assert s[..|s|] == s;
      var j := IndexOf(s, |s|, q);
      assert j < i;
      PrefixMember(s, i, j);
    }
    forall q | q in Elems(s[..i]) ensures q in Before(lt, Elems(s), s[i]) {
      var j := IndexOf(s, i, q);
    }
  }

  /** Cutting a sorted list after k elements keeps exactly the elements of rank below k. */
  lemma PrefixIsFirst<T(!new)>(lt: (T, T) -> bool, s: seq<T>, k: nat)
    requires StrictTotal(lt) && Ascending(lt, s)
    ensures IsFirst(lt, Elems(s), k, s[..Min(k, |s|)])
  {
    var n := Min(k, |s|);
    assert s[..|s|] == s;
    forall p ensures p in Elems(s[..n]) <==> p in Elems(s) && |Before(lt, Elems(s), p)| < k {
      if p in Elems(s) {
        var i := IndexOf(s, |s|, p);
        RankInAscending(lt, s, i);
        if i < n { PrefixMember(s, n, i); }
        if p in Elems(s[..n]) {
          var j := IndexOf(s, n, p);
          RankInAscending(lt, s, j);
        }
      }
    }
  }

  lemma FirstUnique<T(!new)>(lt: (T, T) -> bool, all: set<T>, k: nat, s: seq<T>, t: seq<T>)
    requires StrictTotal(lt) && IsFirst(lt, all, k, s) && IsFirst(lt, all, k, t)
    ensures s == t
  {
    assert Elems(s) == Elems(t);
    AscendingUnique(lt, s, t);
  }

  lemma FirstLength<T(!new)>(lt: (T, T) -> bool, all: set<T>, k: nat, picked: seq<T>)
    requires StrictTotal(lt) && IsFirst(lt, all, k, picked)
    ensures Elems(picked) <= all && |picked| == |Elems(picked)| == Min(k, |all|)
  {
    EnumerateProperties(lt, all);
    PrefixIsFirst(lt, Enumerate(lt, all), k);
    FirstUnique(lt, all, k, picked, Enumerate(lt, all)[..Min(k, |all|)]);
    AscendingDistinct(lt, picked);
  }

  /** Whatever is left out ranks after everything that was picked. */
  lemma PickedBeforeRest<T(!new)>(lt: (T, T) -> bool, all: set<T>, k: nat, picked: seq<T>, p: T, rest: T)
    requires StrictTotal(lt) && IsFirst(lt, all, k, picked)
    requires p in Elems(picked) && rest in all && rest !in Elems(picked)
    ensures lt(p, rest)
  {
    Compare(lt, p, rest);
    if lt(rest, p) {
      SubsetSize(Before(lt, all, rest), Before(lt, all, p));
      assert false;
    }
  }

  // ----- enumerating a finite set -----

  predicate IsLeast<T>(lt: (T, T) -> bool, all: set<T>, m: T) {
    m in all && forall x :: x in all && x != m ==> lt(m, x)
  }

  lemma LeastOfRest<T(!new)>(lt: (T, T) -> bool, all: set<T>, y: T, m: T)
    requires StrictTotal(lt) && y in all && IsLeast(lt, all - {y}, m)
    ensures IsLeast(lt, all, if lt(y, m) then y else m)
  {
    Compare(lt, y, m);
    assert forall x :: x in all ==> x == y || x in all - {y};
  }

  lemma {:induction false} LeastExists<T(!new)>(lt: (T, T) -> bool, all: set<T>)
    requires StrictTotal(lt) && all != {}
    ensures exists m :: IsLeast(lt, all, m)
  {
    var y :| y in all;
    if all == {y} {
      assert IsLeast(lt, all, y);
    } else {
      LeastExists(lt, all - {y});
      var m :| IsLeast(lt, all - {y}, m);
      LeastOfRest(lt, all, y, m);
    }
  }

  lemma LeastUnique<T(!new)>(lt: (T, T) -> bool, all: set<T>, m: T, n: T)
    requires StrictTotal(lt) && IsLeast(lt, all, m) && IsLeast(lt, all, n)
    ensures m == n
  {
    assert m == n || (lt(m, n) && lt(n, m));
  }

  function Least<T(==, !new)>(lt: (T, T) -> bool, all: set<T>): (m: T)
    requires StrictTotal(lt) && all != {}
    ensures IsLeast(lt, all, m)
  {
    LeastExists(lt, all);
    assert forall m, n :: IsLeast(lt, all, m) && IsLeast(lt, all, n) ==> m == n by {
      forall m, n | IsLeast(lt, all, m) && IsLeast(lt, all, n) ensures m == n { LeastUnique(lt, all, m, n); }
    }
    var m :| m in all && IsLeast(lt, all, m);
    m
  }

  /** The elements of a set in order: a query with `orderBy`. */
  function Enumerate<T(==, !new)>(lt: (T, T) -> bool, all: set<T>): seq<T>
    requires StrictTotal(lt)
  {
    if all == {} then []
    else
      var m := Least(lt, all);
      [m] + Enumerate(lt, all - {m})
  }

  lemma {:induction false} EnumerateProperties<T(!new)>(lt: (T, T) -> bool, all: set<T>)
    requires StrictTotal(lt)
    ensures Ascending(lt, Enumerate(lt, all))
    ensures Elems(Enumerate(lt, all)) == all
    ensures |Enumerate(lt, all)| == |all|
  {
    if all != {} {
      var m := Least(lt, all);
      EnumerateProperties(lt, all - {m});
      PrependAscending(lt, m, Enumerate(lt, all - {m}));
    }
  }

  /** The elements after the n-th one. */
  lemma EnumerateTail<T(!new)>(lt: (T, T) -> bool, all: set<T>, n: nat)
    requires StrictTotal(lt) && 1 <= n <= |all|
    ensures |Enumerate(lt, all)| == |all|
    ensures var m := Enumerate(lt, all)[n - 1]; var rest := After(lt, all, m);
      && m in all
      && |rest| == |all| - n
      && Enumerate(lt, all) == Enumerate(lt, all)[..n] + Enumerate(lt, rest)
  {
    var e := Enumerate(lt, all);
    EnumerateProperties(lt, all);
    var m := e[n - 1];
    var rest := After(lt, all, m);
    assert m in Elems(e);
    TailElems(lt, e, n);
    EnumerateProperties(lt, rest);
    AscendingUnique(lt, e[n..], Enumerate(lt, rest));
  }

  lemma TailElems<T(!new)>(lt: (T, T) -> bool, s: seq<T>, n: nat)
    requires StrictTotal(lt) && Ascending(lt, s) && 1 <= n <= |s|
    ensures Elems(s[n..]) == After(lt, Elems(s), s[n - 1])
    ensures Ascending(lt, s[n..]) && s == s[..n] + s[n..]
  {
    assert s[..|s|] == s;
    forall k | k in After(lt, Elems(s), s[n - 1]) ensures k in Elems(s[n..]) {
      var i := IndexOf(s, |s|, k);
      assert i >= n;
      assert s[n..][i - n] == k;
    }
    forall k | k in Elems(s[n..]) ensures k in After(lt, Elems(s), s[n - 1]) {
      var i :| 0 <= i < |s[n..]| && s[n..][i] == k;
      assert s[n + i] == k;
    }
  }

  lemma ConcatAscending<T>(lt: (T, T) -> bool, s: seq<T>, t: seq<T>)
    requires Ascending(lt, s) && Ascending(lt, t)
    requires forall x, y :: x in Elems(s) && y in Elems(t) ==> lt(x, y)
    ensures Ascending(lt, s + t)
  {
    forall i, j | 0 <= i < |s| && 0 <= j < |t| ensures lt(s[i], t[j]) {
      assert s[i] in Elems(s) && t[j] in Elems(t);
    }
  }

  /** No element of a sorted prefix comes after its last one. */
  lemma LastIsGreatest<T(!new)>(lt: (T, T) -> bool, s: seq<T>, x: T)
    requires Ascending(lt, s) && x in Elems(s)
    ensures x == s[|s| - 1] || lt(x, s[|s| - 1])
  {
    assert s[..|s|] == s;
    var i := IndexOf(s, |s|, x);
  }
}
