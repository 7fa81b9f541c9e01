/** Cursor paging over a table that may change between two requests. A view is what the query sees at
    one request, by key. The empty cursor stands for "no cursor": both ends of the wire treat them alike. */
module Paging {
  import opened Ordering

  /** How a server bounds the requested page size. */
  function ClampLimit(requested: int, most: nat): (limit: nat)
    requires most >= 1
    ensures 1 <= limit <= most
    ensures 1 <= requested <= most ==> limit == requested
  {
    Max(1, Min(most, requested))
  }

  function Above(lt: Order, keys: set<string>, cursor: string): set<string> {
    if cursor == "" then keys else After(lt, keys, cursor)
  }

  /** `where key > cursor order by key take limit`. */
  function Page(lt: Order, keys: set<string>, cursor: string, limit: nat): seq<string>
    requires StrictTotal(lt)
  {
    var all := Enumerate(lt, Above(lt, keys, cursor));
    all[..Min(limit, |all|)]
  }

  function NextCursor(page: seq<string>, limit: nat): string {
    if |page| == limit && page != [] then page[|page| - 1] else ""
  }

  function Rows<T>(view: map<string, T>, keys: seq<string>): (rows: seq<(string, T)>)
    requires forall k :: k in keys ==> k in view
    ensures |rows| == |keys|
  {
    seq(|keys|, i requires 0 <= i < |keys| => (keys[i], view[keys[i]]))
  }

  function Keys<T>(rows: seq<(string, T)>): seq<string> {
    seq(|rows|, i requires 0 <= i < |rows| => rows[i].0)
  }

  /** One answer: the rows of the page and the cursor for the next. */
  function Serve<T>(lt: Order, view: map<string, T>, cursor: string, limit: nat): (answer: (seq<(string, T)>, string))
    requires StrictTotal(lt)
    ensures Keys(answer.0) == Page(lt, view.Keys, cursor, limit)
    ensures forall i :: 0 <= i < |answer.0| ==> answer.0[i].0 in view && view[answer.0[i].0] == answer.0[i].1
  {
    PageProperties(lt, view.Keys, cursor, limit);
    var page := Page(lt, view.Keys, cursor, limit);
    assert forall k :: k in page ==> k in Elems(page);
    (Rows(view, page), NextCursor(page, limit))
  }

  /** What a client has when its loop ends: the rows, the requests answered, and whether the end of the
      table was reported (rather than a request failing). */
  datatype Scan<T> = Scan(rows: seq<(string, T)>, requests: nat, complete: bool)

  /** The client's loop. Request i is answered from `views[i]`; a request beyond them fails. */
  function ScanFrom<T>(lt: Order, views: seq<map<string, T>>, cursor: string, limit: nat): Scan<T>
    requires StrictTotal(lt)
  {
    if views == [] then Scan([], 0, false)
    else
      var (rows, next) := Serve(lt, views[0], cursor, limit);
      if next == "" then Scan(rows, 1, true)
      else
        var rest := ScanFrom(lt, views[1..], next, limit);
        Scan(rows + rest.rows, 1 + rest.requests, rest.complete)
  }

  lemma PageProperties(lt: Order, keys: set<string>, cursor: string, limit: nat)
    requires StrictTotal(lt)
    ensures var page := Page(lt, keys, cursor, limit);
      && Ascending(lt, page)
      && Elems(page) <= Above(lt, keys, cursor)
      && |page| == Min(limit, |Above(lt, keys, cursor)|)
      && (|page| < limit ==> Elems(page) == Above(lt, keys, cursor))
      && (forall x :: x in Above(lt, keys, cursor) && x !in Elems(page) && page != [] ==> lt(page[|page| - 1], x))
  {
    var left := Above(lt, keys, cursor);
    var all := Enumerate(lt, left);
    var page := Page(lt, keys, cursor, limit);
    EnumerateProperties(lt, left);
    if page != [] {
      TailElems(lt, all, |page|);
      ElemsConcat(page, all[|page|..]);
    }
  }

  /** The row was in one of the first `requests` views, with that value. */
  ghost predicate WasServed<T>(views: seq<map<string, T>>, requests: nat, row: (string, T)) {
    exists j :: 0 <= j < requests && j < |views| && row.0 in views[j] && views[j][row.0] == row.1
  }

  ghost predicate AllServed<T>(views: seq<map<string, T>>, s: Scan<T>) {
    forall i :: 0 <= i < |s.rows| ==> WasServed(views, s.requests, s.rows[i])
  }

  lemma ServedLater<T>(views: seq<map<string, T>>, requests: nat, row: (string, T))
    requires views != [] && WasServed(views[1..], requests, row)
    ensures WasServed(views, requests + 1, row)
  {
    var j :| 0 <= j < requests && j < |views[1..]| && row.0 in views[1..][j] && views[1..][j][row.0] == row.1;
    assert views[j + 1] == views[1..][j];
  }

  lemma KeysConcat<T>(a: seq<(string, T)>, b: seq<(string, T)>)
    ensures Keys(a + b) == Keys(a) + Keys(b)
  {}

  /** In strictly increasing order, and all after the cursor if there is one. */
  ghost predicate AscendingFrom(lt: Order, cursor: string, keys: seq<string>) {
    Ascending(lt, keys) && (cursor != "" ==> AllAfter(lt, cursor, keys))
  }

  ghost predicate AllAfter<T>(lt: (T, T) -> bool, x: T, s: seq<T>) { forall y :: y in Elems(s) ==> lt(x, y) }

  lemma PageAscends(lt: Order, keys: set<string>, cursor: string, limit: nat)
    requires StrictTotal(lt)
    ensures AscendingFrom(lt, cursor, Page(lt, keys, cursor, limit))
  {
    PageProperties(lt, keys, cursor, limit);
  }

  lemma ListThenRest<T(!new)>(lt: (T, T) -> bool, list: seq<T>, rest: seq<T>)
    requires StrictTotal(lt) && list != [] && Ascending(lt, list) && Ascending(lt, rest)
    requires AllAfter(lt, list[|list| - 1], rest)
    ensures Ascending(lt, list + rest)
    ensures forall x :: AllAfter(lt, x, list) ==> AllAfter(lt, x, list + rest)
  {
    forall x, y | x in Elems(list) && y in Elems(rest) ensures lt(x, y) { LastIsGreatest(lt, list, x); }
    ConcatAscending(lt, list, rest);
    ElemsConcat(list, rest);
    assert list[|list| - 1] in Elems(list);
  }

  lemma PageThenRest(lt: Order, cursor: string, page: seq<string>, rest: seq<string>)
    requires StrictTotal(lt) && page != [] && page[|page| - 1] != ""
    requires AscendingFrom(lt, cursor, page) && AscendingFrom(lt, page[|page| - 1], rest)
    ensures AscendingFrom(lt, cursor, page + rest)
  {
    ListThenRest(lt, page, rest);
  }

  /** Keys strictly increase, so no row is fetched twice, and all lie after the cursor. */
  lemma {:induction false} ScanAscending<T>(lt: Order, views: seq<map<string, T>>, cursor: string, limit: nat)
    requires StrictTotal(lt)
    ensures ScanFrom(lt, views, cursor, limit).requests <= |views|
    ensures AscendingFrom(lt, cursor, Keys(ScanFrom(lt, views, cursor, limit).rows))
  {
    if views != [] {
      var page := Page(lt, views[0].Keys, cursor, limit);
      var (rows, next) := Serve(lt, views[0], cursor, limit);
      PageAscends(lt, views[0].Keys, cursor, limit);
      if next != "" {
        ScanAscending(lt, views[1..], next, limit);
        KeysConcat(rows, ScanFrom(lt, views[1..], next, limit).rows);
        PageThenRest(lt, cursor, page, Keys(ScanFrom(lt, views[1..], next, limit).rows));
      }
    }
  }

  /** Every fetched row was in some answered view with that value. */
  lemma {:induction false} ScanSound<T>(lt: Order, views: seq<map<string, T>>, cursor: string, limit: nat)
    requires StrictTotal(lt)
    ensures AllServed(views, ScanFrom(lt, views, cursor, limit))
  {
    if views != [] {
      var (rows, next) := Serve(lt, views[0], cursor, limit);
      if next != "" {
        ScanSound(lt, views[1..], next, limit);
        var rest := ScanFrom(lt, views[1..], next, limit);
        forall i | 0 <= i < |rest.rows| ensures WasServed(views, 1 + rest.requests, rest.rows[i]) {
          ServedLater(views, rest.requests, rest.rows[i]);
        }
      }
    }
  }

  /** A row that every answered request could see is fetched, whatever else changed in between. */
  lemma {:induction false} ScanComplete<T>(lt: Order, views: seq<map<string, T>>, cursor: string, limit: nat, x: string)
    requires StrictTotal(lt)
    requires limit >= 1
    requires forall i :: 0 <= i < |views| ==> "" !in views[i]
    requires ScanFrom(lt, views, cursor, limit).complete
    requires cursor != "" ==> lt(cursor, x)
    requires forall i :: 0 <= i < ScanFrom(lt, views, cursor, limit).requests && i < |views| ==> x in views[i]
    ensures x in Elems(Keys(ScanFrom(lt, views, cursor, limit).rows))
  {
    PageProperties(lt, views[0].Keys, cursor, limit);
    var page := Page(lt, views[0].Keys, cursor, limit);
    var (rows, next) := Serve(lt, views[0], cursor, limit);
    assert x in Above(lt, views[0].Keys, cursor);
    if next != "" {
      var rest := ScanFrom(lt, views[1..], next, limit);
      KeysConcat(rows, rest.rows);
      ElemsConcat(page, Keys(rest.rows));
      if x !in Elems(page) {
        assert forall i :: 0 <= i < |views[1..]| ==> views[1..][i] == views[i + 1];
        ScanComplete(lt, views[1..], next, limit, x);
      }
    } else {
      FullPageGoesOn(page, limit);
    }
  }

  /** Unless its last key is empty, only a short page ends the loop. */
  lemma FullPageGoesOn(page: seq<string>, limit: nat)
    requires limit >= 1 && NextCursor(page, limit) == ""
    ensures |page| != limit || "" in Elems(page)
  {}

  function RequestCount(n: nat, limit: nat): nat
    requires limit >= 1
  {
    if n < limit then 1 else 1 + RequestCount(n - limit, limit)
  }

  /** The element at this place is the last one of some full page. */
  predicate EndsPage(place: nat, limit: nat)
    requires limit >= 1
  {
    place + 1 == limit || (place >= limit && EndsPage(place - limit, limit))
  }

  /** The empty key is the last one of a full page: the cursor taken from it reads as "no cursor". */
  ghost predicate EmptyKeyEndsPage(lt: Order, keys: set<string>, limit: nat)
    requires limit >= 1
  {
    "" in keys && EndsPage(|Before(lt, keys, "")|, limit)
  }

  /** And there is something after it. */
  ghost predicate CutShort(lt: Order, keys: set<string>, limit: nat)
    requires limit >= 1
  {
    EmptyKeyEndsPage(lt, keys, limit) && |Before(lt, keys, "")| + 1 < |keys|
  }

  /** Where an element of a sorted list stands, in the list and after its first n elements. */
  lemma PlaceInList<T(!new)>(lt: (T, T) -> bool, s: seq<T>, n: nat, i: nat)
    requires StrictTotal(lt) && Ascending(lt, s) && 1 <= n <= |s| && i < |s|
    ensures |Before(lt, Elems(s), s[i])| == i
    ensures i == n - 1 <==> s[i] == s[n - 1]
    ensures i >= n <==> s[i] in After(lt, Elems(s), s[n - 1])
    ensures i >= n ==> |Before(lt, After(lt, Elems(s), s[n - 1]), s[i])| == i - n
  {
    RankInAscending(lt, s, i);
    TailElems(lt, s, n);
    if i >= n {
      assert s[n..][i - n] == s[i];
      RankInAscending(lt, s[n..], i - n);
    } else if i < n - 1 {
      assert lt(s[i], s[n - 1]);
    }
  }

  /** Where an element stands before and after a full page was taken off the front. */
  lemma PlaceAfterPage<T(!new)>(lt: (T, T) -> bool, left: set<T>, limit: nat, x: T)
    requires StrictTotal(lt) && x in left && 1 <= limit <= |left| == |Enumerate(lt, left)|
    ensures var last := Enumerate(lt, left)[limit - 1]; var place := |Before(lt, left, x)|;
      && (place == limit - 1 <==> x == last)
      && (x in After(lt, left, last) <==> place >= limit)
      && (place >= limit ==> |Before(lt, After(lt, left, last), x)| == place - limit)
  {
    var e := Enumerate(lt, left);
    EnumerateProperties(lt, left);
    assert e[..|e|] == e;
    var i := IndexOf(e, |e|, x);
    PlaceInList(lt, e, limit, i);
  }

  lemma CutShortLater(lt: Order, left: set<string>, rest: set<string>, limit: nat)
    requires StrictTotal(lt) && 1 <= limit <= |left| == |Enumerate(lt, left)|
    requires Enumerate(lt, left)[limit - 1] != "" && rest == After(lt, left, Enumerate(lt, left)[limit - 1])
    requires |rest| == |left| - limit
    ensures CutShort(lt, left, limit) <==> CutShort(lt, rest, limit)
    ensures EmptyKeyEndsPage(lt, left, limit) <==> EmptyKeyEndsPage(lt, rest, limit)
  {
    if "" in left { PlaceAfterPage(lt, left, limit, ""); }
  }

  lemma CutShortHere(lt: Order, left: set<string>, limit: nat)
    requires StrictTotal(lt) && 1 <= limit <= |left| == |Enumerate(lt, left)| && Enumerate(lt, left)[limit - 1] == ""
    ensures CutShort(lt, left, limit) <==> limit < |left|
    ensures EmptyKeyEndsPage(lt, left, limit)
  {
    EnumerateProperties(lt, left);
    assert "" in Elems(Enumerate(lt, left));
    PlaceAfterPage(lt, left, limit, "");
  }

  lemma NoFullPageToEnd(lt: Order, left: set<string>, limit: nat)
    requires StrictTotal(lt) && |left| < limit
    ensures !EmptyKeyEndsPage(lt, left, limit)
  {
    if "" in left { SubsetSize(Before(lt, left, "") + {""}, left); }
  }

  /** Same rows as the table from the cursor on, in the same order. */
  ghost predicate Whole<T>(lt: Order, keys: set<string>, s: Scan<T>)
    requires StrictTotal(lt)
  {
    Keys(s.rows) == Enumerate(lt, keys)
  }

  lemma {:induction false} ScanUnchangingFrom<T>(lt: Order, view: map<string, T>, views: seq<map<string, T>>,
                                                 cursor: string, limit: nat)
    requires StrictTotal(lt)
    requires limit >= 1
    requires forall i :: 0 <= i < |views| ==> views[i] == view
    requires |views| >= RequestCount(|Above(lt, view.Keys, cursor)|, limit)
    ensures var s := ScanFrom(lt, views, cursor, limit); var left := Above(lt, view.Keys, cursor);
      && s.complete
      && (Whole(lt, left, s) <==> !CutShort(lt, left, limit))
      && (s.requests == RequestCount(|left|, limit) <==> !EmptyKeyEndsPage(lt, left, limit))
  {
    var (rows, next) := Serve(lt, view, cursor, limit);
    var left := Above(lt, view.Keys, cursor);
    if |left| < limit {
      LastPage(lt, view.Keys, cursor, limit);
      NoFullPageToEnd(lt, left, limit);
    } else {
      FullPage(lt, view.Keys, cursor, limit);
      if next == "" {
        CutShortHere(lt, left, limit);
      } else {
        var rest := ScanFrom(lt, views[1..], next, limit);
        ScanUnchangingFrom(lt, view, views[1..], next, limit);
        KeysConcat(rows, rest.rows);
        CutShortLater(lt, left, Above(lt, view.Keys, next), limit);
        SameFront(Keys(rows), Keys(rest.rows), Enumerate(lt, Above(lt, view.Keys, next)));
      }
    }
  }

  lemma SameFront<T>(a: seq<T>, b: seq<T>, c: seq<T>)
    ensures a + b == a + c <==> b == c
  {
    assert (a + b)[|a|..] == b && (a + c)[|a|..] == c;
  }

  lemma LastPage(lt: Order, keys: set<string>, cursor: string, limit: nat)
    requires StrictTotal(lt)
    requires |Above(lt, keys, cursor)| < limit
    ensures Page(lt, keys, cursor, limit) == Enumerate(lt, Above(lt, keys, cursor))
    ensures NextCursor(Page(lt, keys, cursor, limit), limit) == ""
  {
    EnumerateProperties(lt, Above(lt, keys, cursor));
  }

  lemma FullPage(lt: Order, keys: set<string>, cursor: string, limit: nat)
    requires StrictTotal(lt)
    requires limit >= 1 && |Above(lt, keys, cursor)| >= limit
    ensures var left := Above(lt, keys, cursor); var page := Page(lt, keys, cursor, limit);
      var next := NextCursor(page, limit);
      && |page| == limit && |Enumerate(lt, left)| == |left| && next == Enumerate(lt, left)[limit - 1]
      && (page == Enumerate(lt, left) <==> |left| == limit)
      && (next != "" ==>
           && Above(lt, keys, next) == After(lt, left, next)
           && |Above(lt, keys, next)| == |left| - limit
           && Enumerate(lt, left) == page + Enumerate(lt, Above(lt, keys, next)))
  {
    var left := Above(lt, keys, cursor);
    EnumerateTail(lt, left, limit);
    var next := Enumerate(lt, left)[limit - 1];
    if next != "" { AboveTwice(lt, keys, cursor, next); }
  }

  lemma AboveTwice(lt: Order, keys: set<string>, cursor: string, next: string)
    requires StrictTotal(lt) && next in Above(lt, keys, cursor) && next != ""
    ensures After(lt, Above(lt, keys, cursor), next) == Above(lt, keys, next)
  {}

  /** On a table of n rows that does not change, the loop ends by itself. It has then fetched the whole table in
      key order exactly when the empty key did not cut it short, and made n / limit + 1 requests exactly when
      the empty key ended no full page; so always, when keys are not empty. */
  lemma ScanUnchanging<T>(lt: Order, view: map<string, T>, views: seq<map<string, T>>, limit: nat)
    requires StrictTotal(lt)
    requires limit >= 1
    requires forall i :: 0 <= i < |views| ==> views[i] == view
    requires |views| > |view| / limit
    ensures var s := ScanFrom(lt, views, "", limit);
      && s.complete
      && (Whole(lt, view.Keys, s) <==> !CutShort(lt, view.Keys, limit))
      && (s.requests == |view| / limit + 1 <==> !EmptyKeyEndsPage(lt, view.Keys, limit))
  {
    RequestCountIsFloor(|view|, limit);
    ScanUnchangingFrom(lt, view, views, "", limit);
  }

  /** The place that matters, without recursion. */
  lemma {:induction false} EndsPageIsMultiple(place: nat, limit: nat)
    requires limit >= 1
    ensures EndsPage(place, limit) <==> (place + 1) % limit == 0
  {
    if place >= limit {
      EndsPageIsMultiple(place - limit, limit);
      RemainderStep(place + 1, limit);
    } else if place + 1 < limit {
      RemainderOfLess(place + 1, limit);
    }
  }

  lemma RemainderOfLess(n: nat, d: nat)
    requires n < d
    ensures n % d == n
  {}

  lemma RemainderStep(n: nat, d: nat)
    requires 1 <= d <= n
    ensures n % d == (n - d) % d
  {
    var q, r := (n - d) / d, (n - d) % d;
    assert n == (q + 1) * d + r;
    DivideUnique(n, d, q + 1, r);
  }

  lemma MultiplyStep(a: nat, b: nat, d: nat)
    ensures a < b ==> a * d + d <= b * d
  {
    if a < b {
      assert (a + 1) * d <= b * d;
    }
  }

  lemma DivideUnique(n: nat, d: nat, q: nat, r: nat)
    requires d >= 1 && n == q * d + r && r < d
    ensures n / d == q
  {
    MultiplyStep(q, n / d, d);
    MultiplyStep(n / d, q, d);
  }

  lemma {:induction false} RequestCountIsFloor(n: nat, limit: nat)
    requires limit >= 1
    ensures RequestCount(n, limit) == n / limit + 1
  {
    if n < limit {
      DivideUnique(n, limit, 0, n);
    } else {
      RequestCountIsFloor(n - limit, limit);
      var q, r := (n - limit) / limit, (n - limit) % limit;
      assert n == (q + 1) * limit + r;
      DivideUnique(n, limit, q + 1, r);
    }
  }

  /** Two rows, one of them under the empty key, and pages of one row: the second row is never fetched. */
  lemma EmptyKeyEndsScan(lt: Order)
    requires StrictTotal(lt) && lt("", "a")
    ensures var view := map["" := 0, "a" := 1];
      CutShort(lt, view.Keys, 1) && !Whole(lt, view.Keys, ScanFrom(lt, [view, view, view], "", 1))
  {
    var view := map["" := 0, "a" := 1];
    assert Before(lt, view.Keys, "") == {};
    assert |view.Keys| == |{"", "a"}| == 2;
    ScanUnchanging(lt, view, [view, view, view], 1);
  }
}
