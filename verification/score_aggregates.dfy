/** What the servers think of each other: per target, the mean over every reporter's newest fresh report. */
module ScoreAggregates {
  import opened Ordering
  import opened Text
  import opened Totals
  import opened SyncWire
  import opened ScoreReports

  datatype Tally = Tally(lastObservedAt: int, scoreSum: nat, voteCount: nat)

  datatype Aggregate = Aggregate(meanScore: real, reportCount: nat, lastObservedAt: int)

  type KeyOrder = (Key, Key) -> bool

  // ----- the query -----

  /** Unexpired and not too old; an empty list of targets asks for all. */
  function Selected(table: Reports, now: int, maxAgeSeconds: int, targets: seq<string>): set<Key> {
    set k | k in Live(table, now) && k.observedAt >= now - maxAgeSeconds * 1000 &&
      (targets == [] || k.pair.target in targets)
  }

  function ObservedScore(k: Key): real { k.observedAt as real }

  /** Newest observation first; `tie` is the order among equal ones. */
  function Query(tie: KeyOrder, keys: set<Key>): (rows: seq<Key>)
    requires StrictTotal(tie)
    ensures Elems(rows) == keys && Descending(rows)
  {
    ByDescendingIsStrictTotal(ObservedScore, tie);
    EnumerateProperties(ByDescending(ObservedScore, tie), keys);
    EnumerateDescends(tie, Enumerate(ByDescending(ObservedScore, tie), keys));
    Enumerate(ByDescending(ObservedScore, tie), keys)
  }

  ghost predicate Descending(rows: seq<Key>) {
    forall i, j :: 0 <= i < j < |rows| ==> rows[i].observedAt >= rows[j].observedAt
  }

  lemma EnumerateDescends(tie: KeyOrder, rows: seq<Key>)
    requires Ascending(ByDescending(ObservedScore, tie), rows)
    ensures Descending(rows)
  {
    var lt := ByDescending(ObservedScore, tie);
    forall i, j | 0 <= i < j < |rows| ensures rows[i].observedAt >= rows[j].observedAt {
      assert lt(rows[i], rows[j]);
    }
  }

  // ----- each reporter's newest report -----

  /** The reports with no newer one by the same reporter about the same target. */
  function Newest(keys: set<Key>): set<Key> {
    set k | k in keys && IsNewest(keys, k)
  }

  predicate IsNewest(keys: set<Key>, k: Key) {
    forall l :: l in keys && l.pair == k.pair ==> l.observedAt <= k.observedAt
  }

  /** The text by which the code tells pairs apart. */
  function MapKey(k: Key): string { Join(k.pair.reporter, k.pair.target) }

  ghost predicate KeysDistinguish(keys: set<Key>) {
    forall k, l :: k in keys && l in keys && MapKey(k) == MapKey(l) ==> k.pair == l.pair
  }

  function At(k: Key): int { k.observedAt }

  ghost predicate Covers<T, S>(text: T -> S, at: T -> int, latest: set<T>, k: T) {
    exists l :: l in latest && text(l) == text(k) && at(l) >= at(k)
  }

  /** One element per text, none of them older than another of that text. */
  ghost predicate FirstPerText<T, S>(text: T -> S, at: T -> int, keys: set<T>, latest: set<T>) {
    && latest <= keys
    && (forall k {:trigger Covers(text, at, latest, k)} :: k in keys ==> Covers(text, at, latest, k))
    && (forall k, l :: k in latest && l in latest && text(k) == text(l) ==> k == l)
  }

  lemma CoversMore<T, S>(text: T -> S, at: T -> int, latest: set<T>, row: T, k: T)
    requires Covers(text, at, latest, k)
    ensures Covers(text, at, latest + {row}, k)
  {
    var l :| l in latest && text(l) == text(k) && at(l) >= at(k);
    assert l in latest + {row};
  }

  lemma FirstPerTextSeen<T, S>(text: T -> S, at: T -> int, keys: set<T>, latest: set<T>, row: T, k: T)
    requires FirstPerText(text, at, keys, latest) && k in keys && at(k) >= at(row) && text(k) == text(row)
    ensures FirstPerText(text, at, keys + {row}, latest)
  {
    assert Covers(text, at, latest, k);
    var l :| l in latest && text(l) == text(k) && at(l) >= at(k);
    assert Covers(text, at, latest, row);
  }

  lemma FirstPerTextNew<T, S>(text: T -> S, at: T -> int, keys: set<T>, latest: set<T>, row: T)
    requires FirstPerText(text, at, keys, latest) && forall k :: k in keys ==> text(k) != text(row)
    ensures FirstPerText(text, at, keys + {row}, latest + {row})
  {
    forall k | k in keys ensures Covers(text, at, latest + {row}, k) {
      assert Covers(text, at, latest, k);
      CoversMore(text, at, latest, row, k);
    }
    assert row in latest + {row};
  }

  lemma NewestOfPair(keys: set<Key>, k: Key) returns (n: Key)
    requires k in keys
    ensures n in Newest(keys) && n.pair == k.pair
  {
    var same := set l | l in keys && l.pair == k.pair;
    assert k in same;
    var m := NewestAt(same);
    n :| n in same && n.observedAt == m;
    forall l | l in keys && l.pair == k.pair ensures l.observedAt <= m { assert l in same; }
  }

  /** Picking the first report per text gives each reporter's newest one exactly when no two pairs share a text. */
  lemma FirstIsNewestIff(keys: set<Key>, latest: set<Key>)
    requires FirstPerText(MapKey, At, keys, latest)
    ensures latest == Newest(keys) <==> KeysDistinguish(keys)
  {
    if KeysDistinguish(keys) {
      FirstIsNewest(keys, latest);
    }
    if latest == Newest(keys) {
      forall k, l | k in keys && l in keys && MapKey(k) == MapKey(l) ensures k.pair == l.pair {
        var m := NewestOfPair(keys, k);
        var n := NewestOfPair(keys, l);
        assert MapKey(m) == MapKey(n);
      }
    }
  }

  lemma FirstIsNewest(keys: set<Key>, latest: set<Key>)
    requires FirstPerText(MapKey, At, keys, latest) && KeysDistinguish(keys)
    ensures latest == Newest(keys)
  {
    forall k | k in keys ensures k in latest <==> IsNewest(keys, k) {
      assert Covers(MapKey, At, latest, k);
      var l :| l in latest && MapKey(l) == MapKey(k) && l.observedAt >= k.observedAt;
      if IsNewest(keys, k) {
        assert k == l;
      }
      if k in latest {
        forall m | m in keys && m.pair == k.pair ensures m.observedAt <= k.observedAt {
          assert Covers(MapKey, At, latest, m);
        }
      }
    }
  }

  /** Reporter ids without ':' keep all texts apart; so does asking for one target only. */
  lemma PlainIdsDistinguish(keys: set<Key>)
    requires forall k :: k in keys ==> ':' !in k.pair.reporter
    ensures KeysDistinguish(keys)
  {
    forall k, l | k in keys && l in keys && MapKey(k) == MapKey(l) ensures k.pair == l.pair {
      JoinInjective(k.pair.reporter, k.pair.target, l.pair.reporter, l.pair.target);
    }
  }

  lemma OneTargetDistinguishes(keys: set<Key>, target: string)
    requires forall k :: k in keys ==> k.pair.target == target
    ensures KeysDistinguish(keys)
  {
    forall k, l | k in keys && l in keys && MapKey(k) == MapKey(l) ensures k.pair == l.pair {
      var a, b := k.pair.reporter, l.pair.reporter;
      assert |a| == |b|;
      assert MapKey(k)[..|a|] == a && MapKey(l)[..|b|] == b;
    }
  }

  /** Otherwise a report can hide another one's: the newest report about "c" is dropped. */
  lemma ColonHidesReport(latest: set<Key>)
    requires FirstPerText(MapKey, At, {Key(Pair("a:b", "c"), 1), Key(Pair("a", "b:c"), 2)}, latest)
    ensures Key(Pair("a:b", "c"), 1) !in latest
  {
    var hidden, other := Key(Pair("a:b", "c"), 1), Key(Pair("a", "b:c"), 2);
    assert MapKey(hidden) == "a:b:c" == MapKey(other);
    assert Covers(MapKey, At, latest, other);
  }

  // ----- the tallies -----

  function OfTarget(keys: set<Key>, target: string): set<Key> {
    set k | k in keys && k.pair.target == target
  }

  function Scores(table: Reports): Key -> nat {
    (k: Key) => if k in table then table[k].score else 0
  }

  ghost function TallyOf(table: Reports, keys: set<Key>): Tally
    requires keys != {}
  {
    Tally(NewestAt(keys), SumOver(keys, Scores(table)), |keys|)
  }

  lemma NewestAtAdd(keys: set<Key>, row: Key)
    requires keys != {} && row !in keys
    ensures NewestAt(keys + {row}) == Max(NewestAt(keys), row.observedAt)
  {}

  lemma TallyAdd(table: Reports, keys: set<Key>, row: Key)
    requires row !in keys
    ensures TallyOf(table, keys + {row}) ==
      Counted(if keys == {} then None else Some(TallyOf(table, keys)), row.observedAt, Scores(table)(row))
  {
    SumOverSplit(keys + {row}, Scores(table), row);
    assert keys + {row} - {row} == keys;
    if keys != {} { NewestAtAdd(keys, row); }
  }

  ghost predicate TalliedAt(table: Reports, keys: set<Key>, tallies: map<string, Tally>, target: string) {
    var own := OfTarget(keys, target);
    if own == {} then target !in tallies else target in tallies && tallies[target] == TallyOf(table, own)
  }

  ghost predicate Tallied(table: Reports, keys: set<Key>, tallies: map<string, Tally>) {
    forall target :: TalliedAt(table, keys, tallies, target)
  }

  lemma OfTargetAdd(keys: set<Key>, row: Key, target: string)
    ensures OfTarget(keys + {row}, target) == OfTarget(keys, target) + (if row.pair.target == target then {row} else {})
  {}

  /** The second loop's update of one entry. */
  function Counted(before: Option<Tally>, observedAt: int, score: nat): Tally {
    match before
    case None => Tally(observedAt, score, 1)
    case Some(t) => Tally(Max(t.lastObservedAt, observedAt), t.scoreSum + score, t.voteCount + 1)
  }

  function Lookup(tallies: map<string, Tally>, target: string): Option<Tally> {
    if target in tallies then Some(tallies[target]) else None
  }

  lemma TalliedOwn(table: Reports, keys: set<Key>, tallies: map<string, Tally>, row: Key, next: Tally)
    requires TalliedAt(table, keys, tallies, row.pair.target) && row !in keys
    requires next == Counted(Lookup(tallies, row.pair.target), row.observedAt, Scores(table)(row))
    ensures TalliedAt(table, keys + {row}, tallies[row.pair.target := next], row.pair.target)
  {
    OfTargetAdd(keys, row, row.pair.target);
    TallyAdd(table, OfTarget(keys, row.pair.target), row);
  }

  lemma TalliedOther(table: Reports, keys: set<Key>, tallies: map<string, Tally>, row: Key, next: Tally, target: string)
    requires TalliedAt(table, keys, tallies, target) && target != row.pair.target
    ensures TalliedAt(table, keys + {row}, tallies[row.pair.target := next], target)
  {
    OfTargetAdd(keys, row, target);
  }

  lemma TalliedAdd(table: Reports, keys: set<Key>, tallies: map<string, Tally>, row: Key, next: Tally)
    requires Tallied(table, keys, tallies) && row !in keys
    requires next == Counted(Lookup(tallies, row.pair.target), row.observedAt, Scores(table)(row))
    ensures Tallied(table, keys + {row}, tallies[row.pair.target := next])
  {
    var more, after := keys + {row}, tallies[row.pair.target := next];
    forall target ensures TalliedAt(table, more, after, target) {
      assert TalliedAt(table, keys, tallies, target);
      if target == row.pair.target {
        TalliedOwn(table, keys, tallies, row, next);
      } else {
        TalliedOther(table, keys, tallies, row, next, target);
      }
    }
  }

  // ----- what an entry has to say -----

  /** Unexpired, and no older than the age limit. */
  ghost predicate IsFresh(table: Reports, now: int, maxAgeSeconds: int, k: Key) {
    k in table && table[k].expiresAt > now && now - k.observedAt <= maxAgeSeconds * 1000
  }

  /** The fresh reports about the target that no fresh one of the same reporter follows. */
  ghost function FreshAbout(table: Reports, now: int, maxAgeSeconds: int, target: string): set<Key> {
    set k | k in table && k.pair.target == target && IsFresh(table, now, maxAgeSeconds, k) &&
      forall l :: IsFresh(table, now, maxAgeSeconds, l) && l.pair == k.pair ==> l.observedAt <= k.observedAt
  }

  /** Mean, number and latest time of these reports. */
  ghost predicate Summarises(table: Reports, own: set<Key>, a: Aggregate) {
    && a.reportCount == |own|
    && a.meanScore * |own| as real == SumOver(own, Scores(table)) as real
    && (forall k :: k in own ==> k in table && Scores(table)(k) == table[k].score)
    && (exists k :: k in own && k.observedAt == a.lastObservedAt)
    && (forall k :: k in own ==> k.observedAt <= a.lastObservedAt)
  }

  /** There is an entry exactly when there is such a report, and it summarises them. */
  ghost predicate IsAnswer(table: Reports, now: int, maxAgeSeconds: int, target: string, found: Option<Aggregate>) {
    var own := FreshAbout(table, now, maxAgeSeconds, target);
    if own == {} then found == None else found.Some? && Summarises(table, own, found.value)
  }

  function Found(aggregates: map<string, Aggregate>, target: string): Option<Aggregate> {
    if target in aggregates then Some(aggregates[target]) else None
  }

  /** Every target asked for has its answer, and no other target has an entry. */
  ghost predicate AllAnswered(table: Reports, now: int, maxAgeSeconds: int, targets: seq<string>,
                              aggregates: map<string, Aggregate>)
  {
    forall target ::
      if targets == [] || target in targets
        then IsAnswer(table, now, maxAgeSeconds, target, Found(aggregates, target))
        else target !in aggregates
  }

  lemma FreshIsNewest(table: Reports, now: int, maxAgeSeconds: int, targets: seq<string>, target: string)
    ensures OfTarget(Newest(Selected(table, now, maxAgeSeconds, targets)), target)
      == if targets == [] || target in targets then FreshAbout(table, now, maxAgeSeconds, target) else {}
  {
    var selected := Selected(table, now, maxAgeSeconds, targets);
    forall k ensures k in selected <==>
      IsFresh(table, now, maxAgeSeconds, k) && (targets == [] || k.pair.target in targets) {}
    if targets == [] || target in targets {
      forall k | k in table && k.pair.target == target
        ensures k in Newest(selected) <==> k in FreshAbout(table, now, maxAgeSeconds, target) {}
    }
  }

  lemma TallySummarises(table: Reports, own: set<Key>)
    requires own != {} && own <= table.Keys
    ensures Summarises(table, own, FromTally(TallyOf(table, own)))
  {
    var sum, count := SumOver(own, Scores(table)) as real, |own| as real;
    assert sum / count * count == sum;
  }

  lemma EntryIsAnswer(table: Reports, now: int, maxAgeSeconds: int, targets: seq<string>, target: string)
    ensures var entry := Entry(table, Selected(table, now, maxAgeSeconds, targets), target);
      if targets == [] || target in targets then IsAnswer(table, now, maxAgeSeconds, target, entry) else entry == None
  {
    FreshIsNewest(table, now, maxAgeSeconds, targets, target);
    var own := OfTarget(Newest(Selected(table, now, maxAgeSeconds, targets)), target);
    if own != {} { TallySummarises(table, own); }
  }

  lemma ExactIsAnswered(table: Reports, now: int, maxAgeSeconds: int, targets: seq<string>,
                        aggregates: map<string, Aggregate>)
    requires Exact(table, Selected(table, now, maxAgeSeconds, targets), aggregates)
    ensures AllAnswered(table, now, maxAgeSeconds, targets, aggregates)
  {
    forall target
      ensures if targets == [] || target in targets
        then IsAnswer(table, now, maxAgeSeconds, target, Found(aggregates, target))
        else target !in aggregates
    {
      EntryIsAnswer(table, now, maxAgeSeconds, targets, target);
      assert Entry(table, Selected(table, now, maxAgeSeconds, targets), target) == Found(aggregates, target);
    }
  }

  // ----- the aggregates -----

  /** What is to be computed for one target: over each reporter's newest report among the selected ones. */
  ghost function Entry(table: Reports, selected: set<Key>, target: string): Option<Aggregate> {
    var own := OfTarget(Newest(selected), target);
    if own == {} then None else Some(FromTally(TallyOf(table, own)))
  }

  function FromTally(t: Tally): Aggregate
    requires t.voteCount > 0
  {
    Aggregate(t.scoreSum as real / t.voteCount as real, t.voteCount, t.lastObservedAt)
  }

  /** Keeps the first row per text. */
  method LatestReports(rows: seq<Key>) returns (latest: seq<Key>)
    requires Descending(rows)
    ensures Distinct(latest) && FirstPerText(MapKey, At, Elems(rows), Elems(latest))
  {
    var seen: set<string> := {};
    latest := [];
    for i := 0 to |rows|
      invariant seen == Texts(MapKey, Elems(rows[..i]))
      invariant Distinct(latest) && FirstPerText(MapKey, At, Elems(rows[..i]), Elems(latest))
    {
      var row := rows[i];
      TextsAdd(MapKey, Elems(rows[..i]), row);
      PrefixStep(rows, i);
      if MapKey(row) !in seen {
        LatestNew(rows, i, latest);
        seen := seen + {MapKey(row)};
        latest := latest + [row];
      } else {
        LatestSeen(rows, i, latest);
      }
    }
    assert rows[..|rows|] == rows;
  }

  lemma LatestNew(rows: seq<Key>, i: nat, latest: seq<Key>)
    requires i < |rows| && Distinct(latest) && FirstPerText(MapKey, At, Elems(rows[..i]), Elems(latest))
    requires MapKey(rows[i]) !in Texts(MapKey, Elems(rows[..i]))
    ensures Distinct(latest + [rows[i]])
    ensures FirstPerText(MapKey, At, Elems(rows[..i + 1]), Elems(latest + [rows[i]]))
  {
    PrefixStep(rows, i);
    ElemsConcat(latest, [rows[i]]);
    TextsAdd(MapKey, Elems(rows[..i]), rows[i]);
    FirstPerTextNew(MapKey, At, Elems(rows[..i]), Elems(latest), rows[i]);
    assert Elems([rows[i]]) == {rows[i]} && rows[i] !in Elems(latest);
  }

  lemma LatestSeen(rows: seq<Key>, i: nat, latest: seq<Key>)
    requires i < |rows| && Descending(rows) && FirstPerText(MapKey, At, Elems(rows[..i]), Elems(latest))
    requires MapKey(rows[i]) in Texts(MapKey, Elems(rows[..i]))
    ensures FirstPerText(MapKey, At, Elems(rows[..i + 1]), Elems(latest))
  {
    PrefixStep(rows, i);
    var k :| k in Elems(rows[..i]) && MapKey(k) == MapKey(rows[i]);
    EarlierIsNewer(rows, i, k);
    FirstPerTextSeen(MapKey, At, Elems(rows[..i]), Elems(latest), rows[i], k);
  }

  ghost function Texts<T, S>(text: T -> S, keys: set<T>): set<S> { set k | k in keys :: text(k) }

  lemma TextsAdd<T, S>(text: T -> S, keys: set<T>, row: T)
    ensures Texts(text, keys + {row}) == Texts(text, keys) + {text(row)}
    ensures text(row) !in Texts(text, keys) ==> forall k :: k in keys ==> text(k) != text(row)
  {}

  lemma EarlierIsNewer(rows: seq<Key>, i: nat, k: Key)
    requires Descending(rows) && i < |rows| && k in Elems(rows[..i])
    ensures k.observedAt >= rows[i].observedAt
  {
    var j := IndexOf(rows, i, k);
  }

  method TallyByTarget(table: Reports, latest: seq<Key>) returns (tallies: map<string, Tally>)
    requires Distinct(latest) && Elems(latest) <= table.Keys
    ensures Tallied(table, Elems(latest), tallies)
  {
    tallies := map[];
    assert OfTarget({}, "") == {};
    for i := 0 to |latest|
      invariant Tallied(table, Elems(latest[..i]), tallies)
    {
      var row := latest[i];
      PrefixStep(latest, i);
      assert row in Elems(latest) && row !in Elems(latest[..i]);
      var next := Counted(Lookup(tallies, row.pair.target), row.observedAt, table[row].score);
      TalliedAdd(table, Elems(latest[..i]), tallies, row, next);
      tallies := tallies[row.pair.target := next];
    }
    assert latest[..|latest|] == latest;
  }

  ghost predicate Exact(table: Reports, selected: set<Key>, aggregates: map<string, Aggregate>) {
    forall target :: Entry(table, selected, target) == (if target in aggregates then Some(aggregates[target]) else None)
  }

  method ComputeCandidateAggregates(tie: KeyOrder, table: Reports, now: int, maxAgeSeconds: int, targets: seq<string>)
    returns (aggregates: map<string, Aggregate>)
    requires StrictTotal(tie)
    ensures var selected := Selected(table, now, maxAgeSeconds, targets);
      && (Exact(table, selected, aggregates) <==> KeysDistinguish(selected))
      && (KeysDistinguish(selected) ==> AllAnswered(table, now, maxAgeSeconds, targets, aggregates))
  {
    var selected := Selected(table, now, maxAgeSeconds, targets);
    var rows := Query(tie, selected);
    var latest := LatestReports(rows);
    var tallies := TallyByTarget(table, latest);
    TallyNotEmpty(table, Elems(latest), tallies);
    aggregates := map target | target in tallies :: FromTally(tallies[target]);
    if KeysDistinguish(selected) {
      FirstIsNewest(selected, Elems(latest));
      ExactFromTallies(table, selected, tallies, aggregates);
      ExactIsAnswered(table, now, maxAgeSeconds, targets, aggregates);
    } else {
      HiddenIsMissed(table, selected, Elems(latest), tallies, aggregates);
    }
  }

  lemma TallyNotEmpty(table: Reports, keys: set<Key>, tallies: map<string, Tally>)
    requires Tallied(table, keys, tallies)
    ensures forall target :: target in tallies ==> tallies[target].voteCount > 0
  {
    forall target | target in tallies ensures tallies[target].voteCount > 0 {
      assert TalliedAt(table, keys, tallies, target);
    }
  }

  lemma ExactFromTallies(table: Reports, selected: set<Key>, tallies: map<string, Tally>,
                         aggregates: map<string, Aggregate>)
    requires Tallied(table, Newest(selected), tallies)
    requires forall target :: target in tallies ==> tallies[target].voteCount > 0
    requires aggregates == map target | target in tallies :: FromTally(tallies[target])
    ensures Exact(table, selected, aggregates)
  {
    forall target
      ensures Entry(table, selected, target) == (if target in aggregates then Some(aggregates[target]) else None)
    {
      assert TalliedAt(table, Newest(selected), tallies, target);
    }
  }

  /** A newest report that was not picked leaves its target's entry short. */
  lemma HiddenIsMissed(table: Reports, selected: set<Key>, latest: set<Key>, tallies: map<string, Tally>,
                       aggregates: map<string, Aggregate>)
    requires FirstPerText(MapKey, At, selected, latest) && !KeysDistinguish(selected)
    requires Tallied(table, latest, tallies)
    requires forall target :: target in tallies ==> tallies[target].voteCount > 0
    requires aggregates == map target | target in tallies :: FromTally(tallies[target])
    ensures !Exact(table, selected, aggregates)
  {
    FirstIsNewestIff(selected, latest);
    PickedAreNewest(selected, latest);
    var k := LeftOut(Newest(selected), latest);
    var target := k.pair.target;
    var own, picked := OfTarget(Newest(selected), target), OfTarget(latest, target);
    assert k in own && picked <= own - {k};
    SubsetSize(picked, own - {k});
    assert TalliedAt(table, latest, tallies, target);
    assert Entry(table, selected, target) != (if target in aggregates then Some(aggregates[target]) else None);
  }

  lemma LeftOut<T>(all: set<T>, some: set<T>) returns (x: T)
    requires some <= all && some != all
    ensures x in all && x !in some
  {
    assert all == some + (all - some);
    x :| x in all - some;
  }

  lemma PickedAreNewest(keys: set<Key>, latest: set<Key>)
    requires FirstPerText(MapKey, At, keys, latest)
    ensures latest <= Newest(keys)
  {
    forall k, m | k in latest && m in keys && m.pair == k.pair ensures m.observedAt <= k.observedAt {
      assert Covers(MapKey, At, latest, m);
    }
  }

  // ----- what the entries mean -----

  function Reporters(keys: set<Key>, target: string): set<string> {
    set k | k in OfTarget(keys, target) :: k.pair.reporter
  }

  /** The mean stays within the range of the scores. */
  lemma MeanWithinRange(table: Reports, selected: set<Key>, target: string)
    requires Entry(table, selected, target).Some?
    ensures 0.0 <= Entry(table, selected, target).value.meanScore <= 100.0
  {
    var own := OfTarget(Newest(selected), target);
    SumOverAtMost(own, Scores(table), 100);
    QuotientBound(SumOver(own, Scores(table)), |own|);
  }

  lemma QuotientBound(sum: nat, count: nat)
    requires count > 0 && sum <= 100 * count
    ensures 0.0 <= sum as real / count as real <= 100.0
  {
    var q := sum as real / count as real;
    assert q * count as real == sum as real;
    if q > 100.0 { assert (q - 100.0) * count as real > 0.0; }
  }

  lemma NewestReporterUnique(selected: set<Key>, k: Key, l: Key)
    requires k in Newest(selected) && l in Newest(selected) && k.pair == l.pair
    ensures k == l
  {
    assert IsNewest(selected, k) && IsNewest(selected, l);
  }

  lemma {:induction false} OneKeyPerReporter(keys: set<Key>, target: string)
    requires forall k, l :: k in keys && l in keys && k.pair == l.pair ==> k == l
    ensures |OfTarget(keys, target)| == |Reporters(keys, target)|
  {
    var own := OfTarget(keys, target);
    if own == {} {
      assert Reporters(keys, target) == {};
    } else {
      var k :| k in own;
      OneKeyPerReporter(keys - {k}, target);
      assert OfTarget(keys - {k}, target) == own - {k};
      assert k.pair == Pair(k.pair.reporter, target);
      assert Reporters(keys - {k}, target) == Reporters(keys, target) - {k.pair.reporter} by {
        forall l | l in own && l.pair.reporter == k.pair.reporter ensures l == k {
          assert l.pair == Pair(l.pair.reporter, target);
        }
      }
    }
  }

  /** An entry exists exactly for a target some selected report is about, and counts each of its reporters once. */
  lemma CountsReporters(table: Reports, selected: set<Key>, target: string)
    ensures Entry(table, selected, target).Some? <==> Reporters(selected, target) != {}
    ensures Entry(table, selected, target).Some? ==>
      Entry(table, selected, target).value.reportCount == |Reporters(selected, target)|
  {
    var newest := Newest(selected);
    assert Reporters(newest, target) == Reporters(selected, target) by {
      forall k | k in OfTarget(selected, target) ensures k.pair.reporter in Reporters(newest, target) {
        var n := NewestOfPair(selected, k);
        assert n in OfTarget(newest, target);
      }
    }
    forall k, l | k in newest && l in newest && k.pair == l.pair ensures k == l {
      NewestReporterUnique(selected, k, l);
    }
    OneKeyPerReporter(newest, target);
    if OfTarget(newest, target) != {} {
      var k :| k in OfTarget(newest, target);
      assert k.pair.reporter in Reporters(newest, target);
    }
  }

  /** Asking for some targets only gives each of them the same entry as asking for all. */
  lemma RestrictedSame(table: Reports, now: int, maxAgeSeconds: int, targets: seq<string>, target: string)
    requires target in targets
    ensures Entry(table, Selected(table, now, maxAgeSeconds, targets), target)
      == Entry(table, Selected(table, now, maxAgeSeconds, []), target)
  {
    var some, all := Selected(table, now, maxAgeSeconds, targets), Selected(table, now, maxAgeSeconds, []);
    assert OfTarget(Newest(some), target) == OfTarget(Newest(all), target) by {
      forall k | k in OfTarget(all, target) ensures IsNewest(some, k) <==> IsNewest(all, k) {
        assert forall l :: l in all && l.pair == k.pair ==> l in some;
      }
    }
  }

  /** While persisting keeps one report per pair, no report is passed over. */
  lemma NothingPassedOver(table: Reports, now: int, maxAgeSeconds: int, targets: seq<string>)
    requires OnePerPair(table, now)
    ensures Newest(Selected(table, now, maxAgeSeconds, targets)) == Selected(table, now, maxAgeSeconds, targets)
  {}

  // ----- the service -----

  datatype Stored = Stored(aggregate: Aggregate, updatedAt: int)

  /** The stored aggregates after one target's was computed anew. */
  ghost function Recomputed(stored: map<string, Stored>, target: string, entry: Option<Aggregate>,
                            now: int): map<string, Stored>
  {
    match entry
    case Some(aggregate) => stored[target := Stored(aggregate, now)]
    case None => stored - {target}
  }

  /** The target's stored aggregate is what its fresh reports say, as of now; the others are as they were. */
  ghost predicate IsRecomputed(reports: Reports, maxAgeSeconds: int, before: map<string, Stored>,
                               after: map<string, Stored>, target: string, now: int)
  {
    && IsAnswer(reports, now, maxAgeSeconds, target, if target in after then Some(after[target].aggregate) else None)
    && (target in after ==> after[target].updatedAt == now)
    && after - {target} == before - {target}
  }

  lemma RecomputedSays(reports: Reports, maxAgeSeconds: int, before: map<string, Stored>, target: string,
                       entry: Option<Aggregate>, now: int)
    requires IsAnswer(reports, now, maxAgeSeconds, target, entry)
    ensures IsRecomputed(reports, maxAgeSeconds, before, Recomputed(before, target, entry, now), target, now)
  {
    var after := Recomputed(before, target, entry, now);
    assert entry == if target in after then Some(after[target].aggregate) else None;
    assert after - {target} == before - {target};
  }

  class ScoreReportService {
    const tie: KeyOrder
    const maxAgeSeconds: int
    var reports: Reports
    var aggregates: map<string, Stored>

    constructor (tie: KeyOrder, maxAgeSeconds: int)
      ensures this.tie == tie && this.maxAgeSeconds == maxAgeSeconds && reports == map[] && aggregates == map[]
    {
      this.tie, this.maxAgeSeconds := tie, maxAgeSeconds;
      reports, aggregates := map[], map[];
    }

    /** Exact whatever the ids look like: only one target is asked for. */
    method RecomputeScoreAggregateForTarget(target: string, now: int)
      requires StrictTotal(tie)
      modifies this`aggregates
      ensures aggregates ==
        Recomputed(old(aggregates), target, Entry(reports, Selected(reports, now, maxAgeSeconds, []), target), now)
      ensures IsRecomputed(reports, maxAgeSeconds, old(aggregates), aggregates, target, now)
    {
      var computed := ComputeCandidateAggregates(tie, reports, now, maxAgeSeconds, [target]);
      ghost var selected := Selected(reports, now, maxAgeSeconds, [target]);
      OneTargetDistinguishes(selected, target);
      RestrictedSame(reports, now, maxAgeSeconds, [target], target);
      EntryIsAnswer(reports, now, maxAgeSeconds, [], target);
      RecomputedSays(reports, maxAgeSeconds, aggregates, target,
          Entry(reports, Selected(reports, now, maxAgeSeconds, []), target), now);
      assert Entry(reports, selected, target) == if target in computed then Some(computed[target]) else None;
      if target in computed {
        aggregates := aggregates[target := Stored(computed[target], now)];
      } else {
        aggregates := aggregates - {target};
      }
    }

    method PersistServerScoreReport(key: Key, report: Report, now: int) returns (stored: bool)
      requires StrictTotal(tie)
      modifies this
      ensures (reports, stored) == Persist(old(reports), now, key, report)
      ensures !stored ==> aggregates == old(aggregates)
      ensures stored ==> aggregates == Recomputed(old(aggregates), key.pair.target,
        Entry(reports, Selected(reports, now, maxAgeSeconds, []), key.pair.target), now)
      ensures stored <==> !HasNewer(old(reports), now, key)
      ensures !stored ==> reports == old(reports)
      ensures stored ==>
        && IsStored(old(reports), reports, now, key, report)
        && IsRecomputed(reports, maxAgeSeconds, old(aggregates), aggregates, key.pair.target, now)
    {
      NotSuperseded(reports, now, key);
      WrittenIsStored(reports, now, key, report);
      assert HasNewer(reports, now, key) <==> Superseded(reports, now, key);
      var live := LiveOf(reports, now, key.pair);
      if live != {} && NewestAt(live) > key.observedAt {
        return false;
      }
      reports := reports[key := report];
      reports := reports - Older(reports, now, key);
      RecomputeScoreAggregateForTarget(key.pair.target, now);
      return true;
    }

    method DeleteExpiredServerScoreReports(now: int)
      modifies this`reports
      ensures State(reports, now) == Step(State(old(reports), now), DeleteExpired)
      ensures IsCleared(old(reports), reports, now)
    {
      reports := map k | k in reports && reports[k].expiresAt > now :: reports[k];
    }
  }
}
