/** Reports of one peer about another: which of them the table keeps. A persist is one step here; the last
    section says what happens when another one comes between its query and its writes. */
module ScoreReports {
  import opened Ordering

  /** Who reports about whom. */
  datatype Pair = Pair(reporter: string, target: string)

  /** The table's unique key. */
  datatype Key = Key(pair: Pair, observedAt: int)

  type Score = s: nat | s <= 100

  datatype Report = Report(score: Score, expiresAt: int)

  type Reports = map<Key, Report>

  datatype State = State(table: Reports, now: int)

  datatype Event = Arrive(key: Key, report: Report) | DeleteExpired | Tick(ms: nat)

  /** The unexpired reports. */
  function Live(table: Reports, now: int): set<Key> {
    set k | k in table && table[k].expiresAt > now
  }

  function LiveOf(table: Reports, now: int, pair: Pair): set<Key> {
    set k | k in Live(table, now) && k.pair == pair
  }

  predicate Later(a: int, b: int) { a > b }

  lemma LaterIsStrictTotal()
    ensures StrictTotal(Later)
  {
    forall a: int, b: int ensures a == b || Later(a, b) || Later(b, a) {}
    forall a: int, b: int, c: int | Later(a, b) && Later(b, c) ensures Later(a, c) {}
  }

  function ObservedAt(keys: set<Key>): set<int> { set k | k in keys :: k.observedAt }

  /** The newest observation among the given reports. */
  function NewestAt(keys: set<Key>): (m: int)
    requires keys != {}
    ensures exists k :: k in keys && k.observedAt == m
    ensures forall k :: k in keys ==> k.observedAt <= m
  {
    LaterIsStrictTotal();
    assert ObservedAt(keys) != {} by { var k :| k in keys; assert k.observedAt in ObservedAt(keys); }
    var m := Least(Later, ObservedAt(keys));
    assert forall k :: k in keys ==> k.observedAt in ObservedAt(keys);
    m
  }

  predicate Superseded(table: Reports, now: int, key: Key) {
    var live := LiveOf(table, now, key.pair);
    live != {} && NewestAt(live) > key.observedAt
  }

  function Older(table: Reports, now: int, key: Key): set<Key> {
    set k | k in LiveOf(table, now, key.pair) && k.observedAt < key.observedAt
  }

  /** The two writes: upsert, then delete the older unexpired reports of the pair. */
  function Write(table: Reports, now: int, key: Key, report: Report): Reports {
    var upserted := table[key := report];
    upserted - Older(upserted, now, key)
  }

  function Persist(table: Reports, now: int, key: Key, report: Report): (Reports, bool) {
    if Superseded(table, now, key) then (table, false) else (Write(table, now, key, report), true)
  }

  // ----- what is in the table afterwards -----

  /** Some unexpired report of the pair is newer. */
  ghost predicate HasNewer(table: Reports, now: int, key: Key) {
    exists k :: k in table && table[k].expiresAt > now && k.pair == key.pair && k.observedAt > key.observedAt
  }

  /** The report is in the table, the unexpired older ones of its pair are not, and the others are as they were. */
  ghost predicate IsStored(before: Reports, after: Reports, now: int, key: Key, report: Report) {
    && key in after && after[key] == report
    && forall k: Key :: k != key ==> OtherStored(before, after, now, key, k)
  }

  ghost predicate OtherStored(before: Reports, after: Reports, now: int, key: Key, k: Key) {
    && (k in after <==>
        k in before && !(k.pair == key.pair && k.observedAt < key.observedAt && before[k].expiresAt > now))
    && (k in after ==> after[k] == before[k])
  }

  /** Exactly the unexpired reports are left. */
  ghost predicate IsCleared(before: Reports, after: Reports, now: int) {
    && (forall k :: k in after <==> k in before && before[k].expiresAt > now)
    && (forall k :: k in after ==> after[k] == before[k])
  }

  lemma WrittenIsStored(table: Reports, now: int, key: Key, report: Report)
    ensures IsStored(table, Write(table, now, key, report), now, key, report)
  {}

  /** What each event does to the table. */
  lemma ArrivalStores(s: State, key: Key, report: Report)
    ensures var after := Step(s, Arrive(key, report));
      && after.now == s.now
      && if HasNewer(s.table, s.now, key) then after.table == s.table
         else IsStored(s.table, after.table, s.now, key, report)
  {
    NotSuperseded(s.table, s.now, key);
    WrittenIsStored(s.table, s.now, key, report);
    assert HasNewer(s.table, s.now, key) <==> Superseded(s.table, s.now, key);
  }

  function Step(s: State, e: Event): State {
    match e
    case Arrive(key, report) => s.(table := Persist(s.table, s.now, key, report).0)
    case DeleteExpired => s.(table := map k | k in s.table && s.table[k].expiresAt > s.now :: s.table[k])
    case Tick(ms) => s.(now := s.now + ms)
  }

  function Run(start: State, events: seq<Event>): State {
    if events == [] then start else Step(Run(start, events[..|events| - 1]), events[|events| - 1])
  }

  /** At most one unexpired report per reporter and target. */
  ghost predicate OnePerPair(table: Reports, now: int) {
    forall k, l :: k in Live(table, now) && l in Live(table, now) && k.pair == l.pair ==> k == l
  }

  lemma WriteLive(table: Reports, now: int, key: Key, report: Report)
    ensures Live(Write(table, now, key, report), now) ==
      Live(table[key := report], now) - Older(table[key := report], now, key)
    ensures forall k: Key | k != key && k.pair == key.pair ::
      k in Live(Write(table, now, key, report), now) <==> k in Live(table, now) && k.observedAt > key.observedAt
    ensures forall k: Key ::
      k.pair != key.pair ==> (k in Live(Write(table, now, key, report), now) <==> k in Live(table, now))
    ensures key in Live(Write(table, now, key, report), now) <==> report.expiresAt > now
  {}

  lemma NotSuperseded(table: Reports, now: int, key: Key)
    ensures Superseded(table, now, key) <==> exists k ::
      k in Live(table, now) && k.pair == key.pair && k.observedAt > key.observedAt
  {
    var live := LiveOf(table, now, key.pair);
    if k :| k in Live(table, now) && k.pair == key.pair && k.observedAt > key.observedAt {
      assert k in live;
    }
    if Superseded(table, now, key) {
      var k :| k in live && k.observedAt == NewestAt(live);
    }
  }

  lemma PersistKeepsOne(table: Reports, now: int, key: Key, report: Report)
    requires OnePerPair(table, now)
    ensures OnePerPair(Persist(table, now, key, report).0, now)
  {
    NotSuperseded(table, now, key);
    WriteLive(table, now, key, report);
  }

  lemma StepKeepsOne(s: State, e: Event)
    requires OnePerPair(s.table, s.now)
    ensures OnePerPair(Step(s, e).table, Step(s, e).now)
  {
    match e
    case Arrive(key, report) => PersistKeepsOne(s.table, s.now, key, report);
    case DeleteExpired =>
    case Tick(ms) => assert Live(s.table, s.now + ms) <= Live(s.table, s.now);
  }

  /** Whatever arrives and expires, there is never more than one unexpired report per pair. */
  lemma {:induction false} RunKeepsOne(start: State, events: seq<Event>)
    requires OnePerPair(start.table, start.now)
    ensures OnePerPair(Run(start, events).table, Run(start, events).now)
  {
    if events != [] {
      RunKeepsOne(start, events[..|events| - 1]);
      StepKeepsOne(Run(start, events[..|events| - 1]), events[|events| - 1]);
    }
  }

  ghost predicate Shows(s: State, pair: Pair, observedAt: int) { Key(pair, observedAt) in Live(s.table, s.now) }

  lemma StepNeverGoesBack(s: State, e: Event, pair: Pair, before: int, after: int)
    requires OnePerPair(s.table, s.now) && Shows(s, pair, before) && Shows(Step(s, e), pair, after)
    ensures before <= after
  {
    match e
    case Arrive(key, report) =>
      NotSuperseded(s.table, s.now, key);
      WriteLive(s.table, s.now, key, report);
      assert Key(pair, before) in Live(s.table, s.now);
    case DeleteExpired => assert Key(pair, after) in Live(s.table, s.now);
    case Tick(ms) => assert Key(pair, after) in Live(s.table, s.now);
  }

  ghost predicate Shown(s: State, pair: Pair) { exists at :: Shows(s, pair, at) }

  /** The pair has an unexpired report after every prefix of the run. */
  ghost predicate AlwaysShown(start: State, events: seq<Event>, pair: Pair) {
    forall n :: 0 <= n <= |events| ==> Shown(Run(start, events[..n]), pair)
  }

  /** What is observed of a pair never goes back while it is shown without a gap. */
  lemma {:induction false} NeverGoesBack(start: State, events: seq<Event>, pair: Pair, before: int, after: int)
    requires OnePerPair(start.table, start.now) && AlwaysShown(start, events, pair)
    requires Shows(start, pair, before) && Shows(Run(start, events), pair, after)
    ensures before <= after
  {
    if events == [] {
      assert Key(pair, before) in Live(start.table, start.now) && Key(pair, after) in Live(start.table, start.now);
    } else {
      var most := events[..|events| - 1];
      assert events[..|most|] == most && Shown(Run(start, events[..|most|]), pair);
      assert AlwaysShown(start, most, pair) by {
        forall n | 0 <= n <= |most| ensures Shown(Run(start, most[..n]), pair) {
          assert most[..n] == events[..n];
        }
      }
      var between :| Shows(Run(start, most), pair, between);
      NeverGoesBack(start, most, pair, before, between);
      RunKeepsOne(start, most);
      StepNeverGoesBack(Run(start, most), events[|most|], pair, between, after);
    }
  }

  // ----- a persist cut in two by another one -----

  /** Writing after a decision taken on an older table leaves one report per pair exactly when the decision
      still stands, or the report is expired on arrival. */
  lemma LateWriteKeepsOneIff(table: Reports, now: int, key: Key, report: Report)
    requires OnePerPair(table, now)
    ensures OnePerPair(Write(table, now, key, report), now) <==> !Superseded(table, now, key) || report.expiresAt <= now
  {
    NotSuperseded(table, now, key);
    WriteLive(table, now, key, report);
    if Superseded(table, now, key) {
      var k :| k in Live(table, now) && k.pair == key.pair && k.observedAt > key.observedAt;
      assert k in Live(Write(table, now, key, report), now);
    }
  }

  /** Two persists of one pair that both looked before either wrote can leave two unexpired reports. */
  lemma CrossedPersistsLeaveTwo(pair: Pair, report: Report)
    requires report.expiresAt > 0
    ensures var newer, older := Key(pair, 7), Key(pair, 5);
      && !Superseded(map[], 0, newer) && !Superseded(map[], 0, older)
      && !OnePerPair(Write(Write(map[], 0, newer, report), 0, older, report), 0)
  {
    var newer, older := Key(pair, 7), Key(pair, 5);
    var first := Write(map[], 0, newer, report);
    NotSuperseded(map[], 0, newer);
    NotSuperseded(map[], 0, older);
    WriteLive(map[], 0, newer, report);
    WriteLive(first, 0, older, report);
    assert newer in Live(first, 0) && newer.observedAt > older.observedAt;
    assert OnePerPair(first, 0);
    NotSuperseded(first, 0, older);
    LateWriteKeepsOneIff(first, 0, older, report);
  }
}
