/** Deleting a delivered message from every holder: a first contact with each, and a bounded retry queue for
    those that did not confirm. The code between two awaits is one step, and anything may come in between. */
module DeleteRetry {
  import opened Text
  import opened SyncWire
  import DM = DirectMessages

  datatype Request = Request(messageId: string, recipientPublicKey: string, peerId: string)

  /** The composite text under which a delete is filed. */
  datatype Key = Key(text: string)

  datatype Item = Item(request: Request, attempts: nat, nextAttemptAt: int)

  datatype Config = Config(localPeerId: string, maxRetries: nat, intervalMs: nat)

  /** All that is known under one key. `sending` and `queued` are what the service holds: a first contact
      without an answer yet, a queue item. The other fields record what happened since the delete was passed. */
  datatype Book = Book(request: Request, sending: bool, queued: Option<Item>, contacts: nat, confirmed: bool,
                       exhausted: bool)

  /** An item a run of the retry loop has taken and whose answer it awaits, and when that run began. */
  datatype Retry = Retry(key: Key, item: Item, startedAt: int)

  type Tables = map<string, DM.Queue>

  /** `tables` are the holders' queues; `retrying` has one entry for each run of the loop that awaits an answer. */
  datatype State = State(tables: Tables, now: int, books: map<Key, Book>, retrying: seq<Retry>)

  /** What becomes of one contact: nothing arrives, the answer is lost, or it comes back. */
  datatype Reach = Unreachable | AckLost | Answered

  datatype Event =
    | Pass(request: Request)
    | PassAnswered(key: Key, reach: Reach)
    | RetryBegin(key: Key, startedAt: int)
    | RetryAnswered(place: nat, reach: Reach)
    | Elsewhere(peerId: string, table: DM.Queue)
    | Tick(ms: nat)

  const START: State := State(map[], 0, map[], [])

  function KeyOf(r: Request): Key { Key(Join(r.messageId, r.peerId)) }

  function Table(tables: Tables, peerId: string): DM.Queue {
    if peerId in tables then tables[peerId] else map[]
  }

  ghost predicate HeldNone(tables: Tables, r: Request) { r.messageId !in Table(tables, r.peerId) }

  /** The answer comes back and the target holds no such row, or lets this server delete it for the recipient. */
  ghost predicate Clears(c: Config, tables: Tables, r: Request, reach: Reach) {
    reach.Answered? && (HeldNone(tables, r) || Deletable(c, tables, r))
  }

  ghost predicate Deletable(c: Config, tables: Tables, r: Request) {
    && r.messageId in Table(tables, r.peerId)
    && DM.MayDelete(Table(tables, r.peerId)[r.messageId], r.recipientPublicKey, c.localPeerId)
  }

  /** Of all servers' rows, only the one asked about may be gone: the request arrived and it may be deleted. */
  ghost predicate OnlyThatRow(c: Config, before: Tables, after: Tables, r: Request, reach: Reach) {
    forall peer, id :: SameRow(before, after, peer, id) ||
      (peer == r.peerId && id == r.messageId && !reach.Unreachable? && Deletable(c, before, r) && HeldNone(after, r))
  }

  ghost predicate SameRow(before: Tables, after: Tables, peer: string, id: string) {
    && (id in Table(before, peer) <==> id in Table(after, peer))
    && (id in Table(before, peer) ==> Table(before, peer)[id] == Table(after, peer)[id])
  }

  /** One request: the holders' tables afterwards, and whether the sender counts it as confirmed. */
  function Contact(c: Config, tables: Tables, r: Request, reach: Reach): (answer: (Tables, bool))
    ensures answer.1 <==> Clears(c, tables, r, reach)
    ensures answer.1 ==> HeldNone(answer.0, r)
    ensures OnlyThatRow(c, tables, answer.0, r, reach)
    ensures !reach.Unreachable? && Deletable(c, tables, r) ==> HeldNone(answer.0, r)
  {
    var deletion := DM.Delete(Table(tables, r.peerId), r.messageId, r.recipientPublicKey, c.localPeerId);
    match reach
    case Unreachable => (tables, false)
    case AckLost => (tables[r.peerId := deletion.0], false)
    case Answered => (tables[r.peerId := deletion.0], deletion.1)
  }

  // ----- one key -----

  /** Passing a delete does not look at the queue. */
  function Opened(queued: Option<Item>, r: Request): Book { Book(r, true, queued, 1, false, false) }

  function FirstSettled(c: Config, b: Book, now: int, success: bool): Book {
    if success then b.(sending := false, confirmed := true)
    else b.(sending := false, queued := Some(Item(b.request, 0, now + c.intervalMs)))
  }

  function RetrySettled(c: Config, b: Book, item: Item, startedAt: int, success: bool): Book {
    if success then b.(queued := None, confirmed := true)
    else if item.attempts + 1 >= c.maxRetries then b.(queued := None, exhausted := true)
    else b.(queued := Some(item.(attempts := item.attempts + 1, nextAttemptAt := startedAt + c.intervalMs)))
  }

  // ----- all keys -----

  function Queued(books: map<Key, Book>, key: Key): Option<Item> {
    if key in books then books[key].queued else None
  }

  predicate Due(s: State, key: Key, startedAt: int) {
    Queued(s.books, key).Some? && Queued(s.books, key).value.nextAttemptAt <= startedAt <= s.now
  }

  predicate Sending(s: State, key: Key) { key in s.books && s.books[key].sending }

  predicate RetryOpen(s: State, place: nat) { place < |s.retrying| && s.retrying[place].key in s.books }

  function Step(c: Config, s: State, e: Event): State {
    match e
    case Pass(r) => s.(books := s.books[KeyOf(r) := Opened(Queued(s.books, KeyOf(r)), r)])
    case PassAnswered(key, reach) =>
      if !Sending(s, key) then s
      else
        var answer := Contact(c, s.tables, s.books[key].request, reach);
        s.(tables := answer.0, books := s.books[key := FirstSettled(c, s.books[key], s.now, answer.1)])
    case RetryBegin(key, startedAt) =>
      if !Due(s, key, startedAt) then s
      else
        var b := s.books[key];
        s.(retrying := s.retrying + [Retry(key, b.queued.value, startedAt)],
           books := s.books[key := b.(contacts := b.contacts + 1)])
    case RetryAnswered(place, reach) =>
      if !RetryOpen(s, place) then s
      else
        var Retry(key, item, startedAt) := s.retrying[place];
        var answer := Contact(c, s.tables, item.request, reach);
        s.(tables := answer.0, retrying := s.retrying[..place] + s.retrying[place + 1..],
           books := s.books[key := RetrySettled(c, s.books[key], item, startedAt, answer.1)])
    case Elsewhere(peerId, table) => s.(tables := s.tables[peerId := table])
    case Tick(ms) => s.(now := s.now + ms)
  }

  function Run(c: Config, events: seq<Event>): State {
    if events == [] then START else Step(c, Run(c, events[..|events| - 1]), events[|events| - 1])
  }

  predicate Idle(s: State, key: Key) { !Sending(s, key) && Queued(s.books, key).None? }

  predicate Admitted(s: State, e: Event) {
    && (e.Pass? ==> Idle(s, KeyOf(e.request)))
    && (e.RetryBegin? ==> s.retrying == [])
  }

  /** Nothing is passed again while its delete is still under way, and runs of the retry loop do not overlap. */
  predicate Orderly(c: Config, events: seq<Event>) {
    || events == []
    || (Orderly(c, events[..|events| - 1]) && Admitted(Run(c, events[..|events| - 1]), events[|events| - 1]))
  }

  // ----- every delete is in exactly one place -----

  function One(b: bool): nat { if b then 1 else 0 }

  /** A delete's first contact is out, or it waits in the queue with attempts to spare, or it is confirmed,
      or it is given up: exactly one of the four. */
  predicate InOnePlace(c: Config, b: Book) {
    && One(b.sending) + One(b.queued.Some?) + One(b.confirmed) + One(b.exhausted) == 1
    && (b.queued.Some? ==> b.queued.value.attempts < c.maxRetries)
  }

  /** How often the target was contacted since the delete was passed. */
  predicate Spent(c: Config, b: Book, awaited: bool) {
    && 1 <= b.contacts <= 1 + c.maxRetries
    && (b.sending ==> b.contacts == 1)
    && (b.queued.Some? ==> b.contacts == 1 + b.queued.value.attempts + One(awaited))
    && (b.exhausted ==> b.contacts == 1 + c.maxRetries)
  }

  predicate Good(c: Config, b: Book, awaited: Option<Item>) {
    && InOnePlace(c, b)
    && Spent(c, b, awaited.Some?)
    && (awaited.Some? ==> b.queued == awaited)
    && (b.queued.Some? ==> b.queued.value.request == b.request)
  }

  lemma OpenedIsGood(c: Config, r: Request)
    ensures Good(c, Opened(None, r), None)
  {}

  lemma FirstSettledIsGood(c: Config, b: Book, now: int, success: bool)
    requires Good(c, b, None) && b.sending && c.maxRetries >= 1
    ensures Good(c, FirstSettled(c, b, now, success), None)
  {}

  lemma BegunIsGood(c: Config, b: Book)
    requires Good(c, b, None) && b.queued.Some?
    ensures Good(c, b.(contacts := b.contacts + 1), b.queued)
  {}

  lemma RetrySettledIsGood(c: Config, b: Book, item: Item, startedAt: int, success: bool)
    requires Good(c, b, Some(item))
    ensures Good(c, RetrySettled(c, b, item, startedAt, success), None)
  {}

  function Awaited(s: State, key: Key): Option<Item> {
    if |s.retrying| > 0 && s.retrying[0].key == key then Some(s.retrying[0].item) else None
  }

  ghost predicate GoodAt(c: Config, s: State, key: Key) {
    if key in s.books then Good(c, s.books[key], Awaited(s, key)) else Awaited(s, key).None?
  }

  ghost predicate Inv(c: Config, s: State) { |s.retrying| <= 1 && forall key :: GoodAt(c, s, key) }

  lemma StepKeepsGoodAt(c: Config, s: State, e: Event, key: Key)
    requires Inv(c, s) && Admitted(s, e) && c.maxRetries >= 1
    ensures GoodAt(c, Step(c, s, e), key)
  {
    assert GoodAt(c, s, key);
    match e
    case Pass(r) =>
      if key == KeyOf(r) { OpenedIsGood(c, r); }
    case PassAnswered(answered, reach) =>
      if answered == key && Sending(s, key) {
        var answer := Contact(c, s.tables, s.books[key].request, reach);
        FirstSettledIsGood(c, s.books[key], s.now, answer.1);
      }
    case RetryBegin(begun, startedAt) =>
      if begun == key && Due(s, key, startedAt) { BegunIsGood(c, s.books[key]); }
    case RetryAnswered(place, reach) =>
      if RetryOpen(s, place) && s.retrying[place].key == key {
        var answer := Contact(c, s.tables, s.retrying[place].item.request, reach);
        RetrySettledIsGood(c, s.books[key], s.retrying[place].item, s.retrying[place].startedAt, answer.1);
      }
    case _ =>
  }

  lemma StepKeepsInv(c: Config, s: State, e: Event)
    requires Inv(c, s) && Admitted(s, e) && c.maxRetries >= 1
    ensures Inv(c, Step(c, s, e))
  {
    forall key ensures GoodAt(c, Step(c, s, e), key) { StepKeepsGoodAt(c, s, e, key); }
  }

  lemma {:induction false} RunKeepsInv(c: Config, events: seq<Event>)
    requires Orderly(c, events) && c.maxRetries >= 1
    ensures Inv(c, Run(c, events))
  {
    if events != [] {
      RunKeepsInv(c, events[..|events| - 1]);
      StepKeepsInv(c, Run(c, events[..|events| - 1]), events[|events| - 1]);
    }
  }

  predicate NotLost(c: Config, b: Book) {
    && InOnePlace(c, b)
    && 1 <= b.contacts <= 1 + c.maxRetries
    && (b.exhausted ==> b.contacts == 1 + c.maxRetries)
  }

  /** No delete is lost: after any orderly run, each one that was passed is in exactly one place; its target
      was contacted at most once plus once per retry, and it is given up only after all of these. */
  lemma NoDeleteIsLost(c: Config, events: seq<Event>, key: Key)
    requires Orderly(c, events) && c.maxRetries >= 1 && key in Run(c, events).books
    ensures NotLost(c, Run(c, events).books[key])
  {
    RunKeepsInv(c, events);
    assert GoodAt(c, Run(c, events), key);
  }

  /** Under one key only one message and one target are ever filed, when message ids hold no ':'. */
  lemma KeyNamesOneDelete(r: Request, q: Request)
    requires ':' !in r.messageId && ':' !in q.messageId && KeyOf(r) == KeyOf(q)
    ensures r.messageId == q.messageId && r.peerId == q.peerId
  {
    JoinInjective(r.messageId, r.peerId, q.messageId, q.peerId);
  }

  // ----- confirmed means gone -----

  predicate Confirmed(s: State, key: Key) { key in s.books && s.books[key].confirmed }

  /** An answer that came back. */
  predicate IsAnswer(e: Event) { (e.PassAnswered? || e.RetryAnswered?) && e.reach.Answered? }

  /** What confirms a delete is an answer, and it leaves the target without the row. */
  lemma ConfirmingStep(c: Config, s: State, e: Event, key: Key)
    requires Inv(c, s) && Confirmed(Step(c, s, e), key)
    ensures key in s.books && Step(c, s, e).books[key].request == s.books[key].request
    ensures !Confirmed(s, key) ==> IsAnswer(e) && HeldNone(Step(c, s, e).tables, s.books[key].request)
  {
    assert GoodAt(c, s, key);
  }

  /** The n-th event was the answer that confirmed the delete `r`, and when it came the target held no such row. */
  ghost predicate ConfirmedBy(c: Config, events: seq<Event>, n: int, key: Key, r: Request) {
    && 1 <= n <= |events| && IsAnswer(events[n - 1])
    && !Confirmed(Run(c, events[..n - 1]), key) && Confirmed(Run(c, events[..n]), key)
    && Run(c, events[..n]).books[key].request == r
    && HeldNone(Run(c, events[..n]).tables, r)
  }

  lemma ConfirmedByEarlier(c: Config, events: seq<Event>, n: int, key: Key, r: Request)
    requires events != [] && ConfirmedBy(c, events[..|events| - 1], n, key, r)
    ensures ConfirmedBy(c, events, n, key, r)
  {
    assert events[..n] == events[..|events| - 1][..n] && events[..n - 1] == events[..|events| - 1][..n - 1];
  }

  /** Confirmed means gone: whenever a delete counts as confirmed, an answer has confirmed that very request, and
      the target held no such row when it answered. */
  lemma {:induction false} ConfirmedWasClear(c: Config, events: seq<Event>, key: Key) returns (n: nat)
    requires Orderly(c, events) && c.maxRetries >= 1 && Confirmed(Run(c, events), key)
    ensures ConfirmedBy(c, events, n, key, Run(c, events).books[key].request)
  {
    var before := events[..|events| - 1];
    RunKeepsInv(c, before);
    ConfirmingStep(c, Run(c, before), events[|events| - 1], key);
    if Confirmed(Run(c, before), key) {
      n := ConfirmedWasClear(c, before, key);
      ConfirmedByEarlier(c, events, n, key, Run(c, events).books[key].request);
    } else {
      n := |events|;
      assert events[..n] == events && events[..n - 1] == before;
    }
  }

  // ----- passing a delete that is still queued -----

  function PassOne(c: Config, s: State, r: Request, reach: Reach): State {
    Step(c, Step(c, s, Pass(r)), PassAnswered(KeyOf(r), reach))
  }

  /** Passing a delete and hearing back keeps it in one place exactly when it was not queued already, or the
      new contact failed as well. */
  lemma PassedAgain(c: Config, s: State, r: Request, reach: Reach)
    requires !Sending(s, KeyOf(r)) && c.maxRetries >= 1
    ensures KeyOf(r) in PassOne(c, s, r, reach).books
    ensures InOnePlace(c, PassOne(c, s, r, reach).books[KeyOf(r)])
      <==> Queued(s.books, KeyOf(r)).None? || !Contact(c, s.tables, r, reach).1
  {}

  /** So a delete can be confirmed and queued at once. */
  lemma ConfirmedAndQueued(c: Config, r: Request)
    ensures var s := PassOne(c, PassOne(c, START, r, Unreachable), r, Answered);
      Confirmed(s, KeyOf(r)) && Queued(s.books, KeyOf(r)).Some?
  {
    var s := PassOne(c, START, r, Unreachable);
    assert s.tables == map[] && Queued(s.books, KeyOf(r)).Some?;
    assert Contact(c, s.tables, r, Answered).1;
  }

  // ----- retry runs that overlap -----

  /** Both runs hear back, in the order in which they took the item. */
  function BothAnswered(c: Config, s: State, first: Reach, second: Reach): State {
    Step(c, Step(c, s, RetryAnswered(0, first)), RetryAnswered(0, second))
  }

  /** Two runs that both took the same item and then hear back in turn leave the delete in one place exactly
      when they heard the same, or the first only put the item back. */
  lemma OverlappingRetries(c: Config, s: State, key: Key, item: Item, firstAt: int, secondAt: int, first: Reach,
                           second: Reach)
    requires key in s.books && InOnePlace(c, s.books[key]) && s.books[key].queued == Some(item)
    requires s.retrying == [Retry(key, item, firstAt), Retry(key, item, secondAt)]
    ensures key in BothAnswered(c, s, first, second).books
    ensures var answer := Contact(c, s.tables, item.request, first);
      var again := Contact(c, answer.0, item.request, second);
      (InOnePlace(c, BothAnswered(c, s, first, second).books[key]) <==>
        (answer.1 == again.1 || (!answer.1 && item.attempts + 1 < c.maxRetries)))
  {
    assert Step(c, s, RetryAnswered(0, first)).retrying == [Retry(key, item, secondAt)];
  }

  // A reachable case: a first contact fails; two runs take the item; the first hears that the row is gone, the
  // second nothing.

  function FailedOnce(c: Config, r: Request): seq<Event> {
    [] + [Pass(r)] + [PassAnswered(KeyOf(r), Unreachable)] + [Tick(c.intervalMs)]
  }

  function TakenTwice(c: Config, r: Request): seq<Event> {
    FailedOnce(c, r) + [RetryBegin(KeyOf(r), c.intervalMs)] + [RetryBegin(KeyOf(r), c.intervalMs)]
  }

  function OverlappingRun(c: Config, r: Request): seq<Event> {
    TakenTwice(c, r) + [RetryAnswered(0, Answered)] + [RetryAnswered(0, Unreachable)]
  }

  lemma RunLast(c: Config, events: seq<Event>, e: Event)
    ensures Run(c, events + [e]) == Step(c, Run(c, events), e)
  {
    assert (events + [e])[..|events|] == events;
  }

  lemma AfterFailedOnce(c: Config, r: Request)
    ensures Run(c, FailedOnce(c, r)) == State(map[], c.intervalMs,
      map[KeyOf(r) := Book(r, false, Some(Item(r, 0, c.intervalMs)), 1, false, false)], [])
  {
    RunLast(c, [], Pass(r));
    RunLast(c, [] + [Pass(r)], PassAnswered(KeyOf(r), Unreachable));
    RunLast(c, [] + [Pass(r)] + [PassAnswered(KeyOf(r), Unreachable)], Tick(c.intervalMs));
  }

  lemma AfterTakenTwice(c: Config, r: Request)
    ensures var item := Item(r, 0, c.intervalMs); var retry := Retry(KeyOf(r), item, c.intervalMs);
      Run(c, TakenTwice(c, r)) ==
      State(map[], c.intervalMs, map[KeyOf(r) := Book(r, false, Some(item), 3, false, false)], [retry, retry])
  {
    AfterFailedOnce(c, r);
    RunLast(c, FailedOnce(c, r), RetryBegin(KeyOf(r), c.intervalMs));
    RunLast(c, FailedOnce(c, r) + [RetryBegin(KeyOf(r), c.intervalMs)], RetryBegin(KeyOf(r), c.intervalMs));
  }

  /** So overlapping runs can leave a delete confirmed and queued. */
  lemma OverlapConfirmsAndQueues(c: Config, r: Request)
    requires c.maxRetries >= 2
    ensures var s := Run(c, OverlappingRun(c, r)); Confirmed(s, KeyOf(r)) && Queued(s.books, KeyOf(r)).Some?
  {
    var taken := TakenTwice(c, r);
    AfterTakenTwice(c, r);
    RunLast(c, taken, RetryAnswered(0, Answered));
    RunLast(c, taken + [RetryAnswered(0, Answered)], RetryAnswered(0, Unreachable));
    BothAnsweredQueues(c, Run(c, taken), KeyOf(r));
  }

  lemma BothAnsweredQueues(c: Config, s: State, key: Key)
    requires c.maxRetries >= 2 && s.tables == map[] && key in s.books && |s.retrying| == 2 &&
      s.retrying[0] == s.retrying[1]
    requires s.retrying[0].key == key && s.retrying[0].item.attempts == 0
    ensures var t := BothAnswered(c, s, Answered, Unreachable); Confirmed(t, key) && Queued(t.books, key).Some?
  {
    assert Contact(c, map[], s.retrying[0].item.request, Answered).1;
    assert Step(c, s, RetryAnswered(0, Answered)).retrying == [s.retrying[1]];
  }
}
