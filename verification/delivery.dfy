/** Reliable delivery to the sessions of one node: the pending hashes in Redis, the retry timers, and the
    clock. Every handler is one step. */
module Delivery {

  /** A stored envelope. */
  datatype Pending = Pending(attempt: nat, sentAt: int, body: string)

  /** The pending hash of one session; Redis drops it when the deadline passes. */
  datatype Hash = Hash(fields: map<string, Pending>, deadline: int)

  /** Session id and event id. */
  type Key = (string, string)

  datatype Entry =
    | Sent(key: Key, attempt: nat, body: string)
    | Fired(key: Key)
    | Exhausted(key: Key)

  /** `timers` holds when each retry timer is due; `log` lists first and retry sends and timer firings
      (replayed sends are not listed); `delivered` the keys that have been delivered. */
  datatype State = State(pending: map<string, Hash>, timers: map<Key, int>, clock: int, log: seq<Entry>,
                         delivered: set<Key>)

  datatype Config = Config(maxRetries: nat, reconnectGraceMs: int)

  datatype Event =
    | Deliver(session: string, event: string, body: string, hasClient: bool)
    | Ack(session: string, event: string)
    | Resume(session: string, hasClient: bool)
    | Touch(session: string)
    | Fire(session: string, event: string, hasClient: bool)
    | Tick(ms: nat)

  const EMPTY: State := State(map[], map[], 0, [], {})

  const LONGEST_BACKOFF: int := 30_000

  const RETRY_BACKOFF_MS: seq<int> := [2_000, 4_000, 8_000, 16_000, 30_000]

  function Backoff(attempt: nat): (ms: int)
    ensures 0 < ms <= LONGEST_BACKOFF
    ensures attempt < 4 ==> ms == if attempt < 2 then 2_000 * (attempt + 1) else 8_000 * (attempt - 1)
    ensures attempt >= 4 ==> ms == 30_000
  {
    RETRY_BACKOFF_MS[if attempt < |RETRY_BACKOFF_MS| - 1 then attempt else |RETRY_BACKOFF_MS| - 1]
  }

  function SessionTtl(c: Config): int { c.reconnectGraceMs + 30_000 }

  predicate IsPending(s: State, k: Key) { k.0 in s.pending && k.1 in s.pending[k.0].fields }

  function PendingAt(s: State, k: Key): Pending
    requires IsPending(s, k)
  {
    s.pending[k.0].fields[k.1]
  }

  // ----- the Redis commands -----

  /** hset and pexpire in one transaction. */
  function StorePending(pending: map<string, Hash>, k: Key, p: Pending, deadline: int): map<string, Hash> {
    var fields := if k.0 in pending then pending[k.0].fields else map[];
    pending[k.0 := Hash(fields[k.1 := p], deadline)]
  }

  /** hdel; an emptied hash disappears. */
  function DeletePending(pending: map<string, Hash>, k: Key): map<string, Hash> {
    if k.0 !in pending || k.1 !in pending[k.0].fields then pending
    else if pending[k.0].fields - {k.1} == map[] then pending - {k.0}
    else pending[k.0 := pending[k.0].(fields := pending[k.0].fields - {k.1})]
  }

  /** pexpire; nothing happens without a hash. */
  function TouchPending(pending: map<string, Hash>, session: string, deadline: int): map<string, Hash> {
    if session !in pending then pending else pending[session := pending[session].(deadline := deadline)]
  }

  /** Time passes in Redis. */
  function DropExpired(pending: map<string, Hash>, now: int): map<string, Hash> {
    map session | session in pending && pending[session].deadline > now :: pending[session]
  }

  // ----- the handlers -----

  /** Set the timers of the given events anew. */
  function RescheduleSome(timers: map<Key, int>, fields: map<string, Pending>, events: set<string>, session: string,
                          clock: int): map<Key, int>
    requires events <= fields.Keys
  {
    map k | k in timers.Keys + (set e | e in events :: (session, e)) ::
      if k.0 == session && k.1 in events then clock + Backoff(fields[k.1].attempt) else timers[k]
  }

  function Rescheduled(s: State, session: string): map<Key, int>
    requires session in s.pending
  {
    var fields := s.pending[session].fields;
    RescheduleSome(s.timers, fields, fields.Keys, session, s.clock)
  }

  function Step(c: Config, s: State, e: Event): State {
    match e
    case Deliver(session, event, body, hasClient) =>
      if !hasClient then s
      else
        var k := (session, event);
        s.(pending := StorePending(s.pending, k, Pending(0, s.clock, body), s.clock + SessionTtl(c)),
           timers := s.timers[k := s.clock + Backoff(0)],
           log := s.log + [Sent(k, 0, body)],
           delivered := s.delivered + {k})
    case Ack(session, event) =>
      s.(pending := DeletePending(s.pending, (session, event)), timers := s.timers - {(session, event)})
    case Resume(session, hasClient) =>
      var t := s.(pending := TouchPending(s.pending, session, s.clock + SessionTtl(c)));
      if hasClient && session in t.pending then t.(timers := Rescheduled(t, session)) else t
    case Touch(session) => s.(pending := TouchPending(s.pending, session, s.clock + SessionTtl(c)))
    case Fire(session, event, hasClient) =>
      var k := (session, event);
      if k !in s.timers || s.timers[k] > s.clock then s else HandleRetryTimeout(c, s, k, hasClient)
    case Tick(ms) => s.(clock := s.clock + ms, pending := DropExpired(s.pending, s.clock + ms))
  }

  function HandleRetryTimeout(c: Config, s: State, k: Key, hasClient: bool): State {
    var fired := s.log + [Fired(k)];
    if !IsPending(s, k) then s.(timers := s.timers - {k}, log := fired)
    else
      var p := PendingAt(s, k);
      if p.attempt >= c.maxRetries then
        s.(pending := DeletePending(s.pending, k), timers := s.timers - {k}, log := fired + [Exhausted(k)])
      else
        StoreRetry(c, s.(log := fired), k, p, hasClient)
  }

  /** The part of the timeout handler after its first await. */
  function StoreRetry(c: Config, s: State, k: Key, p: Pending, hasClient: bool): State {
    s.(pending := StorePending(s.pending, k, p.(attempt := p.attempt + 1), s.clock + SessionTtl(c)),
       timers := s.timers[k := s.clock + Backoff(p.attempt + 1)],
       log := s.log + (if hasClient then [Sent(k, p.attempt + 1, p.body)] else []))
  }

  /** Event ids are fresh: no key is delivered twice. */
  predicate Enabled(s: State, e: Event) {
    e.Deliver? ==> (e.session, e.event) !in s.delivered
  }

  function Run(c: Config, events: seq<Event>): State {
    if events == [] then EMPTY else Step(c, Run(c, events[..|events| - 1]), events[|events| - 1])
  }

  predicate AllEnabled(c: Config, events: seq<Event>) {
    events == [] || (AllEnabled(c, events[..|events| - 1]) &&
      Enabled(Run(c, events[..|events| - 1]), events[|events| - 1]))
  }

  // ----- what a handler does to one envelope -----

  /** Nothing about the stored envelopes of other keys is different. */
  ghost predicate OthersStored(s: State, t: State, k: Key) {
    forall j: Key :: j != k ==> SameStored(s, t, j)
  }

  ghost predicate SameStored(s: State, t: State, j: Key) {
    && (IsPending(t, j) <==> IsPending(s, j))
    && (IsPending(s, j) ==> PendingAt(t, j) == PendingAt(s, j))
  }

  /** The envelope is stored for another session lifetime and due again after the given wait. */
  ghost predicate Stores(c: Config, s: State, t: State, k: Key, p: Pending, wait: int) {
    && IsPending(t, k) && PendingAt(t, k) == p && OthersStored(s, t, k)
    && t.pending[k.0].deadline == s.clock + c.reconnectGraceMs + 30_000
    && t.timers == s.timers[k := s.clock + wait]
  }

  /** The envelope and its timer are gone. */
  ghost predicate Forgets(s: State, t: State, k: Key) {
    !IsPending(t, k) && OthersStored(s, t, k) && t.timers == s.timers - {k}
  }

  lemma StoredIsStored(c: Config, s: State, t: State, k: Key, p: Pending, wait: int)
    requires t.pending == StorePending(s.pending, k, p, s.clock + SessionTtl(c))
    requires t.timers == s.timers[k := s.clock + wait]
    ensures Stores(c, s, t, k, p, wait)
  {}

  lemma DeletedIsForgotten(s: State, t: State, k: Key)
    requires t.pending == DeletePending(s.pending, k) && t.timers == s.timers - {k}
    ensures Forgets(s, t, k)
  {
    forall j: Key | j != k ensures SameStored(s, t, j) { DeletePendingFields(s, k, j); }
    DeletePendingFields(s, k, k);
  }

  // ----- what is stored and sent is what was delivered -----

  /** The event gives the key to a session with a socket. */
  predicate Delivers(e: Event, k: Key) { e.Deliver? && e.hasClient && (e.session, e.event) == k }

  ghost predicate SentAs(x: Entry, k: Key, body: string) { x.Sent? && x.key == k ==> x.body == body }

  /** What is stored for the key and every first or retry send of it have this content. */
  ghost predicate Carries(s: State, k: Key, body: string, sentAt: int) {
    && (IsPending(s, k) ==> PendingAt(s, k).body == body && PendingAt(s, k).sentAt == sentAt)
    && forall x :: x in s.log ==> SentAs(x, k, body)
  }

  /** Nothing is stored for the key and nothing was ever sent. */
  ghost predicate Untouched(s: State, k: Key) {
    && k !in s.delivered && !IsPending(s, k)
    && forall x :: x in s.log ==> !(x.Sent? && x.key == k)
  }

  /** The same, if the log and the store grow by one entry and one envelope. */
  lemma StoreCarries(s: State, t: State, j: Key, p: Pending, deadline: int, more: seq<Entry>, k: Key,
                     body: string, sentAt: int)
    requires Carries(s, k, body, sentAt)
    requires t.pending == StorePending(s.pending, j, p, deadline) && t.log == s.log + more
    requires j == k ==> p.body == body && p.sentAt == sentAt
    requires forall x :: x in more ==> SentAs(x, k, body)
    ensures Carries(t, k, body, sentAt)
  {
    StorePendingFields(s, j, p, deadline, k);
  }

  lemma DeleteCarries(s: State, t: State, j: Key, more: seq<Entry>, k: Key, body: string, sentAt: int)
    requires Carries(s, k, body, sentAt)
    requires t.pending == DeletePending(s.pending, j) && t.log == s.log + more
    requires forall x :: x in more ==> !x.Sent?
    ensures Carries(t, k, body, sentAt)
  {
    DeletePendingFields(s, j, k);
  }

  lemma DeliverCarries(c: Config, s: State, k: Key, body: string)
    requires Untouched(s, k)
    ensures Carries(Step(c, s, Deliver(k.0, k.1, body, true)), k, body, s.clock)
  {
    var t := Step(c, s, Deliver(k.0, k.1, body, true));
    StoreCarries(s, t, k, Pending(0, s.clock, body), s.clock + SessionTtl(c), [Sent(k, 0, body)], k, body, s.clock);
  }

  lemma FireCarries(c: Config, s: State, j: Key, hasClient: bool, k: Key, body: string, sentAt: int)
    requires Carries(s, k, body, sentAt)
    ensures Carries(HandleRetryTimeout(c, s, j, hasClient), k, body, sentAt)
  {
    var fired := s.(log := s.log + [Fired(j)]);
    var t := HandleRetryTimeout(c, s, j, hasClient);
    assert Carries(fired, k, body, sentAt);
    if IsPending(s, j) {
      var p := PendingAt(s, j);
      if p.attempt >= c.maxRetries {
        DeleteCarries(fired, t, j, [Exhausted(j)], k, body, sentAt);
      } else {
        RetryCarries(c, fired, j, p, hasClient, k, body, sentAt);
      }
    }
  }

  lemma RetryCarries(c: Config, s: State, j: Key, p: Pending, hasClient: bool, k: Key, body: string, sentAt: int)
    requires Carries(s, k, body, sentAt)
    requires j == k ==> p.body == body && p.sentAt == sentAt
    ensures Carries(StoreRetry(c, s, j, p, hasClient), k, body, sentAt)
  {
    StoreCarries(s, StoreRetry(c, s, j, p, hasClient), j, p.(attempt := p.attempt + 1), s.clock + SessionTtl(c),
        if hasClient then [Sent(j, p.attempt + 1, p.body)] else [], k, body, sentAt);
  }

  lemma StepCarries(c: Config, s: State, e: Event, k: Key, body: string, sentAt: int)
    requires Carries(s, k, body, sentAt) && k in s.delivered && Enabled(s, e)
    ensures Carries(Step(c, s, e), k, body, sentAt) && k in Step(c, s, e).delivered
  {
    match e
    case Deliver(session, event, text, hasClient) =>
      if hasClient {
        var j := (session, event);
        StoreCarries(s, Step(c, s, e), j, Pending(0, s.clock, text), s.clock + SessionTtl(c), [Sent(j, 0, text)],
            k, body, sentAt);
      }
    case Ack(session, event) => DeletePendingFields(s, (session, event), k);
    case Fire(session, event, hasClient) => FireCarries(c, s, (session, event), hasClient, k, body, sentAt);
    case _ =>
  }

  lemma StepUntouched(c: Config, s: State, e: Event, k: Key)
    requires Untouched(s, k) && !Delivers(e, k)
    ensures Untouched(Step(c, s, e), k)
  {
    match e
    case Deliver(session, event, body, hasClient) =>
      StorePendingFields(s, (session, event), Pending(0, s.clock, body), s.clock + SessionTtl(c), k);
    case Ack(session, event) => DeletePendingFields(s, (session, event), k);
    case Fire(session, event, hasClient) => FireStoresOnlyStored(c, s, (session, event), hasClient, k);
    case _ =>
  }

  /** In every run, what is stored for a key, and every first and retry send of it, carries the body of the
      event that delivered it, stamped with the time of that event; a key without such an event is neither
      stored nor sent. */
  lemma {:induction false} ContentIsDelivered(c: Config, events: seq<Event>, k: Key)
    requires AllEnabled(c, events)
    ensures Untouched(Run(c, events), k) || exists i: nat :: WasDelivered(c, events, i, k)
  {
    if events != [] {
      var before, e := events[..|events| - 1], events[|events| - 1];
      var s := Run(c, before);
      ContentIsDelivered(c, before, k);
      if Untouched(s, k) {
        if Delivers(e, k) {
          DeliverCarries(c, s, k, e.body);
          assert WasDelivered(c, events, |before|, k);
        } else {
          StepUntouched(c, s, e, k);
        }
      } else {
        var i: nat :| WasDelivered(c, before, i, k);
        StepCarries(c, s, e, k, events[i].body, Run(c, events[..i]).clock) by { assert events[..i] == before[..i]; }
        assert events[..i] == before[..i];
        assert WasDelivered(c, events, i, k);
      }
    }
  }

  /** The i-th event delivered the key, and its content is what is stored and sent. */
  ghost predicate WasDelivered(c: Config, events: seq<Event>, i: nat, k: Key) {
    && i < |events| && Delivers(events[i], k) && k in Run(c, events).delivered
    && Carries(Run(c, events), k, events[i].body, Run(c, events[..i]).clock)
  }

  // ----- attempts and firings -----

  function Firings(log: seq<Entry>, k: Key): nat {
    if log == [] then 0 else Firings(log[..|log| - 1], k) + (if log[|log| - 1] == Fired(k) then 1 else 0)
  }

  /** The attempt numbers sent for a key, in order. */
  function Attempts(log: seq<Entry>, k: Key): seq<nat> {
    if log == [] then []
    else
      var last := log[|log| - 1];
      Attempts(log[..|log| - 1], k) + (if last.Sent? && last.key == k then [last.attempt] else [])
  }

  ghost predicate Increasing(a: seq<int>) { forall i, j :: 0 <= i < j < |a| ==> a[i] < a[j] }

  ghost predicate AtMost(a: seq<int>, most: int) { forall i :: 0 <= i < |a| ==> 0 <= a[i] <= most }

  /** What the state says about one key; `attempt` is -1 when nothing is stored. */
  datatype KeyView = KeyView(delivered: bool, attempt: int, timed: bool, firings: nat, attempts: seq<nat>)

  function ViewOf(s: State, k: Key): KeyView {
    KeyView(k in s.delivered, if IsPending(s, k) then PendingAt(s, k).attempt else -1, k in s.timers,
            Firings(s.log, k), Attempts(s.log, k))
  }

  /** While an envelope is stored its attempt number is the number of firings so far; a timer without an
      envelope still leaves room for its own firing; the sent attempts increase. */
  ghost predicate Good(c: Config, v: KeyView) {
    && -1 <= v.attempt
    && (v.attempt >= 0 ==> v.delivered && v.timed && v.attempt == v.firings <= c.maxRetries)
    && (v.timed ==> v.delivered && v.firings <= c.maxRetries)
    && v.firings <= c.maxRetries + 1
    && (!v.delivered ==> v.firings == 0 && v.attempts == [])
    && Increasing(v.attempts) && AtMost(v.attempts, v.firings) && AtMost(v.attempts, c.maxRetries)
  }

  /** What one step can do to one key: nothing; deliver it; acknowledge it; give a stored envelope a timer;
      let it expire; or fire its timer with nothing stored, with the retries used up, or to retry. */
  ghost predicate Moves(c: Config, v: KeyView, w: KeyView) {
    || w == v
    || (!v.delivered && w == KeyView(true, 0, true, v.firings, v.attempts + [0]))
    || w == v.(attempt := -1, timed := false)
    || (v.attempt >= 0 && w == v.(timed := true))
    || w == v.(attempt := -1)
    || (v.timed && (v.attempt == -1 || v.attempt >= c.maxRetries) &&
      w == v.(attempt := -1, timed := false, firings := v.firings + 1))
    || (v.timed && 0 <= v.attempt < c.maxRetries &&
        (w == v.(attempt := v.attempt + 1, firings := v.firings + 1) ||
         w == v.(attempt := v.attempt + 1, firings := v.firings + 1, attempts := v.attempts + [v.attempt + 1])))
  }

  lemma MovesKeepGood(c: Config, v: KeyView, w: KeyView)
    requires Good(c, v) && Moves(c, v, w)
    ensures Good(c, w)
  {}

  lemma LogStep(log: seq<Entry>, e: Entry, k: Key)
    ensures Firings(log + [e], k) == Firings(log, k) + (if e == Fired(k) then 1 else 0)
    ensures Attempts(log + [e], k) == Attempts(log, k) + (if e.Sent? && e.key == k then [e.attempt] else [])
  {
    assert (log + [e])[..|log|] == log;
  }

  lemma StorePendingFields(s: State, k: Key, p: Pending, deadline: int, j: Key)
    ensures var t := s.(pending := StorePending(s.pending, k, p, deadline));
      && (IsPending(t, j) <==> IsPending(s, j) || j == k)
      && (IsPending(t, j) ==> PendingAt(t, j) == if j == k then p else PendingAt(s, j))
  {}

  lemma DeletePendingFields(s: State, k: Key, j: Key)
    ensures var t := s.(pending := DeletePending(s.pending, k));
      && (IsPending(t, j) <==> IsPending(s, j) && j != k)
      && (IsPending(t, j) ==> PendingAt(t, j) == PendingAt(s, j))
  {
    if IsPending(s, k) && j.0 == k.0 && j.1 != k.1 && j.1 in s.pending[k.0].fields {
      assert j.1 in s.pending[k.0].fields - {k.1};
    }
  }

  lemma RescheduledTimers(s: State, session: string, k: Key)
    requires session in s.pending
    ensures k in Rescheduled(s, session) <==> k in s.timers || (k.0 == session && IsPending(s, k))
    ensures k in Rescheduled(s, session) ==>
      Rescheduled(s, session)[k] ==
        if k.0 == session && IsPending(s, k) then s.clock + Backoff(PendingAt(s, k).attempt) else s.timers[k]
  {
    if k.0 == session && k.1 in s.pending[session].fields { assert k == (session, k.1); }
  }

  lemma RescheduleNone(timers: map<Key, int>, fields: map<string, Pending>, session: string, clock: int)
    ensures RescheduleSome(timers, fields, {}, session, clock) == timers
  {}

  lemma RescheduleOneMore(timers: map<Key, int>, fields: map<string, Pending>, events: set<string>, session: string,
                          clock: int, e: string)
    requires events <= fields.Keys && e in fields && e !in events
    ensures RescheduleSome(timers, fields, events + {e}, session, clock)
      == RescheduleSome(timers, fields, events, session, clock)[(session, e) := clock + Backoff(fields[e].attempt)]
  {
    var after := RescheduleSome(timers, fields, events + {e}, session, clock);
    RescheduledKeys(timers, fields, events, session, clock, e);
    var before := RescheduleSome(timers, fields, events, session, clock);
    forall k | k in after
      ensures after[k] == before[(session, e) := clock + Backoff(fields[e].attempt)][k]
    {
      if k != (session, e) { assert k.0 == session ==> k.1 != e; }
    }
  }

  lemma RescheduledKeys(timers: map<Key, int>, fields: map<string, Pending>, events: set<string>, session: string,
                        clock: int, e: string)
    requires events <= fields.Keys && e in fields
    ensures RescheduleSome(timers, fields, events + {e}, session, clock).Keys
      == RescheduleSome(timers, fields, events, session, clock).Keys + {(session, e)}
  {
    forall d | d in events + {e} ensures d in events || d == e {}
    assert (set d | d in events + {e} :: (session, d)) == (set d | d in events :: (session, d)) + {(session, e)};
  }

  lemma FireMoves(c: Config, s: State, k: Key, hasClient: bool, j: Key)
    requires k in s.timers
    ensures Moves(c, ViewOf(s, j), ViewOf(HandleRetryTimeout(c, s, k, hasClient), j))
  {
    var fired := s.log + [Fired(k)];
    LogStep(s.log, Fired(k), j);
    if IsPending(s, k) {
      var p := PendingAt(s, k);
      if p.attempt >= c.maxRetries {
        LogStep(fired, Exhausted(k), j);
        DeletePendingFields(s, k, j);
      } else {
        RetryMoves(c, s, k, hasClient, j);
      }
    }
  }

  lemma RetryMoves(c: Config, s: State, k: Key, hasClient: bool, j: Key)
    requires k in s.timers && IsPending(s, k) && PendingAt(s, k).attempt < c.maxRetries
    ensures Moves(c, ViewOf(s, j), ViewOf(HandleRetryTimeout(c, s, k, hasClient), j))
  {
    var p := PendingAt(s, k);
    var t := HandleRetryTimeout(c, s, k, hasClient);
    RetryLog(s.log, k, p.attempt + 1, p.body, hasClient, j);
    StorePendingFields(s, k, p.(attempt := p.attempt + 1), s.clock + SessionTtl(c), j);
    assert IsPending(t, j) <==> IsPending(s, j) || j == k;
    if j != k {
      assert ViewOf(t, j) == ViewOf(s, j);
    }
  }

  lemma RetryLog(log: seq<Entry>, k: Key, attempt: nat, body: string, hasClient: bool, j: Key)
    ensures var after := log + [Fired(k)] + (if hasClient then [Sent(k, attempt, body)] else []);
      && Firings(after, j) == Firings(log, j) + (if j == k then 1 else 0)
      && Attempts(after, j) == Attempts(log, j) + (if j == k && hasClient then [attempt] else [])
  {
    LogStep(log, Fired(k), j);
    LogStep(log + [Fired(k)], Sent(k, attempt, body), j);
    assert log + [Fired(k)] + [] == log + [Fired(k)];
  }

  lemma DeliverMoves(c: Config, s: State, k: Key, body: string, j: Key)
    requires k !in s.delivered
    ensures Moves(c, ViewOf(s, j), ViewOf(Step(c, s, Deliver(k.0, k.1, body, true)), j))
  {
    LogStep(s.log, Sent(k, 0, body), j);
    StorePendingFields(s, k, Pending(0, s.clock, body), s.clock + SessionTtl(c), j);
    var t := Step(c, s, Deliver(k.0, k.1, body, true));
    assert IsPending(t, j) <==> IsPending(s, j) || j == k;
  }

  lemma StepMoves(c: Config, s: State, e: Event, j: Key)
    requires Enabled(s, e)
    ensures Moves(c, ViewOf(s, j), ViewOf(Step(c, s, e), j))
  {
    match e
    case Deliver(session, event, body, hasClient) => if hasClient { DeliverMoves(c, s, (session, event), body, j); }
    case Ack(session, event) => DeletePendingFields(s, (session, event), j);
    case Resume(session, hasClient) =>
      var t := s.(pending := TouchPending(s.pending, session, s.clock + SessionTtl(c)));
      if hasClient && session in t.pending { RescheduledTimers(t, session, j); }
    case Touch(session) =>
    case Fire(session, event, hasClient) =>
      if (session, event) in s.timers { FireMoves(c, s, (session, event), hasClient, j); }
    case Tick(ms) =>
  }

  lemma {:induction false} RunIsGood(c: Config, events: seq<Event>, k: Key)
    requires AllEnabled(c, events)
    ensures Good(c, ViewOf(Run(c, events), k))
  {
    if events != [] {
      var before, e := events[..|events| - 1], events[|events| - 1];
      RunIsGood(c, before, k);
      StepMoves(c, Run(c, before), e, k);
      MovesKeepGood(c, ViewOf(Run(c, before), k), ViewOf(Run(c, events), k));
    }
  }

  /** In every interleaving: the stored attempt stays within 0..maxRetries, first and retry sends carry
      strictly increasing attempts, at most maxRetries + 1 of them, and the timer of an envelope fires at
      most maxRetries + 1 times; after that many firings the envelope is gone. */
  lemma DeliveryTerminates(c: Config, events: seq<Event>, k: Key)
    requires AllEnabled(c, events)
    ensures var s := Run(c, events);
      && (IsPending(s, k) ==> PendingAt(s, k).attempt == Firings(s.log, k) <= c.maxRetries)
      && Firings(s.log, k) <= c.maxRetries + 1
      && Increasing(Attempts(s.log, k)) && |Attempts(s.log, k)| <= c.maxRetries + 1
      && (Firings(s.log, k) == c.maxRetries + 1 ==> !IsPending(s, k) && k !in s.timers)
  {
    RunIsGood(c, events, k);
    IncreasingIsShort(Attempts(Run(c, events).log, k), c.maxRetries);
  }

  lemma {:induction false} IncreasingIsShort(a: seq<int>, most: int)
    requires Increasing(a) && AtMost(a, most) && most >= -1
    ensures |a| <= most + 1
  {
    if a != [] {
      IncreasingIsShort(a[..|a| - 1], a[|a| - 1] - 1);
    }
  }

  // ----- acknowledgements -----

  /** With whole handlers as steps: what is not stored any more never comes back. */
  lemma {:induction false} GoneStaysGone(c: Config, s: State, events: seq<Event>, k: Key)
    requires k in s.delivered && !IsPending(s, k) && AllEnabledFrom(c, s, events)
    ensures !IsPending(RunFrom(c, s, events), k)
    decreases |events|
  {
    if events != [] {
      var e := events[0];
      match e {
        case Deliver(session, event, body, hasClient) =>
          StorePendingFields(s, (session, event), Pending(0, s.clock, body), s.clock + SessionTtl(c), k);
        case Ack(session, event) => DeletePendingFields(s, (session, event), k);
        case Fire(session, event, hasClient) => FireStoresOnlyStored(c, s, (session, event), hasClient, k);
        case _ =>
      }
      GoneStaysGone(c, Step(c, s, e), events[1..], k);
    }
  }

  lemma FireStoresOnlyStored(c: Config, s: State, k: Key, hasClient: bool, j: Key)
    requires !IsPending(s, j)
    ensures !IsPending(HandleRetryTimeout(c, s, k, hasClient), j)
    ensures var t := HandleRetryTimeout(c, s, k, hasClient);
      t.delivered == s.delivered && forall x :: x in t.log && x.Sent? && x.key == j ==> x in s.log
  {
    if IsPending(s, k) {
      var p := PendingAt(s, k);
      DeletePendingFields(s, k, j);
      StorePendingFields(s, k, p.(attempt := p.attempt + 1), s.clock + SessionTtl(c), j);
    }
  }

  function RunFrom(c: Config, s: State, events: seq<Event>): State
    decreases |events|
  {
    if events == [] then s else RunFrom(c, Step(c, s, events[0]), events[1..])
  }

  predicate AllEnabledFrom(c: Config, s: State, events: seq<Event>)
    decreases |events|
  {
    events == [] || (Enabled(s, events[0]) && AllEnabledFrom(c, Step(c, s, events[0]), events[1..]))
  }

  // ----- timers and the hash's deadline -----

  /** Every stored envelope has a timer, due at least one grace period before its hash expires. */
  ghost predicate Timed(c: Config, s: State) {
    && (forall k :: IsPending(s, k) ==> k in s.timers && s.timers[k] + c.reconnectGraceMs <= s.pending[k.0].deadline)
    && (forall session :: session in s.pending ==> s.pending[session].deadline <= s.clock + SessionTtl(c))
  }

  /** No timer is ever late by a grace period or more. */
  ghost predicate OnTime(c: Config, s: State, e: Event) {
    e.Tick? ==> forall k :: k in s.timers ==> s.clock + e.ms < s.timers[k] + c.reconnectGraceMs
  }

  lemma RaiseDeadline(c: Config, s: State, k: Key, p: Pending, due: int, t: State)
    requires Timed(c, s) && due <= s.clock + LONGEST_BACKOFF
    requires t == s.(pending := StorePending(s.pending, k, p, s.clock + SessionTtl(c)), timers := s.timers[k := due],
                     log := t.log, delivered := t.delivered)
    ensures Timed(c, t)
  {
    forall j | IsPending(t, j) ensures j in t.timers && t.timers[j] + c.reconnectGraceMs <= t.pending[j.0].deadline {
      StorePendingFields(s, k, p, s.clock + SessionTtl(c), j);
    }
  }

  lemma DropPending(c: Config, s: State, k: Key, t: State)
    requires Timed(c, s)
    requires t == s.(pending := DeletePending(s.pending, k), timers := s.timers - {k}, log := t.log)
    ensures Timed(c, t)
  {
    forall j | IsPending(t, j) ensures j in t.timers && t.timers[j] + c.reconnectGraceMs <= t.pending[j.0].deadline {
      DeletePendingFields(s, k, j);
    }
  }

  lemma ResumeKeepsTimed(c: Config, s: State, session: string, hasClient: bool)
    requires Timed(c, s)
    ensures Timed(c, Step(c, s, Resume(session, hasClient)))
  {
    var t := Step(c, s, Resume(session, hasClient));
    var touched := s.(pending := TouchPending(s.pending, session, s.clock + SessionTtl(c)));
    forall j | IsPending(t, j) ensures j in t.timers && t.timers[j] + c.reconnectGraceMs <= t.pending[j.0].deadline {
      assert IsPending(s, j);
      if hasClient && session in touched.pending { RescheduledTimers(touched, session, j); }
    }
  }

  lemma StepKeepsTimed(c: Config, s: State, e: Event)
    requires Timed(c, s)
    ensures Timed(c, Step(c, s, e))
  {
    var t := Step(c, s, e);
    match e
    case Deliver(session, event, body, hasClient) =>
      if hasClient { RaiseDeadline(c, s, (session, event), Pending(0, s.clock, body), s.clock + Backoff(0), t); }
    case Ack(session, event) => DropPending(c, s, (session, event), t);
    case Resume(session, hasClient) =>
      ResumeKeepsTimed(c, s, session, hasClient);
    case Touch(session) =>
      forall j | IsPending(t, j) ensures j in t.timers && t.timers[j] + c.reconnectGraceMs <= t.pending[j.0].deadline {
        assert IsPending(s, j);
      }
    case Fire(session, event, hasClient) =>
      var k := (session, event);
      if k in s.timers && s.timers[k] <= s.clock {
        if !IsPending(s, k) || PendingAt(s, k).attempt >= c.maxRetries {
          DropPending(c, s, k, t);
        } else {
          var p := PendingAt(s, k);
          RaiseDeadline(c, s, k, p.(attempt := p.attempt + 1), s.clock + Backoff(p.attempt + 1), t);
        }
      }
    case Tick(ms) =>
      forall j | IsPending(t, j) ensures j in t.timers && t.timers[j] + c.reconnectGraceMs <= t.pending[j.0].deadline {
        assert IsPending(s, j);
      }
  }

  /** In every run, late timers or not, a stored envelope always has a retry timer. */
  lemma {:induction false} PendingIsTimed(c: Config, events: seq<Event>)
    ensures Timed(c, Run(c, events))
  {
    if events != [] {
      PendingIsTimed(c, events[..|events| - 1]);
      StepKeepsTimed(c, Run(c, events[..|events| - 1]), events[|events| - 1]);
    }
  }

  /** When timers are never late by a whole grace period, a stored envelope leaves the store only by its
      acknowledgement or by the firing that finds its retries used up; its hash never expires. */
  lemma LeavesOnlyByAckOrExhaustion(c: Config, events: seq<Event>, e: Event, k: Key)
    requires IsPending(Run(c, events), k) && OnTime(c, Run(c, events), e)
    requires !IsPending(Step(c, Run(c, events), e), k)
    ensures e == Ack(k.0, k.1) || (e.Fire? && (e.session, e.event) == k &&
      PendingAt(Run(c, events), k).attempt >= c.maxRetries)
  {
    var s := Run(c, events);
    PendingIsTimed(c, events);
    match e
    case Deliver(session, event, body, hasClient) =>
      StorePendingFields(s, (session, event), Pending(0, s.clock, body), s.clock + SessionTtl(c), k);
    case Ack(session, event) => DeletePendingFields(s, (session, event), k);
    case Resume(session, hasClient) =>
    case Touch(session) =>
    case Fire(session, event, hasClient) =>
      var f := (session, event);
      DeletePendingFields(s, f, k);
      if IsPending(s, f) {
        var p := PendingAt(s, f);
        StorePendingFields(s.(log := s.log + [Fired(f)]), f, p.(attempt := p.attempt + 1), s.clock + SessionTtl(c), k);
      }
    case Tick(ms) =>
  }
}
