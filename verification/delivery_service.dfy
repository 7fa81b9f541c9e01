/** The delivery service of one node, with its timers and the pending hashes as fields. A send goes to the
    session's socket if it has one, which `hasClient` says. */
module DeliveryService {
  import opened Delivery
  import opened Ordering

  /** The envelopes are exactly the stored ones, each once and as stored, the oldest first. */
  ghost predicate IsReplay(fields: map<string, Pending>, envelopes: seq<(string, Pending)>) {
    && (forall i :: 0 <= i < |envelopes| ==> envelopes[i].0 in fields && envelopes[i].1 == fields[envelopes[i].0])
    && (forall i, j :: 0 <= i < j < |envelopes| ==> envelopes[i].0 != envelopes[j].0)
    && |envelopes| == |fields|
    && (forall i, j :: 0 <= i < j < |envelopes| ==> envelopes[i].1.sentAt <= envelopes[j].1.sentAt)
  }

  /** Every stored envelope waits once more, as long as its attempt says. */
  ghost predicate AllDueAgain(session: string, fields: map<string, Pending>, timers: map<Key, int>, clock: int) {
    forall e :: e in fields ==> DueAgain(session, e, fields[e], timers, clock)
  }

  ghost predicate DueAgain(session: string, event: string, p: Pending, timers: map<Key, int>, clock: int) {
    (session, event) in timers && timers[(session, event)] == clock + Backoff(p.attempt)
  }

  ghost predicate SameTimer(before: map<Key, int>, now: map<Key, int>, k: Key) {
    (k in now <==> k in before) && (k in before ==> now[k] == before[k])
  }

  /** The same envelopes are stored for the same sessions. */
  ghost predicate SameFields(before: map<string, Hash>, now: map<string, Hash>) {
    now.Keys == before.Keys && forall session :: session in before ==> now[session].fields == before[session].fields
  }

  /** The stored envelopes have been sent again, and each waits once more; no other timer is different. */
  ghost predicate Replays(session: string, fields: map<string, Pending>, envelopes: seq<(string, Pending)>,
                          before: map<Key, int>, now: map<Key, int>, clock: int)
  {
    && IsReplay(fields, envelopes) && AllDueAgain(session, fields, now, clock)
    && forall k: Key :: k.0 != session || k.1 !in fields ==> SameTimer(before, now, k)
  }

  lemma ResumeReschedules(c: Config, s: State, touched: State, session: string)
    requires touched == Step(c, s, Touch(session)) && session in touched.pending
    ensures var fields := touched.pending[session].fields;
      Step(c, s, Resume(session, true)) ==
        touched.(timers := RescheduleSome(s.timers, fields, fields.Keys, session, s.clock))
  {}

  lemma AllRescheduled(timers: map<Key, int>, fields: map<string, Pending>, session: string, clock: int)
    ensures var now := RescheduleSome(timers, fields, fields.Keys, session, clock);
      && AllDueAgain(session, fields, now, clock)
      && forall k: Key :: k.0 != session || k.1 !in fields ==> SameTimer(timers, now, k)
  {}

  /** The ids of the first n envelopes. */
  ghost function Ids(envelopes: seq<(string, Pending)>, n: nat): set<string>
    requires n <= |envelopes|
  {
    set i | 0 <= i < n :: envelopes[i].0
  }

  lemma NextId(fields: map<string, Pending>, envelopes: seq<(string, Pending)>, i: nat)
    requires IsReplay(fields, envelopes) && i < |envelopes|
    ensures Ids(envelopes, i + 1) == Ids(envelopes, i) + {envelopes[i].0}
    ensures envelopes[i].0 !in Ids(envelopes, i)
    ensures envelopes[i].0 in fields && envelopes[i].1 == fields[envelopes[i].0]
  {}

  lemma {:induction false} IdsSize(fields: map<string, Pending>, envelopes: seq<(string, Pending)>, n: nat)
    requires IsReplay(fields, envelopes) && n <= |envelopes|
    ensures |Ids(envelopes, n)| == n && Ids(envelopes, n) <= fields.Keys
  {
    if n > 0 {
      IdsSize(fields, envelopes, n - 1);
      NextId(fields, envelopes, n - 1);
    }
  }

  lemma AllIds(fields: map<string, Pending>, envelopes: seq<(string, Pending)>)
    requires IsReplay(fields, envelopes)
    ensures Ids(envelopes, |envelopes|) == fields.Keys
  {
    IdsSize(fields, envelopes, |envelopes|);
    assert fields.Keys == Ids(envelopes, |envelopes|) + (fields.Keys - Ids(envelopes, |envelopes|));
    assert |fields.Keys| == |fields|;
  }

  /** The timers after the first n envelopes have been sent again. */
  ghost predicate Resent(before: map<Key, int>, now: map<Key, int>, fields: map<string, Pending>,
                         envelopes: seq<(string, Pending)>, n: nat, session: string, clock: int)
  {
    && n <= |envelopes| && Ids(envelopes, n) <= fields.Keys
    && now == RescheduleSome(before, fields, Ids(envelopes, n), session, clock)
  }

  lemma NoneResent(before: map<Key, int>, fields: map<string, Pending>, envelopes: seq<(string, Pending)>,
                   session: string, clock: int)
    ensures Resent(before, before, fields, envelopes, 0, session, clock)
  {
    RescheduleNone(before, fields, session, clock);
    assert Ids(envelopes, 0) == {};
  }

  lemma AllResent(before: map<Key, int>, now: map<Key, int>, fields: map<string, Pending>,
                  envelopes: seq<(string, Pending)>, session: string, clock: int)
    requires IsReplay(fields, envelopes) && Resent(before, now, fields, envelopes, |envelopes|, session, clock)
    ensures now == RescheduleSome(before, fields, fields.Keys, session, clock)
    ensures Replays(session, fields, envelopes, before, now, clock)
  {
    AllIds(fields, envelopes);
    AllRescheduled(before, fields, session, clock);
  }

  function Age(fields: map<string, Pending>): string -> real {
    (event: string) => if event in fields then -(fields[event].sentAt as real) else 0.0
  }

  lemma OldestFirst(fields: map<string, Pending>, tie: Order, events: seq<string>, envelopes: seq<(string, Pending)>)
    requires Ascending(ByDescending(Age(fields), tie), events) && Distinct(events) && Elems(events) == fields.Keys
    requires |envelopes| == |events|
    requires forall i :: 0 <= i < |events| ==> events[i] in fields && envelopes[i] == (events[i], fields[events[i]])
    ensures IsReplay(fields, envelopes)
  {
    forall i, j | 0 <= i < j < |events| ensures envelopes[i].1.sentAt <= envelopes[j].1.sentAt {
      assert ByDescending(Age(fields), tie)(events[i], events[j]);
    }
    DistinctSize(events);
  }

  class RealtimeDeliveryService {
    const config: Config
    var pending: map<string, Hash>
    var retryTimers: map<Key, int>
    var clock: int
    ghost var log: seq<Entry>
    ghost var delivered: set<Key>

    ghost function View(): State
      reads this
    {
      State(pending, retryTimers, clock, log, delivered)
    }

    constructor (config: Config)
      ensures this.config == config && View() == EMPTY
    {
      this.config := config;
      pending, retryTimers, clock, log, delivered := map[], map[], 0, [], {};
    }

    method DeliverToSession(session: string, event: string, body: string, hasClient: bool)
      modifies this
      ensures View() == Step(config, old(View()), Deliver(session, event, body, hasClient))
      ensures !hasClient ==> View() == old(View())
      ensures hasClient ==>
        && Stores(config, old(View()), View(), (session, event), Pending(0, clock, body), 2_000)
        && log == old(log) + [Sent((session, event), 0, body)]
    {
      if !hasClient {
        return;
      }
      StorePendingEnvelope((session, event), Pending(0, clock, body));
      ScheduleRetry((session, event), 0);
      log := log + [Sent((session, event), 0, body)];
      delivered := delivered + {(session, event)};
      StoredIsStored(config, old(View()), View(), (session, event), Pending(0, clock, body), 2_000);
    }

    method Acknowledge(session: string, event: string) returns (deleted: bool)
      modifies this
      ensures View() == Step(config, old(View()), Ack(session, event))
      ensures deleted == IsPending(old(View()), (session, event))
      ensures Forgets(old(View()), View(), (session, event)) && log == old(log)
    {
      deleted := session in pending && event in pending[session].fields;
      pending := DeletePending(pending, (session, event));
      ClearRetryTimer((session, event));
      DeletedIsForgotten(old(View()), View(), (session, event));
    }

    /** The touch and the replay at the end of `handle_auth_connect`. `tie` is the order in which Redis lists the
        fields, which decides among equal send times; `resent` is what goes to the socket. */
    method ReplayPendingForSession(session: string, hasClient: bool, tie: Order)
      returns (resent: seq<(string, Pending)>)
      requires StrictTotal(tie)
      modifies this
      ensures View() == Step(config, old(View()), Resume(session, hasClient))
      ensures SameFields(old(pending), pending)
      ensures session in pending ==> pending[session].deadline == clock + config.reconnectGraceMs + 30_000
      ensures if hasClient && session in pending
        then Replays(session, pending[session].fields, resent, old(retryTimers), retryTimers, clock)
        else resent == [] && retryTimers == old(retryTimers)
    {
      resent := [];
      TouchPendingTtl(session);
      if !hasClient || session !in pending {
        return;
      }
      ResumeReschedules(config, old(View()), View(), session);
      resent := ResendStored(session, pending[session].fields, tie);
    }

    /** The rest of the replay, once the fields are read and a socket is found. */
    method ResendStored(session: string, fields: map<string, Pending>, tie: Order)
      returns (resent: seq<(string, Pending)>)
      requires StrictTotal(tie)
      modifies this`retryTimers
      ensures retryTimers == RescheduleSome(old(retryTimers), fields, fields.Keys, session, clock)
      ensures Replays(session, fields, resent, old(retryTimers), retryTimers, clock)
    {
      resent := SortBySentAt(fields, tie);
      ResendAll(session, fields, resent);
      AllResent(old(retryTimers), retryTimers, fields, resent, session, clock);
    }

    /** The replay loop: every stored envelope is sent again and gets a fresh timer, its attempt unchanged. */
    method ResendAll(session: string, fields: map<string, Pending>, envelopes: seq<(string, Pending)>)
      requires IsReplay(fields, envelopes)
      modifies this`retryTimers
      ensures Resent(old(retryTimers), retryTimers, fields, envelopes, |envelopes|, session, clock)
    {
      ghost var before := retryTimers;
      NoneResent(before, fields, envelopes, session, clock);
      for i := 0 to |envelopes|
        invariant Resent(before, retryTimers, fields, envelopes, i, session, clock)
      {
        NextId(fields, envelopes, i);
        ResendOne(session, envelopes[i], fields, Ids(envelopes, i), before);
      }
    }

    /** `done` are the events that have been sent again. */
    method ResendOne(session: string, envelope: (string, Pending), ghost fields: map<string, Pending>,
                     ghost done: set<string>, ghost before: map<Key, int>)
      requires done <= fields.Keys && envelope.0 in fields.Keys - done && fields[envelope.0] == envelope.1
      requires retryTimers == RescheduleSome(before, fields, done, session, clock)
      modifies this`retryTimers
      ensures retryTimers == RescheduleSome(before, fields, done + {envelope.0}, session, clock)
    {
      RescheduleOneMore(before, fields, done, session, clock, envelope.0);
      ScheduleRetry((session, envelope.0), envelope.1.attempt);
    }

    /** Every stored envelope once, the oldest first. */
    method SortBySentAt(fields: map<string, Pending>, tie: Order) returns (envelopes: seq<(string, Pending)>)
      requires StrictTotal(tie)
      ensures IsReplay(fields, envelopes)
    {
      var lt := ByDescending(Age(fields), tie);
      ByDescendingIsStrictTotal(Age(fields), tie);
      EnumerateProperties(lt, fields.Keys);
      var events := Enumerate(lt, fields.Keys);
      AscendingDistinct(lt, events);
      assert forall i :: 0 <= i < |events| ==> events[i] in Elems(events);
      envelopes := seq(|events|, i requires 0 <= i < |events| => (events[i], fields[events[i]]));
      OldestFirst(fields, tie, events, envelopes);
    }

    method TouchPendingTtl(session: string)
      modifies this`pending
      ensures View() == Step(config, old(View()), Touch(session))
      ensures SameFields(old(pending), pending)
      ensures session in pending ==> pending[session].deadline == clock + config.reconnectGraceMs + 30_000
    {
      pending := TouchPending(pending, session, clock + SessionTtl(config));
    }

    /** A timer that is due fires. */
    method HandleRetryTimeout(session: string, event: string, hasClient: bool)
      requires (session, event) in retryTimers && retryTimers[(session, event)] <= clock
      modifies this
      ensures View() == Step(config, old(View()), Fire(session, event, hasClient))
      ensures var was, k := old(View()), (session, event);
        if IsPending(was, k) && PendingAt(was, k).attempt < config.maxRetries then
          var p := PendingAt(was, k);
          && Stores(config, was, View(), k, Pending(p.attempt + 1, p.sentAt, p.body), Backoff(p.attempt + 1))
          && log == old(log) + [Fired(k)] + if hasClient then [Sent(k, p.attempt + 1, p.body)] else []
        else
          && Forgets(was, View(), k)
          && log == old(log) + [Fired(k)] + if IsPending(was, k) then [Exhausted(k)] else []
    {
      var k := (session, event);
      log := log + [Fired(k)];
      if session !in pending || event !in pending[session].fields {
        ClearRetryTimer(k);
        assert old(log) + [Fired(k)] + [] == log;
        assert Forgets(old(View()), View(), k);
        return;
      }
      var envelope := pending[session].fields[event];
      if envelope.attempt >= config.maxRetries {
        pending := DeletePending(pending, k);
        ClearRetryTimer(k);
        log := log + [Exhausted(k)];
        DeletedIsForgotten(old(View()), View(), k);
        return;
      }
      var retried := envelope.(attempt := envelope.attempt + 1);
      StorePendingEnvelope(k, retried);
      if hasClient {
        log := log + [Sent(k, retried.attempt, retried.body)];
      } else {
        assert log + [] == log;
      }
      ScheduleRetry(k, retried.attempt);
      StoredIsStored(config, old(View()), View(), k, retried, Backoff(retried.attempt));
    }

    /** Time passes, for the timers and for Redis. */
    method Advance(ms: nat)
      modifies this
      ensures View() == Step(config, old(View()), Tick(ms))
      ensures clock == old(clock) + ms && retryTimers == old(retryTimers)
      ensures forall session ::
        session in pending <==> session in old(pending) && old(pending)[session].deadline > clock
      ensures forall session :: session in pending ==> pending[session] == old(pending)[session]
    {
      clock := clock + ms;
      pending := DropExpired(pending, clock);
    }

    method StorePendingEnvelope(k: Key, envelope: Pending)
      modifies this`pending
      ensures pending == StorePending(old(pending), k, envelope, clock + SessionTtl(config))
    {
      pending := StorePending(pending, k, envelope, clock + SessionTtl(config));
    }

    method ScheduleRetry(k: Key, attempt: nat)
      modifies this`retryTimers
      ensures retryTimers == old(retryTimers)[k := clock + Backoff(attempt)]
    {
      ClearRetryTimer(k);
      retryTimers := retryTimers[k := clock + Backoff(attempt)];
    }

    method ClearRetryTimer(k: Key)
      modifies this`retryTimers
      ensures retryTimers == old(retryTimers) - {k}
    {
      if k !in retryTimers {
        return;
      }
      retryTimers := retryTimers - {k};
    }
  }
}
