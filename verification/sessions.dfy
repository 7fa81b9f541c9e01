/** Session records and the per-user index of active sessions, shared by all nodes through Redis. Each call
    is one step; a record may expire between any two. */
module Sessions {
  import opened SetIndex

  datatype Record = Record(publicKey: string, nodeId: string, active: bool, reconnectExpiresAt: int)

  /** `owners` remembers who every session id was created for, also after its record has expired. */
  datatype Store = Store(records: map<string, Record>, index: map<string, set<string>>, owners: map<string, string>)

  datatype Event =
    | Open(nodeId: string, publicKey: string, lastSessionId: string, newSessionId: string, now: int)
    | Touch(sessionId: string, now: int)
    | Disconnect(nodeId: string, sessionId: string, now: int)
    | Query(publicKey: string)
    | Expire(sessionId: string)

  predicate CanRestore(s: Store, publicKey: string, lastSessionId: string, now: int) {
    && lastSessionId != "" && lastSessionId in s.records
    && s.records[lastSessionId].publicKey == publicKey
    && s.records[lastSessionId].reconnectExpiresAt >= now
  }

  predicate IsActive(records: map<string, Record>, publicKey: string, id: string) {
    id in records && records[id].publicKey == publicKey && records[id].active
  }

  function ActiveAmong(records: map<string, Record>, publicKey: string, ids: set<string>): set<string> {
    set id | id in ids && IsActive(records, publicKey, id)
  }

  /** The answer of `get_active_session_ids`. */
  function Answer(s: Store, publicKey: string): set<string> {
    ActiveAmong(s.records, publicKey, Lookup(s.index, publicKey))
  }

  /** srem; an emptied set disappears. */
  function RemoveMembers(index: map<string, set<string>>, publicKey: string, ids: set<string>): map<string, set<string>>
  {
    if publicKey !in index then index
    else if index[publicKey] - ids == {} then index - {publicKey}
    else index[publicKey := index[publicKey] - ids]
  }

  /** The indexed ids that are not in the answer. */
  function Stale(s: Store, publicKey: string): set<string> { Lookup(s.index, publicKey) - Answer(s, publicKey) }

  function Prune(s: Store, publicKey: string): map<string, set<string>> {
    RemoveMembers(s.index, publicKey, Stale(s, publicKey))
  }

  function Step(s: Store, grace: int, e: Event): Store {
    match e
    case Open(nodeId, publicKey, last, newId, now) =>
      if CanRestore(s, publicKey, last, now) then
        s.(records := s.records[last := s.records[last].(nodeId := nodeId, active := true,
            reconnectExpiresAt := now + grace)],
           index := Put(s.index, publicKey, last))
      else
        Store(s.records[newId := Record(publicKey, nodeId, true, now + grace)],
              Put(s.index, publicKey, newId), s.owners[newId := publicKey])
    case Touch(id, now) =>
      if id !in s.records then s
      else
        var record := s.records[id];
        s.(records := s.records[id := record.(reconnectExpiresAt := now + grace)],
           index := if record.active then Put(s.index, record.publicKey, id) else s.index)
    case Disconnect(nodeId, id, now) =>
      if id !in s.records || (s.records[id].nodeId != nodeId && s.records[id].active) then s
      else
        var record := s.records[id];
        s.(records := s.records[id := record.(reconnectExpiresAt := now + grace, active := false)],
           index := Take(s.index, record.publicKey, id))
    case Query(publicKey) => s.(index := Prune(s, publicKey))
    case Expire(id) => s.(records := s.records - {id})
  }

  /** `randomUUID` never returns an id that was used before. */
  predicate Enabled(s: Store, e: Event) {
    e.Open? ==> e.newSessionId != "" && e.newSessionId !in s.owners
  }

  function Run(s: Store, grace: int, events: seq<Event>): Store
    decreases |events|
  {
    if events == [] then s else Run(Step(s, grace, events[0]), grace, events[1..])
  }

  predicate AllEnabled(s: Store, grace: int, events: seq<Event>)
    decreases |events|
  {
    events == [] || (Enabled(s, events[0]) && AllEnabled(Step(s, grace, events[0]), grace, events[1..]))
  }

  const EMPTY: Store := Store(map[], map[], map[])

  /** Records belong to the owner of their id, and every active one is in its owner's index. */
  ghost predicate Inv(s: Store) {
    && NoEmpty(s.index)
    && (forall id :: id in s.records ==> id in s.owners && s.records[id].publicKey == s.owners[id])
    && (forall id :: id in s.records && s.records[id].active ==> Linked(s.index, s.records[id].publicKey, id))
  }

  lemma StepKeepsInv(s: Store, grace: int, e: Event)
    requires Inv(s) && Enabled(s, e)
    ensures Inv(Step(s, grace, e))
    ensures forall id :: id in s.owners ==>
      id in Step(s, grace, e).owners && Step(s, grace, e).owners[id] == s.owners[id]
  {
    match e
    case Open(nodeId, publicKey, last, newId, now) =>
      PutLinks(s.index, publicKey, if CanRestore(s, publicKey, last, now) then last else newId);
    case Touch(id, now) =>
      if id in s.records { PutLinks(s.index, s.records[id].publicKey, id); }
    case Disconnect(nodeId, id, now) =>
      if id in s.records { TakeLinks(s.index, s.records[id].publicKey, id); }
    case Query(publicKey) => PruneKeepsActive(s, publicKey);
    case Expire(id) =>
  }

  /** Pruning removes no active id, of this user or any other. */
  lemma PruneKeepsActive(s: Store, publicKey: string)
    requires Inv(s)
    ensures NoEmpty(Prune(s, publicKey))
    ensures forall id :: id in s.records && s.records[id].active ==>
      Linked(Prune(s, publicKey), s.records[id].publicKey, id)
    ensures forall k, id :: Linked(Prune(s, publicKey), k, id) ==> Linked(s.index, k, id)
  {
    forall id | id in s.records && s.records[id].active
      ensures Linked(Prune(s, publicKey), s.records[id].publicKey, id) {
      assert Linked(s.index, s.records[id].publicKey, id);
      if s.records[id].publicKey == publicKey { assert id in Answer(s, publicKey); }
    }
  }

  /** Over any run a session id keeps its owner, and its record, while there is one, names that owner. */
  lemma {:induction false} OwnerNeverChanges(s: Store, grace: int, events: seq<Event>)
    requires Inv(s) && AllEnabled(s, grace, events)
    ensures Inv(Run(s, grace, events))
    ensures forall id :: id in s.owners ==>
      id in Run(s, grace, events).owners && Run(s, grace, events).owners[id] == s.owners[id]
    decreases |events|
  {
    if events != [] {
      StepKeepsInv(s, grace, events[0]);
      OwnerNeverChanges(Step(s, grace, events[0]), grace, events[1..]);
    }
  }

  /** The user's active sessions. */
  function ActiveSessions(records: map<string, Record>, publicKey: string): set<string> {
    set id | id in records && records[id].publicKey == publicKey && records[id].active
  }

  /** After any run the answer is exactly the user's active sessions. */
  lemma AnswerIsExact(grace: int, events: seq<Event>, publicKey: string)
    requires AllEnabled(EMPTY, grace, events)
    ensures var s := Run(EMPTY, grace, events); Answer(s, publicKey) == ActiveSessions(s.records, publicKey)
  {
    OwnerNeverChanges(EMPTY, grace, events);
    AnswerIsActive(Run(EMPTY, grace, events), publicKey);
  }

  lemma AnswerIsActive(s: Store, publicKey: string)
    requires Inv(s)
    ensures Answer(s, publicKey) == ActiveSessions(s.records, publicKey)
  {
    forall id | id in ActiveSessions(s.records, publicKey) ensures id in Answer(s, publicKey) {
      assert Linked(s.index, publicKey, id);
    }
  }

  lemma StepIgnoresIndex(s: Store, t: Store, grace: int, e: Event)
    requires s.records == t.records && s.owners == t.owners
    ensures Step(s, grace, e).records == Step(t, grace, e).records &&
      Step(s, grace, e).owners == Step(t, grace, e).owners
  {}

  /** What happens to the records does not depend on the index. */
  lemma {:induction false} RecordsIgnoreIndex(s: Store, t: Store, grace: int, events: seq<Event>)
    requires s.records == t.records && s.owners == t.owners && Inv(s) && Inv(t)
    requires AllEnabled(s, grace, events)
    ensures AllEnabled(t, grace, events)
    ensures Run(s, grace, events).records == Run(t, grace, events).records
    ensures Inv(Run(s, grace, events)) && Inv(Run(t, grace, events))
    decreases |events|
  {
    if events != [] {
      StepKeepsInv(s, grace, events[0]);
      StepKeepsInv(t, grace, events[0]);
      StepIgnoresIndex(s, t, grace, events[0]);
      RecordsIgnoreIndex(Step(s, grace, events[0]), Step(t, grace, events[0]), grace, events[1..]);
    }
  }

  /** A query, with the pruning it does, changes no answer: neither now nor after any further run. */
  lemma QueryChangesNoAnswer(s: Store, grace: int, queried: string, events: seq<Event>, publicKey: string)
    requires Inv(s) && AllEnabled(s, grace, events)
    ensures var t := Step(s, grace, Query(queried));
      && AllEnabled(t, grace, events)
      && Answer(Run(t, grace, events), publicKey) == Answer(Run(s, grace, events), publicKey)
  {
    var t := Step(s, grace, Query(queried));
    StepKeepsInv(s, grace, Query(queried));
    RecordsIgnoreIndex(s, t, grace, events);
    AnswerIsActive(Run(s, grace, events), publicKey);
    AnswerIsActive(Run(t, grace, events), publicKey);
  }

  // ----- the grace period -----

  predicate Concerns(e: Event, id: string) {
    match e
    case Open(_, _, last, _, _) => last == id
    case Touch(touched, _) => touched == id
    case Disconnect(_, closed, _) => closed == id
    case Query(_) => false
    case Expire(gone) => gone == id
  }

  lemma {:induction false} UnconcernedKeep(s: Store, grace: int, events: seq<Event>, id: string)
    requires Inv(s) && AllEnabled(s, grace, events) && id in s.records
    requires forall e :: e in events ==> !Concerns(e, id)
    ensures id in Run(s, grace, events).records && Run(s, grace, events).records[id] == s.records[id]
    decreases |events|
  {
    if events != [] {
      assert events[0] in events && forall e :: e in events[1..] ==> e in events;
      StepKeepsInv(s, grace, events[0]);
      UnconcernedKeep(Step(s, grace, events[0]), grace, events[1..], id);
    }
  }

  /** A session that this node closes, or that was closed before, can be resumed exactly by its own user and
      exactly for the grace period, whatever happens to other sessions meanwhile; until then it is not active. */
  lemma GraceDecides(s: Store, grace: int, nodeId: string, id: string, at: int, events: seq<Event>, publicKey: string,
                     now: int)
    requires Inv(s) && id != "" && id in s.records && (s.records[id].nodeId == nodeId || !s.records[id].active)
    requires AllEnabled(Step(s, grace, Disconnect(nodeId, id, at)), grace, events)
    requires forall e :: e in events ==> !Concerns(e, id)
    ensures var t := Run(Step(s, grace, Disconnect(nodeId, id, at)), grace, events);
      && (CanRestore(t, publicKey, id, now) <==> s.records[id].publicKey == publicKey && now <= at + grace)
      && id !in ActiveSessions(t.records, publicKey)
  {
    StepKeepsInv(s, grace, Disconnect(nodeId, id, at));
    UnconcernedKeep(Step(s, grace, Disconnect(nodeId, id, at)), grace, events, id);
  }

  // ----- what a call leaves in the index -----

  /** The id is listed under the user; nothing else is different. */
  ghost predicate Listed(before: map<string, set<string>>, after: map<string, set<string>>, publicKey: string,
                         id: string)
  {
    forall k, i :: Linked(after, k, i) <==> Linked(before, k, i) || (k == publicKey && i == id)
  }

  /** The ids are not listed under the user any more; nothing else is different. */
  ghost predicate Unlisted(before: map<string, set<string>>, after: map<string, set<string>>, publicKey: string,
                           ids: set<string>)
  {
    forall k, i :: Linked(after, k, i) <==> Linked(before, k, i) && !(k == publicKey && i in ids)
  }

  // ----- a query cut at its awaits -----

  /** How far a query has got: it has read the index, or also the records. */
  datatype Stage = HasMembers(publicKey: string, members: set<string>) | HasStale(publicKey: string, stale: set<string>)

  datatype SplitState = SplitState(store: Store, queries: map<nat, Stage>)

  datatype SplitEvent =
    | Whole(event: Event)
    | ReadMembers(query: nat, publicKey: string)
    | ReadRecords(query: nat)
    | RemoveStale(query: nat)

  function SplitStep(s: SplitState, grace: int, e: SplitEvent): SplitState {
    match e
    case Whole(event) => s.(store := Step(s.store, grace, event))
    case ReadMembers(q, publicKey) =>
      s.(queries := s.queries[q := HasMembers(publicKey, Lookup(s.store.index, publicKey))])
    case ReadRecords(q) =>
      if q !in s.queries || !s.queries[q].HasMembers? then s
      else
        var HasMembers(publicKey, members) := s.queries[q];
        s.(queries := s.queries[q := HasStale(publicKey, members - ActiveAmong(s.store.records, publicKey, members))])
    case RemoveStale(q) =>
      if q !in s.queries || !s.queries[q].HasStale? then s
      else
        var HasStale(publicKey, stale) := s.queries[q];
        SplitState(s.store.(index := RemoveMembers(s.store.index, publicKey, stale)), s.queries - {q})
  }

  /** With nothing in between, the pieces are the whole query. */
  lemma PiecesMakeQuery(s: SplitState, grace: int, q: nat, publicKey: string)
    ensures var read := SplitStep(SplitStep(s, grace, ReadMembers(q, publicKey)), grace, ReadRecords(q));
      SplitStep(read, grace, RemoveStale(q)).store == Step(s.store, grace, Query(publicKey))
  {}

  /** A late removal keeps the index complete, and every answer exact, exactly when none of the ids it takes for
      stale has become active again. */
  lemma LateRemovalIsSafeIff(s: SplitState, grace: int, q: nat)
    requires Inv(s.store) && q in s.queries && s.queries[q].HasStale?
    ensures var t := SplitStep(s, grace, RemoveStale(q)).store; var publicKey := s.queries[q].publicKey;
      && (Inv(t) <==> ActiveAmong(s.store.records, publicKey, s.queries[q].stale) == {})
      && (Answer(t, publicKey) == ActiveSessions(t.records, publicKey) <==>
            ActiveAmong(s.store.records, publicKey, s.queries[q].stale) == {})
  {
    var HasStale(publicKey, stale) := s.queries[q];
    var t := SplitStep(s, grace, RemoveStale(q)).store;
    RemoveMembersLinks(s.store.index, publicKey, stale);
    AnswerIsActive(s.store, publicKey);
    if id :| id in ActiveAmong(s.store.records, publicKey, stale) {
      assert IsActive(s.store.records, publicKey, id) && !Linked(t.index, publicKey, id);
      assert id in ActiveSessions(t.records, publicKey) && id !in Answer(t, publicKey);
    } else {
      forall id | IsActive(s.store.records, publicKey, id) ensures Linked(t.index, publicKey, id) {
        assert id in stale ==> id in ActiveAmong(s.store.records, publicKey, stale);
        assert Linked(s.store.index, publicKey, id);
      }
    }
  }

  lemma RemoveMembersLinks(index: map<string, set<string>>, publicKey: string, ids: set<string>)
    requires NoEmpty(index)
    ensures NoEmpty(RemoveMembers(index, publicKey, ids))
    ensures forall k, id ::
      Linked(RemoveMembers(index, publicKey, ids), k, id) <==> Linked(index, k, id) && !(k == publicKey && id in ids)
  {}

  lemma NothingToRemove(index: map<string, set<string>>, publicKey: string)
    requires NoEmpty(index)
    ensures RemoveMembers(index, publicKey, {}) == index
  {
    if publicKey in index { assert index[publicKey] - {} == index[publicKey]; }
  }

  /** A session disconnects between a query's two reads and is restored before its removal: it is active, and no
      query finds it. */
  lemma RestoredSessionIsLost(grace: int, publicKey: string)
    requires grace >= 0
    ensures var read := SplitStep(SplitStep(SplitState(EMPTY, map[]), grace, Whole(Open("n", publicKey, "", "a", 0))),
                                  grace, ReadMembers(1, publicKey));
      var missed := SplitStep(SplitStep(read, grace, Whole(Disconnect("n", "a", 0))), grace, ReadRecords(1));
      var restored := SplitStep(missed, grace, Whole(Open("n", publicKey, "a", "b", 0)));
      var s := SplitStep(restored, grace, RemoveStale(1)).store;
      "a" in ActiveSessions(s.records, publicKey) && Answer(s, publicKey) == {}
  {
    var record := Record(publicKey, "n", true, grace);
    assert Lookup(EMPTY.index, publicKey) + {"a"} == {"a"};
    assert Take(map[publicKey := {"a"}], publicKey, "a") == map[];
    var read := SplitStep(SplitStep(SplitState(EMPTY, map[]), grace, Whole(Open("n", publicKey, "", "a", 0))),
                          grace, ReadMembers(1, publicKey));
    assert read.store.records == map["a" := record] && read.store.index == map[publicKey := {"a"}];
    assert read.queries == map[1 := HasMembers(publicKey, {"a"})];
    var missed := SplitStep(SplitStep(read, grace, Whole(Disconnect("n", "a", 0))), grace, ReadRecords(1));
    assert missed.store.index == map[] && ActiveAmong(missed.store.records, publicKey, {"a"}) == {};
    assert missed.queries == map[1 := HasStale(publicKey, {"a"})];
    var restored := SplitStep(missed, grace, Whole(Open("n", publicKey, "a", "b", 0)));
    assert restored.store.index == map[publicKey := {"a"}];
  }

  /** What the nodes share. */
  class SessionRedis {
    var records: map<string, Record>
    var index: map<string, set<string>>
    ghost var owners: map<string, string>

    ghost function View(): Store
      reads this
    {
      Store(records, index, owners)
    }

    constructor ()
      ensures View() == EMPTY
    {
      records, index, owners := map[], map[], map[];
    }
  }

  class RealtimeSessionService {
    const nodeId: string
    const reconnectGraceMs: int
    const redis: SessionRedis

    constructor (nodeId: string, reconnectGraceMs: int, redis: SessionRedis)
      ensures this.nodeId == nodeId && this.reconnectGraceMs == reconnectGraceMs && this.redis == redis
    {
      this.nodeId, this.reconnectGraceMs, this.redis := nodeId, reconnectGraceMs, redis;
    }

    method CreateOrRestoreSession(publicKey: string, lastSessionId: string, freshId: string, now: int)
      returns (restored: bool, sessionId: string)
      modifies redis
      ensures redis.View() == Step(old(redis.View()), reconnectGraceMs, Open(nodeId, publicKey, lastSessionId, freshId,
          now))
      ensures restored == CanRestore(old(redis.View()), publicKey, lastSessionId, now)
      ensures sessionId == if restored then lastSessionId else freshId
      ensures restored <==>
        && lastSessionId != "" && lastSessionId in old(redis.records)
        && old(redis.records)[lastSessionId].publicKey == publicKey
        && now <= old(redis.records)[lastSessionId].reconnectExpiresAt
      ensures redis.records ==
        old(redis.records)[sessionId := Record(publicKey, nodeId, true, now + reconnectGraceMs)]
      ensures Listed(old(redis.index), redis.index, publicKey, sessionId)
    {
      if lastSessionId != "" && lastSessionId in redis.records {
        var existing := redis.records[lastSessionId];
        if existing.publicKey == publicKey && existing.reconnectExpiresAt >= now {
          redis.records := redis.records[lastSessionId :=
            existing.(nodeId := nodeId, active := true, reconnectExpiresAt := now + reconnectGraceMs)];
          AddActiveSession(publicKey, lastSessionId);
          return true, lastSessionId;
        }
      }
      redis.records := redis.records[freshId := Record(publicKey, nodeId, true, now + reconnectGraceMs)];
      redis.owners := redis.owners[freshId := publicKey];
      AddActiveSession(publicKey, freshId);
      return false, freshId;
    }

    method TouchSession(sessionId: string, now: int)
      modifies redis
      ensures redis.View() == Step(old(redis.View()), reconnectGraceMs, Touch(sessionId, now))
      ensures sessionId !in old(redis.records) ==> redis.View() == old(redis.View())
      ensures sessionId in old(redis.records) ==>
        var was := old(redis.records)[sessionId];
        && redis.records == old(redis.records)[sessionId :=
            Record(was.publicKey, was.nodeId, was.active, now + reconnectGraceMs)]
        && if was.active then Listed(old(redis.index), redis.index, was.publicKey, sessionId)
           else redis.index == old(redis.index)
    {
      if sessionId !in redis.records {
        return;
      }
      var existing := redis.records[sessionId];
      redis.records := redis.records[sessionId := existing.(reconnectExpiresAt := now + reconnectGraceMs)];
      if existing.active {
        AddActiveSession(existing.publicKey, sessionId);
      }
    }

    method MarkSessionDisconnected(sessionId: string, now: int)
      modifies redis
      ensures redis.View() == Step(old(redis.View()), reconnectGraceMs, Disconnect(nodeId, sessionId, now))
      ensures var was := old(redis.records);
        if sessionId !in was || (was[sessionId].active && was[sessionId].nodeId != nodeId) then
          redis.View() == old(redis.View())
        else
          && redis.records == was[sessionId :=
              Record(was[sessionId].publicKey, was[sessionId].nodeId, false, now + reconnectGraceMs)]
          && (NoEmpty(old(redis.index)) ==>
              Unlisted(old(redis.index), redis.index, was[sessionId].publicKey, {sessionId}))
    {
      if sessionId !in redis.records {
        return;
      }
      var existing := redis.records[sessionId];
      if existing.nodeId != nodeId && existing.active {
        return;
      }
      redis.records := redis.records[sessionId := existing.(active := false,
          reconnectExpiresAt := now + reconnectGraceMs)];
      redis.index := Take(redis.index, existing.publicKey, sessionId);
    }

    /** Redis itself never keeps an empty set. */
    method GetActiveSessionIds(publicKey: string) returns (ids: set<string>)
      requires NoEmpty(redis.index)
      modifies redis
      ensures ids == Answer(old(redis.View()), publicKey)
      ensures redis.View() == Step(old(redis.View()), reconnectGraceMs, Query(publicKey))
      ensures redis.records == old(redis.records)
      ensures ids == set id | Linked(old(redis.index), publicKey, id) && id in redis.records &&
        redis.records[id].publicKey == publicKey && redis.records[id].active
      ensures forall k, id :: Linked(redis.index, k, id) <==>
        Linked(old(redis.index), k, id) && (k == publicKey ==> id in ids)
    {
      var members := Lookup(redis.index, publicKey);
      NothingToRemove(redis.index, publicKey);
      if |members| == 0 {
        return {};
      }
      ids := ActiveAmong(redis.records, publicKey, members);
      var stale := members - ids;
      if |stale| > 0 {
        redis.index := RemoveMembers(redis.index, publicKey, stale);
      }
    }

    method AddActiveSession(publicKey: string, sessionId: string)
      modifies redis`index
      ensures redis.index == Put(old(redis.index), publicKey, sessionId)
    {
      redis.index := Put(redis.index, publicKey, sessionId);
    }
  }
}
