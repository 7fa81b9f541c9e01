/** The service that sends deletes and retries them, with its queue, tied to the steps of `DeleteRetry`. */
module DeleteRetryRuns {
  import opened Ordering
  import opened ReplicaSelection
  import opened SyncWire
  import opened DeleteRetry

  /** The holders to ask, each once: the origin first, then the replicas. */
  function DeleteTargets(origin: string, replicas: seq<string>): (targets: seq<string>)
    ensures Distinct(targets)
    ensures Elems(targets) == {origin} + Elems(replicas) - {"", UNKNOWN_PEER}
  {
    ElemsConcat([origin], replicas);
    DM.NormalizePeerIdList([origin] + replicas)
  }

  /** Passing several deletes: all first contacts go out at once. */
  function OpenAll(c: Config, s: State, requests: seq<Request>): State {
    if requests == [] then s
    else Step(c, OpenAll(c, s, requests[..|requests| - 1]), Pass(requests[|requests| - 1]))
  }

  function AnswerOne(c: Config, s: State, r: Request, reach: Reach): State { Step(c, s, PassAnswered(KeyOf(r), reach)) }

  /** The first contacts end, in the order given. */
  function AnswerAll(c: Config, s: State, arrivals: seq<Request>, reach: Request -> Reach): State {
    if arrivals == [] then s
    else
      var last := arrivals[|arrivals| - 1];
      AnswerOne(c, AnswerAll(c, s, arrivals[..|arrivals| - 1], reach), last, reach(last))
  }

  function RetryOne(c: Config, s: State, key: Key, reach: Reach): State {
    if Due(s, key, s.now) then Step(c, Step(c, s, RetryBegin(key, s.now)), RetryAnswered(0, reach)) else s
  }

  /** One run of the retry loop over the keys in the map's order. */
  function RetryAll(c: Config, s: State, keys: seq<Key>, reach: Key -> Reach): State {
    if keys == [] then s
    else
      var last := keys[|keys| - 1];
      RetryOne(c, RetryAll(c, s, keys[..|keys| - 1], reach), last, reach(last))
  }

  // ----- what one pass does, target by target -----

  predicate Waits(s: State, r: Request) { KeyOf(r) in s.books && s.books[KeyOf(r)] == Opened(None, r) }

  /** Confirmed, or queued with no attempt spent and a full interval to wait. */
  predicate Settled(c: Config, s: State, r: Request) {
    var key := KeyOf(r);
    && key in s.books && s.books[key].request == r && !s.books[key].sending
    && (Confirmed(s, key) <==> Queued(s.books, key).None?)
    && (Queued(s.books, key).Some? ==> Queued(s.books, key) == Some(Item(r, 0, s.now + c.intervalMs)))
  }

  predicate SameBook(s: State, t: State, key: Key) {
    (key in s.books <==> key in t.books) && (key in s.books ==> s.books[key] == t.books[key])
  }

  ghost predicate AllIdle(s: State, requests: seq<Request>) {
    forall r :: r in Elems(requests) ==> Idle(s, KeyOf(r))
  }

  ghost predicate AllWait(s: State, requests: seq<Request>) {
    forall r :: r in Elems(requests) ==> Waits(s, r)
  }

  ghost predicate AllSettled(c: Config, s: State, requests: seq<Request>) {
    forall r :: r in Elems(requests) ==> Settled(c, s, r)
  }

  predicate Unrelated(requests: seq<Request>, key: Key) {
    forall r :: r in Elems(requests) ==> KeyOf(r) != key
  }

  ghost predicate OthersUnmoved(s: State, t: State, requests: seq<Request>) {
    forall key :: Unrelated(requests, key) ==> SameBook(s, t, key)
  }

  ghost predicate KeysDiffer(requests: seq<Request>) {
    forall i, j :: 0 <= i < j < |requests| ==> KeyOf(requests[i]) != KeyOf(requests[j])
  }

  lemma StepFrame(c: Config, s: State, r: Request, reach: Reach, key: Key)
    requires key != KeyOf(r)
    ensures SameBook(s, Step(c, s, Pass(r)), key)
    ensures SameBook(s, AnswerOne(c, s, r, reach), key)
  {}

  /** The last request against those before it. */
  lemma LastKeyDiffers(requests: seq<Request>, r: Request)
    requires requests != [] && KeysDiffer(requests) && r in Elems(requests[..|requests| - 1])
    ensures KeyOf(r) != KeyOf(requests[|requests| - 1])
  {
    var i := IndexOf(requests, |requests| - 1, r);
  }

  lemma SplitLast(requests: seq<Request>)
    requires requests != []
    ensures Elems(requests) == Elems(requests[..|requests| - 1]) + {requests[|requests| - 1]}
    ensures KeysDiffer(requests) ==> Unrelated(requests[..|requests| - 1], KeyOf(requests[|requests| - 1]))
  {
    var n := |requests| - 1;
    PrefixStep(requests, n);
    assert requests[..n + 1] == requests;
    if KeysDiffer(requests) {
      forall r | r in Elems(requests[..n]) ensures KeyOf(r) != KeyOf(requests[n]) { LastKeyDiffers(requests, r); }
    }
  }

  lemma {:induction false} OpenAllOpens(c: Config, s: State, requests: seq<Request>)
    requires Inv(c, s) && AllIdle(s, requests) && KeysDiffer(requests) && c.maxRetries >= 1
    ensures Inv(c, OpenAll(c, s, requests))
    ensures AllWait(OpenAll(c, s, requests), requests) && OthersUnmoved(s, OpenAll(c, s, requests), requests)
  {
    if requests != [] {
      var before, last := requests[..|requests| - 1], requests[|requests| - 1];
      var t := OpenAll(c, s, before);
      SplitLast(requests);
      OpenAllOpens(c, s, before);
      assert SameBook(s, t, KeyOf(last));
      StepKeepsInv(c, t, Pass(last));
      forall r | r in Elems(before) ensures Waits(Step(c, t, Pass(last)), r) {
        StepFrame(c, t, last, Answered, KeyOf(r));
      }
      forall key | Unrelated(requests, key) ensures SameBook(s, Step(c, t, Pass(last)), key) {
        assert Unrelated(before, key);
        StepFrame(c, t, last, Answered, key);
      }
    }
  }

  lemma AnswerOneSettles(c: Config, s: State, r: Request, reach: Reach)
    requires Inv(c, s) && Waits(s, r) && c.maxRetries >= 1
    ensures Inv(c, AnswerOne(c, s, r, reach)) && Settled(c, AnswerOne(c, s, r, reach), r)
  {
    StepKeepsInv(c, s, PassAnswered(KeyOf(r), reach));
  }

  lemma {:induction false} AnswerAllSettles(c: Config, s: State, arrivals: seq<Request>, reach: Request -> Reach)
    requires Inv(c, s) && AllWait(s, arrivals) && KeysDiffer(arrivals) && c.maxRetries >= 1
    ensures Inv(c, AnswerAll(c, s, arrivals, reach))
    ensures AllSettled(c, AnswerAll(c, s, arrivals, reach), arrivals)
    ensures OthersUnmoved(s, AnswerAll(c, s, arrivals, reach), arrivals)
  {
    if arrivals != [] {
      var before, last := arrivals[..|arrivals| - 1], arrivals[|arrivals| - 1];
      var t := AnswerAll(c, s, before, reach);
      SplitLast(arrivals);
      AnswerAllSettles(c, s, before, reach);
      assert SameBook(s, t, KeyOf(last));
      AnswerOneSettles(c, t, last, reach(last));
      forall r | r in Elems(before) ensures Settled(c, AnswerOne(c, t, last, reach(last)), r) {
        StepFrame(c, t, last, reach(last), KeyOf(r));
      }
      forall key | Unrelated(arrivals, key) ensures SameBook(s, AnswerOne(c, t, last, reach(last)), key) {
        assert Unrelated(before, key);
        StepFrame(c, t, last, reach(last), key);
      }
    }
  }

  /** Passing deletes with different keys, none under way, settles each of them and touches nothing else, in
      whatever order their first contacts end. */
  lemma PassAllSettles(c: Config, s: State, requests: seq<Request>, arrivals: seq<Request>, reach: Request -> Reach)
    requires Inv(c, s) && AllIdle(s, requests) && c.maxRetries >= 1
    requires KeysDiffer(requests) && KeysDiffer(arrivals) && Elems(arrivals) == Elems(requests)
    ensures var t := AnswerAll(c, OpenAll(c, s, requests), arrivals, reach);
      Inv(c, t) && AllSettled(c, t, requests) && OthersUnmoved(s, t, requests)
  {
    var between := OpenAll(c, s, requests);
    OpenAllOpens(c, s, requests);
    AnswerAllSettles(c, between, arrivals, reach);
    var t := AnswerAll(c, between, arrivals, reach);
    forall key | Unrelated(requests, key) ensures SameBook(s, t, key) {
      assert Unrelated(arrivals, key);
      assert SameBook(s, between, key) && SameBook(between, t, key);
    }
  }

  // ----- what one run of the loop does, key by key -----

  /** An item that was due is gone, confirmed or given up, or has one more attempt and waits a full interval
      again; anything else is as it was. */
  ghost predicate Advanced(c: Config, s: State, t: State, key: Key) {
    if Queued(s.books, key).Some? && Queued(s.books, key).value.nextAttemptAt <= s.now
    then key in t.books && Moved(c, s.books[key].queued.value, s.now, t.books[key])
    else SameBook(s, t, key)
  }

  predicate Moved(c: Config, item: Item, now: int, after: Book) {
    match after.queued
    case Some(next) => next == item.(attempts := item.attempts + 1, nextAttemptAt := now + c.intervalMs)
    case None => after.confirmed || (after.exhausted && item.attempts + 1 >= c.maxRetries)
  }

  ghost predicate LoopDone(c: Config, s: State, t: State, done: set<Key>) {
    && t.retrying == [] && t.now == s.now
    && forall key :: if key in done then Advanced(c, s, t, key) else SameBook(s, t, key)
  }

  lemma RetryOneKeepsInv(c: Config, s: State, key: Key, reach: Reach)
    requires Inv(c, s) && s.retrying == [] && c.maxRetries >= 1
    ensures Inv(c, RetryOne(c, s, key, reach))
  {
    if Due(s, key, s.now) {
      StepKeepsInv(c, s, RetryBegin(key, s.now));
      StepKeepsInv(c, Step(c, s, RetryBegin(key, s.now)), RetryAnswered(0, reach));
    }
  }

  lemma RetryOneAdvances(c: Config, s: State, key: Key, reach: Reach)
    requires s.retrying == []
    ensures Advanced(c, s, RetryOne(c, s, key, reach), key)
    ensures RetryOne(c, s, key, reach).retrying == [] && RetryOne(c, s, key, reach).now == s.now
  {}

  lemma RetryOneFrame(c: Config, s: State, key: Key, reach: Reach, other: Key)
    requires other != key && s.retrying == []
    ensures SameBook(s, RetryOne(c, s, key, reach), other)
  {}

  lemma LoopOneMore(c: Config, s: State, t: State, done: set<Key>, key: Key, reach: Reach)
    requires LoopDone(c, s, t, done) && key !in done
    ensures LoopDone(c, s, RetryOne(c, t, key, reach), done + {key})
  {
    var u := RetryOne(c, t, key, reach);
    RetryOneAdvances(c, t, key, reach);
    assert SameBook(s, t, key);
    forall other | other != key ensures SameBook(t, u, other) { RetryOneFrame(c, t, key, reach, other); }
    forall other ensures if other in done + {key} then Advanced(c, s, u, other) else SameBook(s, u, other) {
      assert if other in done then Advanced(c, s, t, other) else SameBook(s, t, other);
    }
  }

  /** One run of the loop, whatever order the map yields its keys in. */
  lemma {:induction false} RetryAllAdvances(c: Config, s: State, keys: seq<Key>, reach: Key -> Reach)
    requires Inv(c, s) && s.retrying == [] && Distinct(keys) && c.maxRetries >= 1
    ensures Inv(c, RetryAll(c, s, keys, reach))
    ensures LoopDone(c, s, RetryAll(c, s, keys, reach), Elems(keys))
  {
    if keys != [] {
      var n := |keys| - 1;
      PrefixStep(keys, n);
      assert keys[..n + 1] == keys;
      assert keys[n] !in Elems(keys[..n]);
      RetryAllAdvances(c, s, keys[..n], reach);
      var t := RetryAll(c, s, keys[..n], reach);
      RetryOneKeepsInv(c, t, keys[n], reach(keys[n]));
      LoopOneMore(c, s, t, Elems(keys[..n]), keys[n], reach(keys[n]));
    }
  }

  // ----- the service -----

  function Requests(messageId: string, recipient: string, targets: seq<string>): (r: seq<Request>)
    ensures |r| == |targets| && forall i :: 0 <= i < |r| ==> r[i] == Request(messageId, recipient, targets[i])
  {
    seq(|targets|, i requires 0 <= i < |targets| => Request(messageId, recipient, targets[i]))
  }

  /** The deletes of one message never share a key. */
  lemma OneMessageKeysDiffer(messageId: string, recipient: string, targets: seq<string>)
    requires Distinct(targets)
    ensures KeysDiffer(Requests(messageId, recipient, targets))
  {
    var rs := Requests(messageId, recipient, targets);
    forall i, j | 0 <= i < j < |rs| ensures KeyOf(rs[i]) != KeyOf(rs[j]) {
      var n := |messageId + ":"|;
      assert KeyOf(rs[i]).text[n..] == targets[i] && KeyOf(rs[j]).text[n..] == targets[j];
    }
  }

  lemma SameRequests(messageId: string, recipient: string, a: seq<string>, b: seq<string>)
    requires Elems(a) == Elems(b)
    ensures Elems(Requests(messageId, recipient, a)) == Elems(Requests(messageId, recipient, b))
  {
    RequestElems(messageId, recipient, a);
    RequestElems(messageId, recipient, b);
  }

  lemma RequestElems(messageId: string, recipient: string, targets: seq<string>)
    ensures Elems(Requests(messageId, recipient, targets)) == set p | p in Elems(targets) ::
      Request(messageId, recipient, p)
  {
    var rs := Requests(messageId, recipient, targets);
    forall p | p in Elems(targets) ensures Request(messageId, recipient, p) in Elems(rs) {
      var i :| 0 <= i < |targets| && targets[i] == p;
      assert rs[i] in Elems(rs);
    }
  }

  /** The queue field holds what the books say is queued. */
  ghost predicate Holds(queue: map<Key, Item>, books: map<Key, Book>) {
    forall key :: HoldsAt(queue, books, key)
  }

  predicate HoldsAt(queue: map<Key, Item>, books: map<Key, Book>, key: Key) {
    if key in queue then Queued(books, key) == Some(queue[key]) else Queued(books, key).None?
  }

  function QueueAfterRetry(c: Config, queue: map<Key, Item>, key: Key, item: Item, success: bool, now: int)
    : map<Key, Item>
  {
    if success || item.attempts + 1 >= c.maxRetries then queue - {key}
    else queue[key := item.(attempts := item.attempts + 1, nextAttemptAt := now + c.intervalMs)]
  }

  /** The queue field goes along with the books. */
  lemma RetryOneQueue(c: Config, s: State, queue: map<Key, Item>, key: Key, reach: Reach)
    requires Holds(queue, s.books) && s.retrying == [] && key in queue && queue[key].nextAttemptAt <= s.now
    ensures var t := RetryOne(c, s, key, reach); var answer := Contact(c, s.tables, queue[key].request, reach);
      && t.tables == answer.0 && t.retrying == [] && t.now == s.now
      && Holds(QueueAfterRetry(c, queue, key, queue[key], answer.1, s.now), t.books)
  {
    var t := RetryOne(c, s, key, reach);
    var after := QueueAfterRetry(c, queue, key, queue[key], Contact(c, s.tables, queue[key].request, reach).1, s.now);
    assert HoldsAt(queue, s.books, key);
    forall other ensures HoldsAt(after, t.books, other) {
      assert HoldsAt(queue, s.books, other);
      if other != key { RetryOneFrame(c, s, key, reach, other); }
    }
  }

  lemma AnswerOneQueue(c: Config, s: State, queue: map<Key, Item>, r: Request, reach: Reach)
    requires Holds(queue, s.books) && Out(s, r)
    ensures var t := AnswerOne(c, s, r, reach); var answer := Contact(c, s.tables, r, reach);
      && t.tables == answer.0 && t.retrying == s.retrying && t.now == s.now
      && Holds(if answer.1 then queue else queue[KeyOf(r) := Item(r, 0, s.now + c.intervalMs)], t.books)
  {
    var t := AnswerOne(c, s, r, reach);
    var confirmed := Contact(c, s.tables, r, reach).1;
    var after := if confirmed then queue else queue[KeyOf(r) := Item(r, 0, s.now + c.intervalMs)];
    forall other ensures HoldsAt(after, t.books, other) {
      assert HoldsAt(queue, s.books, other);
      if other != KeyOf(r) { StepFrame(c, s, r, reach, other); }
    }
  }

  /** The queue field does not notice contacts going out. */
  lemma {:induction false} OpenAllQueue(c: Config, s: State, queue: map<Key, Item>, requests: seq<Request>)
    requires Holds(queue, s.books)
    ensures var t := OpenAll(c, s, requests);
      t.tables == s.tables && t.retrying == s.retrying && t.now == s.now && Holds(queue, t.books)
  {
    if requests != [] {
      OpenAllQueue(c, s, queue, requests[..|requests| - 1]);
      var before := OpenAll(c, s, requests[..|requests| - 1]);
      forall key ensures HoldsAt(queue, OpenAll(c, s, requests).books, key) {
        assert HoldsAt(queue, before.books, key);
      }
    }
  }

  /** The first contact for this very request is out. */
  predicate Out(s: State, r: Request) { Sending(s, KeyOf(r)) && s.books[KeyOf(r)].request == r }

  ghost predicate AllOut(s: State, requests: seq<Request>) {
    forall r :: r in Elems(requests) ==> Out(s, r)
  }

  lemma {:induction false} OpenAllOut(c: Config, s: State, requests: seq<Request>)
    requires KeysDiffer(requests)
    ensures AllOut(OpenAll(c, s, requests), requests)
  {
    if requests != [] {
      var before, last := requests[..|requests| - 1], requests[|requests| - 1];
      var t := OpenAll(c, s, before);
      SplitLast(requests);
      OpenAllOut(c, s, before);
      forall r | r in Elems(before) ensures Out(Step(c, t, Pass(last)), r) {
        StepFrame(c, t, last, Answered, KeyOf(r));
      }
    }
  }

  lemma {:induction false} AnswerAllFrame(c: Config, s: State, arrivals: seq<Request>, reach: Request -> Reach,
                                          key: Key)
    requires Unrelated(arrivals, key)
    ensures SameBook(s, AnswerAll(c, s, arrivals, reach), key)
  {
    if arrivals != [] {
      var before, last := arrivals[..|arrivals| - 1], arrivals[|arrivals| - 1];
      SplitLast(arrivals);
      AnswerAllFrame(c, s, before, reach, key);
      StepFrame(c, AnswerAll(c, s, before, reach), last, reach(last), key);
    }
  }

  /** When the i-th answer arrives, its contact is still out. */
  lemma StillOut(c: Config, s: State, arrivals: seq<Request>, reach: Request -> Reach, i: nat)
    requires AllOut(s, arrivals) && KeysDiffer(arrivals) && i < |arrivals|
    ensures Out(AnswerAll(c, s, arrivals[..i], reach), arrivals[i])
  {
    forall r | r in Elems(arrivals[..i]) ensures KeyOf(r) != KeyOf(arrivals[i]) { var j := IndexOf(arrivals, i, r); }
    AnswerAllFrame(c, s, arrivals[..i], reach, KeyOf(arrivals[i]));
    assert arrivals[i] in Elems(arrivals);
  }

  /** `tables` stands for the other servers' queues; `world` is the history the fields leave. */
  class DeleteRetryService {
    const config: Config
    var queue: map<Key, Item>
    var tables: Tables
    ghost var world: State

    ghost predicate Valid()
      reads this
    {
      Holds(queue, world.books) && world.tables == tables && world.retrying == []
    }

    constructor (config: Config)
      ensures Valid() && this.config == config && world == START
    {
      this.config := config;
      queue, tables, world := map[], map[], START;
    }

    method SendDmDeleteRequestToPeer(r: Request, reach: Reach) returns (success: bool)
      modifies this`tables
      ensures (tables, success) == Contact(config, old(tables), r, reach)
      ensures success <==> Clears(config, old(tables), r, reach)
      ensures OnlyThatRow(config, old(tables), tables, r, reach)
      ensures !reach.Unreachable? && Deletable(config, old(tables), r) ==> HeldNone(tables, r)
    {
      if reach.Unreachable? {
        return false;
      }
      var table := DeleteRetry.Table(tables, r.peerId);
      var deletion := DM.Delete(table, r.messageId, r.recipientPublicKey, config.localPeerId);
      tables := tables[r.peerId := deletion.0];
      return reach.Answered? && deletion.1;
    }

    method EnqueueDmDeleteRetry(r: Request, attempts: nat, now: int)
      modifies this`queue
      ensures queue == old(queue)[KeyOf(r) := Item(r, attempts, now + config.intervalMs)]
    {
      queue := queue[KeyOf(r) := Item(r, attempts, now + config.intervalMs)];
    }

    /** The continuation of one first contact. */
    method HearFromOne(r: Request, reach: Reach, now: int)
      requires Valid() && world.now == now && Out(world, r)
      modifies this
      ensures Valid() && world.now == now && world == AnswerOne(config, old(world), r, reach)
      ensures queue == if Clears(config, old(tables), r, reach) then old(queue)
        else old(queue)[KeyOf(r) := Item(r, 0, now + config.intervalMs)]
    {
      AnswerOneQueue(config, world, queue, r, reach);
      var success := SendDmDeleteRequestToPeer(r, reach);
      if !success {
        EnqueueDmDeleteRetry(r, 0, now);
      }
      world := AnswerOne(config, world, r, reach);
    }

    /** All first contacts go out; `arrivals` is the order in which their answers, or failures, come in. */
    method SendTargetedDmDelete(messageId: string, recipient: string, origin: string, replicas: seq<string>,
                                arrivals: seq<string>, reach: Request -> Reach, now: int)
      requires Valid() && world.now == now
      requires Distinct(arrivals) && Elems(arrivals) == Elems(DeleteTargets(origin, replicas))
      modifies this
      ensures Valid()
      ensures var requests := Requests(messageId, recipient, DeleteTargets(origin, replicas));
        var heard := Requests(messageId, recipient, arrivals);
        world == AnswerAll(config, OpenAll(config, old(world), requests), heard, reach)
    {
      var targets := DeleteTargets(origin, replicas);
      ghost var requests := Requests(messageId, recipient, targets);
      var heard := Requests(messageId, recipient, arrivals);
      OneMessageKeysDiffer(messageId, recipient, targets);
      OneMessageKeysDiffer(messageId, recipient, arrivals);
      SameRequests(messageId, recipient, targets, arrivals);
      OpenAllOut(config, world, requests);
      OpenAllQueue(config, world, queue, requests);
      world := OpenAll(config, world, requests);
      HearFromAll(heard, reach, now);
    }

    method HearFromAll(heard: seq<Request>, reach: Request -> Reach, now: int)
      requires Valid() && world.now == now && AllOut(world, heard) && KeysDiffer(heard)
      modifies this
      ensures Valid() && world == AnswerAll(config, old(world), heard, reach)
    {
      ghost var before := world;
      for i := 0 to |heard|
        invariant Valid() && world.now == now
        invariant world == AnswerAll(config, before, heard[..i], reach)
      {
        assert heard[..i + 1][..i] == heard[..i];
        StillOut(config, before, heard, reach, i);
        HearFromOne(heard[i], reach(heard[i]), now);
      }
      assert heard[..|heard|] == heard;
    }

    /** The body of the retry loop for one entry. */
    method RetryEntry(key: Key, reach: Reach, now: int)
      requires Valid() && world.now == now
      modifies this
      ensures Valid() && world.now == now && world == RetryOne(config, old(world), key, reach)
      ensures key !in old(queue) || old(queue)[key].nextAttemptAt > now ==>
        queue == old(queue) && tables == old(tables)
      ensures key in old(queue) && old(queue)[key].nextAttemptAt <= now ==>
        var Item(r, attempts, _) := old(queue)[key];
        queue == if Clears(config, old(tables), r, reach) || attempts + 1 >= config.maxRetries
          then old(queue) - {key}
          else old(queue)[key := Item(r, attempts + 1, now + config.intervalMs)]
    {
      assert HoldsAt(queue, world.books, key);
      if key !in queue || queue[key].nextAttemptAt > now {
        return;
      }
      RetryOneQueue(config, world, queue, key, reach);
      var item := queue[key];
      var success := SendDmDeleteRequestToPeer(item.request, reach);
      SettleRetry(key, item, success, now);
      world := RetryOne(config, world, key, reach);
    }

    method SettleRetry(key: Key, item: Item, success: bool, now: int)
      modifies this`queue
      ensures queue == QueueAfterRetry(config, old(queue), key, item, success, now)
    {
      if success {
        queue := queue - {key};
        return;
      }
      if item.attempts + 1 >= config.maxRetries {
        queue := queue - {key};
        return;
      }
      queue := queue[key := item.(attempts := item.attempts + 1, nextAttemptAt := now + config.intervalMs)];
    }

    /** `keys` is the order in which the map yields its entries. */
    method ProcessRetryQueue(keys: seq<Key>, reach: Key -> Reach, now: int)
      requires Valid() && world.now == now
      requires Distinct(keys) && Elems(keys) == queue.Keys
      modifies this
      ensures Valid()
      ensures world == RetryAll(config, old(world), keys, reach)
    {
      if |queue| == 0 {
        NoElems(keys);
        return;
      }
      for i := 0 to |keys|
        invariant Valid() && world.now == now
        invariant world == RetryAll(config, old(world), keys[..i], reach)
      {
        assert keys[..i + 1][..i] == keys[..i];
        RetryEntry(keys[i], reach(keys[i]), now);
      }
      assert keys[..|keys|] == keys;
    }
  }
}
