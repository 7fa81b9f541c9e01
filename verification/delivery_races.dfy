/** The retry timeout cut at its first await: what may come between reading an envelope and storing it again. */
module DeliveryRaces {
  import opened Delivery

  /** What a timeout handler has read. */
  datatype Found = Nothing | Envelope(pending: Pending)

  /** `handlers` are the timeouts that have read and not yet written, each with its key. */
  datatype SplitState = SplitState(node: State, handlers: map<nat, (Key, Found)>)

  datatype SplitEvent =
    | Whole(event: Event)
    | Read(handler: nat, key: Key)
    | Write(handler: nat, hasClient: bool)

  function Lookup(s: State, k: Key): Found { if IsPending(s, k) then Envelope(PendingAt(s, k)) else Nothing }

  function SplitStep(c: Config, s: SplitState, e: SplitEvent): SplitState {
    match e
    case Whole(event) => s.(node := Step(c, s.node, event))
    case Read(handler, k) =>
      if k !in s.node.timers || s.node.timers[k] > s.node.clock then s
      else SplitState(s.node.(log := s.node.log + [Fired(k)]), s.handlers[handler := (k, Lookup(s.node, k))])
    case Write(handler, hasClient) =>
      if handler !in s.handlers then s
      else
        var (k, found) := s.handlers[handler];
        SplitState(AfterRead(c, s.node, k, found, hasClient), s.handlers - {handler})
  }

  /** The rest of the timeout handler. */
  function AfterRead(c: Config, s: State, k: Key, found: Found, hasClient: bool): State {
    match found
    case Nothing => s.(timers := s.timers - {k})
    case Envelope(p) =>
      if p.attempt >= c.maxRetries then
        s.(pending := DeletePending(s.pending, k), timers := s.timers - {k}, log := s.log + [Exhausted(k)])
      else StoreRetry(c, s, k, p, hasClient)
  }

  /** Event ids are fresh, and so are handlers. */
  predicate SplitEnabled(s: SplitState, e: SplitEvent) {
    match e
    case Whole(event) => Enabled(s.node, event)
    case Read(handler, _) => handler !in s.handlers
    case Write(_, _) => true
  }

  function SplitRun(c: Config, s: SplitState, events: seq<SplitEvent>): SplitState
    decreases |events|
  {
    if events == [] then s else SplitRun(c, SplitStep(c, s, events[0]), events[1..])
  }

  predicate AllSplitEnabled(c: Config, s: SplitState, events: seq<SplitEvent>)
    decreases |events|
  {
    events == [] || (SplitEnabled(s, events[0]) && AllSplitEnabled(c, SplitStep(c, s, events[0]), events[1..]))
  }

  /** With nothing in between, the two pieces are the whole handler. */
  lemma PiecesMakeTimeout(c: Config, s: SplitState, handler: nat, k: Key, hasClient: bool)
    requires k in s.node.timers && s.node.timers[k] <= s.node.clock
    ensures SplitStep(c, SplitStep(c, s, Read(handler, k)), Write(handler, hasClient)).node
      == Step(c, s.node, Fire(k.0, k.1, hasClient))
  {}

  // ----- what is stored and sent is what was delivered -----

  /** So does what the handlers have read. */
  ghost predicate SplitCarries(s: SplitState, k: Key, body: string, sentAt: int) {
    && Carries(s.node, k, body, sentAt) && k in s.node.delivered
    && forall h :: h in s.handlers ==> FoundCarries(s.handlers[h], k, body, sentAt)
  }

  ghost predicate FoundCarries(read: (Key, Found), k: Key, body: string, sentAt: int) {
    read.0 == k && read.1.Envelope? ==> read.1.pending.body == body && read.1.pending.sentAt == sentAt
  }

  ghost predicate SplitUntouched(s: SplitState, k: Key) {
    Untouched(s.node, k) && forall h :: h in s.handlers && s.handlers[h].0 == k ==> s.handlers[h].1 == Nothing
  }

  predicate SplitDelivers(e: SplitEvent, k: Key) { e.Whole? && Delivers(e.event, k) }

  lemma SplitStepCarries(c: Config, s: SplitState, e: SplitEvent, k: Key, body: string, sentAt: int)
    requires SplitCarries(s, k, body, sentAt) && SplitEnabled(s, e)
    ensures SplitCarries(SplitStep(c, s, e), k, body, sentAt)
  {
    match e
    case Whole(event) => StepCarries(c, s.node, event, k, body, sentAt);
    case Read(handler, j) =>
    case Write(handler, hasClient) =>
      if handler in s.handlers { WriteCarries(c, s, handler, hasClient, k, body, sentAt); }
  }

  lemma WriteCarries(c: Config, s: SplitState, handler: nat, hasClient: bool, k: Key, body: string, sentAt: int)
    requires SplitCarries(s, k, body, sentAt) && handler in s.handlers
    ensures SplitCarries(SplitStep(c, s, Write(handler, hasClient)), k, body, sentAt)
  {
    var (j, found) := s.handlers[handler];
    assert FoundCarries(s.handlers[handler], k, body, sentAt);
    if found.Envelope? {
      if found.pending.attempt >= c.maxRetries {
        DeleteCarries(s.node, AfterRead(c, s.node, j, found, hasClient), j, [Exhausted(j)], k, body, sentAt);
      } else {
        RetryCarries(c, s.node, j, found.pending, hasClient, k, body, sentAt);
      }
    }
  }

  lemma SplitStepUntouched(c: Config, s: SplitState, e: SplitEvent, k: Key)
    requires SplitUntouched(s, k) && !SplitDelivers(e, k)
    ensures SplitUntouched(SplitStep(c, s, e), k)
  {
    match e
    case Whole(event) => StepUntouched(c, s.node, event, k);
    case Read(handler, j) =>
    case Write(handler, hasClient) =>
      if handler in s.handlers {
        var (j, found) := s.handlers[handler];
        if found.Envelope? {
          DeletePendingFields(s.node, j, k);
          StorePendingFields(s.node, j, found.pending.(attempt := found.pending.attempt + 1),
              s.node.clock + SessionTtl(c), k);
        }
      }
  }

  lemma SplitDeliverCarries(c: Config, s: SplitState, e: Event, k: Key)
    requires SplitUntouched(s, k) && Delivers(e, k)
    ensures SplitCarries(SplitStep(c, s, Whole(e)), k, e.body, s.node.clock)
  {
    DeliverCarries(c, s.node, k, e.body);
  }

  lemma {:induction false} SplitRunCarries(c: Config, s: SplitState, events: seq<SplitEvent>, k: Key, body: string,
                                           sentAt: int)
    requires SplitCarries(s, k, body, sentAt) && AllSplitEnabled(c, s, events)
    ensures SplitCarries(SplitRun(c, s, events), k, body, sentAt)
    decreases |events|
  {
    if events != [] {
      SplitStepCarries(c, s, events[0], k, body, sentAt);
      SplitRunCarries(c, SplitStep(c, s, events[0]), events[1..], k, body, sentAt);
    }
  }

  /** The i-th event delivered the key, and its content is what is stored, sent and read by handlers at the end. */
  ghost predicate SplitWasDelivered(c: Config, s: SplitState, events: seq<SplitEvent>, i: nat, k: Key) {
    && i < |events| && SplitDelivers(events[i], k)
    && SplitCarries(SplitRun(c, s, events), k, events[i].event.body, SplitRun(c, s, events[..i]).node.clock)
  }

  /** However timeouts are cut and interleaved, what is stored for a key and every send of it carries what
      was delivered; so from the start, where nothing is stored, sent or read. */
  lemma {:induction false} SplitContentIsDelivered(c: Config, s: SplitState, events: seq<SplitEvent>, k: Key)
    requires SplitUntouched(s, k) && AllSplitEnabled(c, s, events)
    ensures SplitUntouched(SplitRun(c, s, events), k) || exists i: nat :: SplitWasDelivered(c, s, events, i, k)
    decreases |events|
  {
    if events != [] {
      var e, rest := events[0], events[1..];
      var t := SplitStep(c, s, e);
      if SplitDelivers(e, k) {
        SplitDeliverCarries(c, s, e.event, k);
        SplitRunCarries(c, t, rest, k, e.event.body, s.node.clock);
        assert events[..0] == [];
        assert SplitWasDelivered(c, s, events, 0, k);
      } else {
        SplitStepUntouched(c, s, e, k);
        SplitContentIsDelivered(c, t, rest, k);
        if i: nat :| SplitWasDelivered(c, t, rest, i, k) {
          assert events[..i + 1][1..] == rest[..i];
          assert SplitWasDelivered(c, s, events, i + 1, k);
        }
      }
    }
  }

  // ----- an acknowledged envelope -----

  /** The handler has read the envelope and is going to store it again. */
  predicate WillStore(c: Config, s: SplitState, handler: nat, k: Key) {
    && handler in s.handlers && s.handlers[handler].0 == k
    && s.handlers[handler].1.Envelope? && s.handlers[handler].1.pending.attempt < c.maxRetries
  }

  ghost predicate SomeWriteStores(c: Config, s: SplitState, events: seq<SplitEvent>, k: Key) {
    exists i :: 0 <= i < |events| && events[i].Write? && WillStore(c, s, events[i].handler, k)
  }

  /** At some moment of the run the envelope is stored. */
  predicate EverPending(c: Config, s: SplitState, events: seq<SplitEvent>, k: Key)
    decreases |events|
  {
    IsPending(s.node, k) || (events != [] && EverPending(c, SplitStep(c, s, events[0]), events[1..], k))
  }

  predicate Gone(s: State, k: Key) { k in s.delivered && !IsPending(s, k) }

  lemma WholeKeepsGone(c: Config, s: State, e: Event, k: Key)
    requires Gone(s, k) && Enabled(s, e)
    ensures Gone(Step(c, s, e), k)
  {
    match e
    case Deliver(session, event, body, hasClient) =>
      StorePendingFields(s, (session, event), Pending(0, s.clock, body), s.clock + SessionTtl(c), k);
    case Ack(session, event) => DeletePendingFields(s, (session, event), k);
    case Fire(session, event, hasClient) => FireStoresOnlyStored(c, s, (session, event), hasClient, k);
    case _ =>
  }

  lemma WriteStoresOwn(c: Config, s: State, j: Key, found: Found, hasClient: bool, k: Key)
    requires Gone(s, k)
    ensures IsPending(AfterRead(c, s, j, found, hasClient), k)
      <==> j == k && found.Envelope? && found.pending.attempt < c.maxRetries
    ensures AfterRead(c, s, j, found, hasClient).delivered == s.delivered
  {
    if found.Envelope? {
      var p := found.pending;
      DeletePendingFields(s, j, k);
      StorePendingFields(s, j, p.(attempt := p.attempt + 1), s.clock + SessionTtl(c), k);
    }
  }

  /** Unless it is such a write, a step leaves the envelope gone and the handlers that will store it as they are. */
  lemma StepKeepsGone(c: Config, s: SplitState, e: SplitEvent, k: Key)
    requires Gone(s.node, k) && SplitEnabled(s, e) && !(e.Write? && WillStore(c, s, e.handler, k))
    ensures Gone(SplitStep(c, s, e).node, k)
    ensures forall h :: WillStore(c, SplitStep(c, s, e), h, k) <==> WillStore(c, s, h, k)
  {
    match e
    case Whole(event) => WholeKeepsGone(c, s.node, event, k);
    case Read(handler, j) =>
    case Write(handler, hasClient) =>
      if handler in s.handlers {
        WriteStoresOwn(c, s.node, s.handlers[handler].0, s.handlers[handler].1, hasClient, k);
      }
  }

  /** From any moment at which a delivered envelope is not stored, in particular right after its acknowledgement:
      it is stored again exactly when a handler had read it before with retries left and gets to write. */
  lemma {:induction false} GoneComesBackIff(c: Config, s: SplitState, events: seq<SplitEvent>, k: Key)
    requires Gone(s.node, k) && AllSplitEnabled(c, s, events)
    ensures EverPending(c, s, events, k) <==> SomeWriteStores(c, s, events, k)
    decreases |events|
  {
    if events != [] {
      var e, rest := events[0], events[1..];
      var t := SplitStep(c, s, e);
      if e.Write? && WillStore(c, s, e.handler, k) {
        WriteStoresOwn(c, s.node, s.handlers[e.handler].0, s.handlers[e.handler].1, e.hasClient, k);
        assert EverPending(c, t, rest, k);
      } else {
        StepKeepsGone(c, s, e, k);
        GoneComesBackIff(c, t, rest, k);
        LaterWrites(c, s, t, events, k);
      }
    }
  }

  lemma LaterWrites(c: Config, s: SplitState, t: SplitState, events: seq<SplitEvent>, k: Key)
    requires events != [] && !(events[0].Write? && WillStore(c, s, events[0].handler, k))
    requires forall h :: WillStore(c, t, h, k) <==> WillStore(c, s, h, k)
    ensures SomeWriteStores(c, t, events[1..], k) <==> SomeWriteStores(c, s, events, k)
  {
    var rest := events[1..];
    if SomeWriteStores(c, t, rest, k) {
      var i :| 0 <= i < |rest| && rest[i].Write? && WillStore(c, t, rest[i].handler, k);
      assert events[i + 1] == rest[i];
    }
    if SomeWriteStores(c, s, events, k) {
      var i :| 0 <= i < |events| && events[i].Write? && WillStore(c, s, events[i].handler, k);
      assert rest[i - 1] == events[i];
    }
  }

  /** A run in which this happens: the envelope is delivered, its timer fires, the handler reads; then the
      acknowledgement arrives, and the handler stores the envelope again. */
  lemma AcknowledgementIsOverwritten(c: Config)
    requires c.maxRetries >= 1 && c.reconnectGraceMs >= 0
    ensures var k := ("session", "event");
      var sent := SplitStep(c, SplitState(EMPTY, map[]), Whole(Deliver("session", "event", "body", true)));
      var reading := SplitStep(c, SplitStep(c, sent, Whole(Tick(2_000))), Read(1, k));
      var acked := SplitStep(c, reading, Whole(Ack("session", "event")));
      && !IsPending(acked.node, k)
      && IsPending(SplitStep(c, acked, Write(1, true)).node, k)
  {
    var k, p := ("session", "event"), Pending(0, 0, "body");
    var sent := SplitStep(c, SplitState(EMPTY, map[]), Whole(Deliver("session", "event", "body", true)));
    assert IsPending(sent.node, k) && PendingAt(sent.node, k) == p;
    var due := SplitStep(c, sent, Whole(Tick(2_000)));
    assert IsPending(due.node, k) && due.node.timers[k] == 2_000;
    var reading := SplitStep(c, due, Read(1, k));
    assert reading.handlers[1] == (k, Envelope(p));
    DeletePendingFields(reading.node, k, k);
    var acked := SplitStep(c, reading, Whole(Ack("session", "event")));
    WriteStoresOwn(c, acked.node, k, Envelope(p), true, k);
  }
}
