/** All servers together: how a message spreads from the server its sender uses, and how the recipient's
    server finds it. Every step is one handler, or the part of one between two awaits, on one server. */
module MessageNetwork {
  import opened DirectMessages
  import opened MessagePull
  import opened Ordering
  import opened Paging
  import opened ReplicaSelection
  import opened XorDistance

  /** What all servers agree on: the peer set, the ranking of peers for a recipient, the configuration. */
  datatype World = World(peers: set<string>, nearest: string -> Order, isSigned: Message -> bool, retentionMs: int,
                         pullBatchSize: nat, count: nat, quorum: nat)

  ghost predicate WellFormed(w: World) {
    && "" !in w.peers && UNKNOWN_PEER !in w.peers
    && 1 <= w.quorum <= w.count
    && w.pullBatchSize >= 1
    && forall key :: StrictTotal(w.nearest(key))
  }

  /** The ranking the servers compute is such an order for every recipient. */
  lemma DistanceRankingIsAllowed(w: World, hash: string -> Bytes, tie: Order)
    requires StrictTotal(tie) && forall key :: w.nearest(key) == DistanceOrder(hash, key, tie)
    ensures forall key :: StrictTotal(w.nearest(key))
  {
    forall key ensures StrictTotal(w.nearest(key)) { DistanceOrderIsStrictTotal(hash, key, tie); }
  }

  function ConfigOf(w: World, peer: string): Config {
    Config(peer, w.isSigned, w.retentionMs, w.pullBatchSize, w.count, w.quorum)
  }

  datatype Phase = Replicating | Delivering | AcceptedPhase | RejectedPhase

  /** One call of `handle_chat_message_send`: who acknowledged and who failed so far. */
  datatype Send = Send(origin: string, message: Message, targets: seq<string>, acked: seq<string>, failed: seq<string>,
                       phase: Phase, startedAt: int)

  /** `deleted` remembers the ids for which some server has dropped a row on request, `used` all ids ever seen;
      `carried` are the payloads servers have pulled, with the server each one reached. */
  datatype Network = Network(queues: map<string, Queue>, sends: map<string, Send>, deleted: set<string>, now: int,
                             carried: set<(string, Payload)>, used: set<string>)

  datatype Reply = Acknowledged | AckLost | NotReached

  datatype Event =
    | Begin(origin: string, message: Message, targets: seq<string>)
    | Ask(id: string, reply: Reply)
    | Settle(id: string)
    | Copy(id: string, peer: string)
    | Accept(id: string)
    | PullRead(reader: string, peer: string, publicKey: string, id: string)
    | PullStore(reader: string, payload: Payload)
    | SyncStore(peer: string, row: Row)
    | Remove(peer: string, id: string)
    | SweepAt(peer: string)
    | Tick(ms: nat)

  function SetQueue(n: Network, peer: string, queue: Queue): Network { n.(queues := n.queues[peer := queue]) }

  function SendPayload(s: Send): Payload { Payload(s.message, s.origin, s.targets) }

  function Asked(s: Send): nat { |s.acked| + |s.failed| }

  function Deliver(w: World, n: Network, s: Send, peer: string): (Network, bool)
    requires peer in n.queues
  {
    var (queue, stored) := Replicate(ConfigOf(w, peer), n.queues[peer], SendPayload(s), s.origin);
    (SetQueue(n, peer, queue), stored)
  }

  /** What a pull for the user shows at this server and instant. */
  function ViewAt(w: World, n: Network, peer: string, publicKey: string): map<string, Payload>
    requires peer in n.queues
  {
    PullView(ConfigOf(w, peer), n.queues[peer], publicKey, n.now)
  }

  function StoreRow(n: Network, peer: string, row: Row): Network
    requires peer in n.queues
  {
    SetQueue(n, peer, n.queues[peer][row.message.id := row])
  }

  ghost predicate Enabled(w: World, n: Network, e: Event) {
    match e
    case Begin(origin, message, targets) =>
      && origin in w.peers && message.id != "" && w.isSigned(message)
      && message.id !in n.used  // a fresh id
      && IsFirst(w.nearest(message.recipientPublicKey), Eligible(origin, w.peers), w.count, targets)
      && |targets| == w.count
    case Ask(id, _) => id in n.sends && n.sends[id].phase.Replicating? && Asked(n.sends[id]) < |n.sends[id].targets|
    case Settle(id) => id in n.sends && n.sends[id].phase.Replicating? && Asked(n.sends[id]) == |n.sends[id].targets|
    case Copy(id, peer) => id in n.sends && peer in w.peers
    case Accept(id) => id in n.sends && n.sends[id].phase.Delivering?
    case PullRead(reader, peer, publicKey, id) =>
      reader in w.peers && peer in w.peers && peer in n.queues && id in ViewAt(w, n, peer, publicKey)
    case PullStore(reader, payload) => reader in w.peers && (reader, payload) in n.carried &&
      w.isSigned(payload.message)
    case SyncStore(peer, row) => peer in w.peers && row.message.id != "" && IsCopy(w, n, row)
    case Remove(peer, _) => peer in w.peers
    case SweepAt(peer) => peer in w.peers
    case Tick(_) => true
  }

  /** A row with the content that was sent under its id, and with an expiry counted from the send time or from
      the origin's clock. Rows that arrive by table sync are assumed to be such; all others are shown to be. */
  predicate IsCopy(w: World, n: Network, row: Row) {
    row.message.id in n.sends ==>
      var s := n.sends[row.message.id];
      && row.message == s.message
      && (row.expiresAt == s.message.sendTime + w.retentionMs || row.expiresAt == s.startedAt + w.retentionMs)
  }

  function Step(w: World, n: Network, e: Event): Network
    requires n.queues.Keys == w.peers && Enabled(w, n, e) && SendsInWorld(w, n)
  {
    match e
    case Begin(origin, message, targets) =>
      var row := Row(message, origin, targets, false, n.now + w.retentionMs);
      SetQueue(n, origin, n.queues[origin][message.id := row])
        .(sends := n.sends[message.id := Send(origin, message, targets, [], [], Replicating, n.now)],
          used := n.used + {message.id})
    case Ask(id, reply) =>
      var s := n.sends[id];
      var peer := s.targets[Asked(s)];
      assert peer in Elems(s.targets);
      var (told, stored) := Deliver(w, n, s, peer);
      if reply == NotReached then n.(sends := n.sends[id := s.(failed := s.failed + [peer])])
      else if reply == Acknowledged && stored then told.(sends := n.sends[id := s.(acked := s.acked + [peer])])
      else told.(sends := n.sends[id := s.(failed := s.failed + [peer])])
    case Settle(id) =>
      var s := n.sends[id];
      if |s.acked| >= QuorumTarget(w.quorum, |s.targets|) then n.(sends := n.sends[id := s.(phase := Delivering)])
      else SetQueue(n, s.origin, n.queues[s.origin] - {id}).(sends := n.sends[id := s.(phase := RejectedPhase)])
    case Copy(id, peer) => Deliver(w, n, n.sends[id], peer).0
    case Accept(id) => n.(sends := n.sends[id := n.sends[id].(phase := AcceptedPhase)])
    case PullRead(reader, peer, publicKey, id) =>
      n.(carried := n.carried + {(reader, ViewAt(w, n, peer, publicKey)[id])})
    case PullStore(reader, payload) => StoreRow(n, reader, PulledRow(ConfigOf(w, reader), payload))
    case SyncStore(peer, row) => StoreRow(n, peer, row).(used := n.used + {row.message.id})
    case Remove(peer, id) => SetQueue(n, peer, n.queues[peer] - {id}).(deleted := n.deleted + {id})
    case SweepAt(peer) => SetQueue(n, peer, Sweep(n.queues[peer], n.now))
    case Tick(ms) => n.(now := n.now + ms)
  }

  ghost predicate SendsInWorld(w: World, n: Network) {
    forall id :: id in n.sends ==>
      n.sends[id].origin in w.peers && Elems(n.sends[id].targets) <= w.peers - {n.sends[id].origin}
  }

  /** Before this instant no copy of the message has expired anywhere. */
  function Deadline(w: World, s: Send): int { Min(s.startedAt, s.message.sendTime) + w.retentionMs }

  /** Neither deleted anywhere nor expired. */
  predicate Current(w: World, n: Network, id: string)
    requires id in n.sends
  {
    id !in n.deleted && n.now < Deadline(w, n.sends[id])
  }

  // ----- the invariant -----

  /** How far a send has got: who was asked, and that a settled one had its quorum. */
  ghost predicate Progress(w: World, s: Send) {
    && s.origin in w.peers && s.message.id != "" && w.isSigned(s.message)
    && IsFirst(w.nearest(s.message.recipientPublicKey), Eligible(s.origin, w.peers), w.count, s.targets)
    && |s.targets| == w.count
    && Asked(s) <= |s.targets|
    && Distinct(s.acked) && Distinct(s.failed)
    && Elems(s.acked) !! Elems(s.failed)
    && Elems(s.acked) + Elems(s.failed) == Elems(s.targets[..Asked(s)])
    && (s.phase.Delivering? || s.phase.AcceptedPhase? ==>
         Asked(s) == |s.targets| && |s.acked| >= QuorumTarget(w.quorum, |s.targets|))
  }

  /** Every stored copy is genuine and lives at least to the deadline. */
  ghost predicate Genuine(w: World, n: Network, id: string)
    requires id in n.sends
  {
    forall p :: p in n.queues && id in n.queues[p] ==>
      n.queues[p][id].message == n.sends[id].message && n.queues[p][id].expiresAt >= Deadline(w, n.sends[id])
  }

  /** The servers that must hold the row. */
  function Holders(s: Send): set<string> {
    Elems(s.acked) + (if s.phase.RejectedPhase? then {} else {s.origin})
  }

  ghost predicate Held(w: World, n: Network, id: string)
    requires id in n.sends
  {
    Current(w, n, id) ==> forall p :: p in Holders(n.sends[id]) && p in n.queues ==> id in n.queues[p]
  }

  ghost predicate SendInv(w: World, n: Network, id: string)
    requires id in n.sends
  {
    n.sends[id].message.id == id && Progress(w, n.sends[id]) && Genuine(w, n, id) && Held(w, n, id)
  }

  /** Rows are filed under their message's id, which is not empty. */
  ghost predicate Filed(n: Network) {
    forall p, id :: p in n.queues && id in n.queues[p] ==> id != "" && n.queues[p][id].message.id == id
  }

  ghost predicate CopiesKept(w: World, n: Network) {
    && n.queues.Keys == w.peers
    && Filed(n)
    && forall id :: id in n.sends ==> SendInv(w, n, id)
  }

  /** What was pulled is genuine. */
  predicate CarriedGenuine(n: Network, payload: Payload) {
    && payload.message.id != "" && payload.message.id in n.used
    && (payload.message.id in n.sends ==> payload.message == n.sends[payload.message.id].message)
  }

  /** No id is in use that was not recorded, and what servers carry is genuine. */
  ghost predicate IdsKept(n: Network) {
    && n.sends.Keys <= n.used
    && (forall p :: p in n.queues ==> n.queues[p].Keys <= n.used)
    && (forall c :: c in n.carried ==> CarriedGenuine(n, c.1))
  }

  ghost predicate Inv(w: World, n: Network) { CopiesKept(w, n) && IdsKept(n) }

  ghost predicate Init(w: World, n: Network) {
    && n.queues.Keys == w.peers && Filed(n) && n.sends == map[] && n.deleted == {} && n.carried == {}
    && forall p :: p in n.queues ==> n.queues[p].Keys <= n.used
  }

  lemma TargetsInWorld(w: World, s: Send)
    requires Progress(w, s)
    ensures Elems(s.targets) <= w.peers - {s.origin}
    ensures Elems(s.acked) <= w.peers - {s.origin}
  {
    forall p | p in Elems(s.targets[..Asked(s)]) ensures p in Elems(s.targets) {
      var i := IndexOf(s.targets, Asked(s), p);
    }
  }

  lemma InvSendsInWorld(w: World, n: Network)
    requires CopiesKept(w, n)
    ensures SendsInWorld(w, n)
  {
    forall id | id in n.sends
      ensures n.sends[id].origin in w.peers && Elems(n.sends[id].targets) <= w.peers - {n.sends[id].origin} {
      assert SendInv(w, n, id);
      TargetsInWorld(w, n.sends[id]);
    }
  }

  // ----- what each step keeps -----

  /** One queue changes: what is kept about the rows of one send. */
  lemma QueueChange(w: World, n: Network, t: Network, peer: string, id: string)
    requires CopiesKept(w, n) && id in n.sends && id in t.sends && t.sends[id] == n.sends[id] && peer in w.peers
    requires peer in t.queues && t.queues == n.queues[peer := t.queues[peer]]
    requires n.now <= t.now && n.deleted <= t.deleted
    requires id in t.queues[peer] ==> t.queues[peer][id].message == n.sends[id].message
                                      && t.queues[peer][id].expiresAt >= Deadline(w, n.sends[id])
    requires Current(w, t, id) && id in n.queues[peer] ==> id in t.queues[peer]
    ensures SendInv(w, t, id)
  {
    assert SendInv(w, n, id);
  }

  lemma UnchangedQueues(w: World, n: Network, t: Network, id: string)
    requires CopiesKept(w, n) && id in n.sends && id in t.sends && t.sends[id] == n.sends[id]
    requires t.queues == n.queues && n.now <= t.now && n.deleted <= t.deleted
    ensures SendInv(w, t, id)
  {
    assert SendInv(w, n, id);
  }

  lemma BeginKeeps(w: World, n: Network, origin: string, message: Message, targets: seq<string>)
    requires WellFormed(w) && Inv(w, n) && SendsInWorld(w, n) && Enabled(w, n, Begin(origin, message, targets))
    ensures CopiesKept(w, Step(w, n, Begin(origin, message, targets)))
  {
    var t := Step(w, n, Begin(origin, message, targets));
    forall id | id in t.sends ensures SendInv(w, t, id) {
      if id == message.id {
        assert targets[..0] == [];
      } else {
        QueueChange(w, n, t, origin, id);
      }
    }
  }

  lemma AskProgress(w: World, s: Send, acknowledged: bool)
    requires Progress(w, s) && WellFormed(w) && Asked(s) < |s.targets| && s.phase.Replicating?
    ensures var peer := s.targets[Asked(s)];
      Progress(w, if acknowledged then s.(acked := s.acked + [peer]) else s.(failed := s.failed + [peer]))
  {
    var peer := s.targets[Asked(s)];
    AscendingDistinct(w.nearest(s.message.recipientPublicKey), s.targets);
    PrefixStep(s.targets, Asked(s));
    assert peer !in Elems(s.targets[..Asked(s)]) by {
      if peer in Elems(s.targets[..Asked(s)]) { var i := IndexOf(s.targets, Asked(s), peer); }
    }
    ElemsConcat(s.acked, [peer]);
    ElemsConcat(s.failed, [peer]);
    assert peer !in Elems(s.acked) && peer !in Elems(s.failed);
  }

  /** A replica that processes the request stores a genuine row, whether or not its answer arrives. */
  lemma DeliverStores(w: World, n: Network, id: string, peer: string)
    requires WellFormed(w) && CopiesKept(w, n) && id in n.sends && peer in w.peers
    ensures var (t, stored) := Deliver(w, n, n.sends[id], peer);
      && stored
      && t.queues == n.queues[peer := t.queues[peer]] && t == n.(queues := t.queues)
      && id in t.queues[peer] && t.queues[peer][id].message == n.sends[id].message
      && t.queues[peer][id].expiresAt >= Deadline(w, n.sends[id])
      && (forall other :: other != id && other in t.queues[peer] ==>
           other in n.queues[peer] && t.queues[peer][other] == n.queues[peer][other])
      && (forall other :: other in n.queues[peer] ==> other in t.queues[peer])
  {
    assert SendInv(w, n, id);
  }

  lemma DeliverKeeps(w: World, n: Network, id: string, peer: string)
    requires WellFormed(w) && CopiesKept(w, n) && id in n.sends && peer in w.peers
    ensures CopiesKept(w, Deliver(w, n, n.sends[id], peer).0)
  {
    var t := Deliver(w, n, n.sends[id], peer).0;
    DeliverStores(w, n, id, peer);
    assert SendInv(w, n, id);
    forall j | j in t.sends ensures SendInv(w, t, j) {
      assert SendInv(w, n, j);
      QueueChange(w, n, t, peer, j);
    }
  }

  /** Only the record of one send changes. */
  lemma RecordChange(w: World, n: Network, id: string, s: Send)
    requires CopiesKept(w, n) && id in n.sends && Progress(w, s)
    requires s.origin == n.sends[id].origin && s.message == n.sends[id].message && s.startedAt == n.sends[id].startedAt
    requires forall p :: p in Holders(s) && p !in Holders(n.sends[id]) && p in n.queues ==> id in n.queues[p]
    ensures CopiesKept(w, n.(sends := n.sends[id := s]))
  {
    var t := n.(sends := n.sends[id := s]);
    assert SendInv(w, n, id);
    forall j | j in t.sends ensures SendInv(w, t, j) {
      if j != id { UnchangedQueues(w, n, t, j); }
    }
  }

  lemma AskKeeps(w: World, n: Network, id: string, reply: Reply)
    requires WellFormed(w) && CopiesKept(w, n) && SendsInWorld(w, n) && Enabled(w, n, Ask(id, reply))
    ensures CopiesKept(w, Step(w, n, Ask(id, reply)))
  {
    var s := n.sends[id];
    assert SendInv(w, n, id);
    var peer := s.targets[Asked(s)];
    TargetsInWorld(w, s);
    assert peer in Elems(s.targets);
    AskProgress(w, s, reply == Acknowledged);
    if reply == NotReached {
      RecordChange(w, n, id, s.(failed := s.failed + [peer]));
    } else {
      var t := Deliver(w, n, s, peer).0;
      DeliverStores(w, n, id, peer);
      DeliverKeeps(w, n, id, peer);
      if reply == Acknowledged {
        ElemsConcat(s.acked, [peer]);
        RecordChange(w, t, id, s.(acked := s.acked + [peer]));
      } else {
        RecordChange(w, t, id, s.(failed := s.failed + [peer]));
      }
    }
  }

  lemma SettleKeeps(w: World, n: Network, id: string)
    requires WellFormed(w) && CopiesKept(w, n) && SendsInWorld(w, n) && Enabled(w, n, Settle(id))
    ensures CopiesKept(w, Step(w, n, Settle(id)))
  {
    var s := n.sends[id];
    assert SendInv(w, n, id);
    if |s.acked| >= QuorumTarget(w.quorum, |s.targets|) {
      RecordChange(w, n, id, s.(phase := Delivering));
    } else {
      // the record no longer counts the origin as a holder, so the origin may give up its row
      RecordChange(w, n, id, s.(phase := RejectedPhase));
      RejectKeeps(w, n.(sends := n.sends[id := s.(phase := RejectedPhase)]), id);
    }
  }

  lemma RejectKeeps(w: World, n: Network, id: string)
    requires CopiesKept(w, n) && id in n.sends && n.sends[id].phase.RejectedPhase? && n.sends[id].origin in n.queues
    ensures CopiesKept(w, SetQueue(n, n.sends[id].origin, n.queues[n.sends[id].origin] - {id}))
  {
    var origin := n.sends[id].origin;
    var t := SetQueue(n, origin, n.queues[origin] - {id});
    assert SendInv(w, n, id);
    TargetsInWorld(w, n.sends[id]);
    forall j | j in t.sends && j != id ensures SendInv(w, t, j) { QueueChange(w, n, t, origin, j); }
  }

  lemma RemoveKeeps(w: World, n: Network, peer: string, id: string)
    requires CopiesKept(w, n) && SendsInWorld(w, n) && Enabled(w, n, Remove(peer, id))
    ensures CopiesKept(w, Step(w, n, Remove(peer, id)))
  {
    var t := Step(w, n, Remove(peer, id));
    forall j | j in t.sends ensures SendInv(w, t, j) {
      assert SendInv(w, n, j);
      QueueChange(w, n, t, peer, j);
    }
  }

  lemma StoreKeeps(w: World, n: Network, peer: string, row: Row)
    requires CopiesKept(w, n) && peer in w.peers && row.message.id != "" && IsCopy(w, n, row)
    ensures CopiesKept(w, StoreRow(n, peer, row))
  {
    var t := StoreRow(n, peer, row);
    forall j | j in t.sends ensures SendInv(w, t, j) {
      assert SendInv(w, n, j);
      QueueChange(w, n, t, peer, j);
    }
  }

  /** What is kept of a pulled message is a genuine copy. */
  lemma PulledIsCopy(w: World, n: Network, reader: string, payload: Payload)
    requires CarriedGenuine(n, payload)
    ensures IsCopy(w, n, PulledRow(ConfigOf(w, reader), payload))
  {}

  /** What is shown to a pull is genuine. */
  lemma ViewIsGenuine(w: World, n: Network, peer: string, publicKey: string, id: string)
    requires Inv(w, n) && peer in n.queues && id in ViewAt(w, n, peer, publicKey)
    ensures CarriedGenuine(n, ViewAt(w, n, peer, publicKey)[id])
  {
    assert id in n.queues[peer];
    if id in n.sends { assert SendInv(w, n, id); }
  }

  lemma OnlyIdsMatter(w: World, n: Network, t: Network)
    requires CopiesKept(w, n) && t.queues == n.queues && t.sends == n.sends && t.deleted == n.deleted && t.now >= n.now
    ensures CopiesKept(w, t)
  {
    forall j | j in t.sends ensures SendInv(w, t, j) { UnchangedQueues(w, n, t, j); }
  }

  lemma SweepKeeps(w: World, n: Network, peer: string)
    requires CopiesKept(w, n) && SendsInWorld(w, n) && Enabled(w, n, SweepAt(peer))
    ensures CopiesKept(w, Step(w, n, SweepAt(peer)))
  {
    var t := Step(w, n, SweepAt(peer));
    forall j | j in t.sends ensures SendInv(w, t, j) {
      assert SendInv(w, n, j);
      QueueChange(w, n, t, peer, j);
    }
  }

  lemma StepKeepsCopies(w: World, n: Network, e: Event)
    requires WellFormed(w) && Inv(w, n) && SendsInWorld(w, n) && Enabled(w, n, e)
    ensures CopiesKept(w, Step(w, n, e))
  {
    match e
    case Begin(origin, message, targets) => BeginKeeps(w, n, origin, message, targets);
    case Ask(id, reply) => AskKeeps(w, n, id, reply);
    case Settle(id) => SettleKeeps(w, n, id);
    case Copy(id, peer) => DeliverKeeps(w, n, id, peer);
    case Accept(id) =>
      assert SendInv(w, n, id);
      RecordChange(w, n, id, n.sends[id].(phase := AcceptedPhase));
    case PullRead(reader, peer, publicKey, id) => OnlyIdsMatter(w, n, Step(w, n, e));
    case PullStore(reader, payload) =>
      assert CarriedGenuine(n, (reader, payload).1);
      PulledIsCopy(w, n, reader, payload);
      StoreKeeps(w, n, reader, PulledRow(ConfigOf(w, reader), payload));
    case SyncStore(peer, row) =>
      StoreKeeps(w, n, peer, row);
      OnlyIdsMatter(w, StoreRow(n, peer, row), Step(w, n, e));
    case Remove(peer, id) => RemoveKeeps(w, n, peer, id);
    case SweepAt(peer) => SweepKeeps(w, n, peer);
    case Tick(ms) => OnlyIdsMatter(w, n, Step(w, n, e));
  }

  /** One queue gains at most one id, which is recorded; records keep their messages. */
  ghost predicate IdsGrow(n: Network, t: Network) {
    && t.queues.Keys == n.queues.Keys
    && n.used <= t.used && t.sends.Keys <= t.used
    && (forall p :: p in t.queues ==> t.queues[p].Keys <= t.used)
    && (forall id :: id in t.sends && id in n.used ==> id in n.sends && t.sends[id].message == n.sends[id].message)
  }

  lemma IdsStayKept(n: Network, t: Network)
    requires IdsKept(n) && IdsGrow(n, t) && t.carried == n.carried
    ensures IdsKept(t)
  {
    forall c | c in t.carried ensures CarriedGenuine(t, c.1) { assert CarriedGenuine(n, c.1); }
  }

  lemma StoreGrows(n: Network, peer: string, row: Row)
    requires IdsKept(n) && peer in n.queues && row.message.id in n.used
    ensures IdsGrow(n, StoreRow(n, peer, row))
  {}

  lemma DeliverGrows(w: World, n: Network, id: string, peer: string)
    requires WellFormed(w) && Inv(w, n) && id in n.sends && peer in w.peers
    ensures IdsGrow(n, Deliver(w, n, n.sends[id], peer).0)
    ensures Deliver(w, n, n.sends[id], peer).0.sends == n.sends
  {
    DeliverStores(w, n, id, peer);
    assert SendInv(w, n, id);
  }

  lemma BeginKeepsIds(w: World, n: Network, origin: string, message: Message, targets: seq<string>)
    requires Inv(w, n) && SendsInWorld(w, n) && Enabled(w, n, Begin(origin, message, targets))
    ensures IdsKept(Step(w, n, Begin(origin, message, targets)))
  {
    IdsStayKept(n, Step(w, n, Begin(origin, message, targets)));
  }

  lemma RecordKeepsIds(n: Network, id: string, s: Send)
    requires IdsKept(n) && id in n.sends && s.message == n.sends[id].message
    ensures IdsKept(n.(sends := n.sends[id := s]))
  {
    IdsStayKept(n, n.(sends := n.sends[id := s]));
  }

  lemma DropKeepsIds(n: Network, peer: string, id: string)
    requires IdsKept(n) && peer in n.queues
    ensures IdsKept(SetQueue(n, peer, n.queues[peer] - {id}))
  {
    IdsStayKept(n, SetQueue(n, peer, n.queues[peer] - {id}));
  }

  lemma DeliverKeepsIds(w: World, n: Network, id: string, peer: string)
    requires WellFormed(w) && Inv(w, n) && id in n.sends && peer in w.peers
    ensures IdsKept(Deliver(w, n, n.sends[id], peer).0) && Deliver(w, n, n.sends[id], peer).0.sends == n.sends
  {
    DeliverGrows(w, n, id, peer);
    IdsStayKept(n, Deliver(w, n, n.sends[id], peer).0);
  }

  lemma AskKeepsIds(w: World, n: Network, id: string, reply: Reply, told: Network)
    requires n.queues.Keys == w.peers && SendsInWorld(w, n) && Enabled(w, n, Ask(id, reply))
    requires IdsKept(n) && IdsKept(told) && told.sends == n.sends
    requires n.sends[id].targets[Asked(n.sends[id])] in n.queues
    requires told == Deliver(w, n, n.sends[id], n.sends[id].targets[Asked(n.sends[id])]).0
    ensures IdsKept(Step(w, n, Ask(id, reply)))
  {
    var s, peer := n.sends[id], n.sends[id].targets[Asked(n.sends[id])];
    RecordKeepsIds(n, id, s.(failed := s.failed + [peer]));
    RecordKeepsIds(told, id, s.(failed := s.failed + [peer]));
    RecordKeepsIds(told, id, s.(acked := s.acked + [peer]));
  }

  lemma SettleKeepsIds(w: World, n: Network, id: string)
    requires n.queues.Keys == w.peers && IdsKept(n) && SendsInWorld(w, n) && Enabled(w, n, Settle(id))
    ensures IdsKept(Step(w, n, Settle(id)))
  {
    var s := n.sends[id];
    RecordKeepsIds(n, id, s.(phase := Delivering));
    DropKeepsIds(n, s.origin, id);
    RecordKeepsIds(SetQueue(n, s.origin, n.queues[s.origin] - {id}), id, s.(phase := RejectedPhase));
  }

  lemma PullKeepsIds(w: World, n: Network, e: Event)
    requires Inv(w, n) && SendsInWorld(w, n) && Enabled(w, n, e) && (e.PullRead? || e.PullStore?)
    ensures IdsKept(Step(w, n, e))
  {
    match e
    case PullRead(reader, peer, publicKey, id) => ViewIsGenuine(w, n, peer, publicKey, id);
    case PullStore(reader, payload) =>
      assert CarriedGenuine(n, (reader, payload).1);
      StoreGrows(n, reader, PulledRow(ConfigOf(w, reader), payload));
      IdsStayKept(n, Step(w, n, e));
  }

  lemma SyncStoreKeepsIds(w: World, n: Network, peer: string, row: Row)
    requires Inv(w, n) && SendsInWorld(w, n) && Enabled(w, n, SyncStore(peer, row))
    ensures IdsKept(Step(w, n, SyncStore(peer, row)))
  {
    var known := n.(used := n.used + {row.message.id});
    assert IdsKept(known) by {
      forall c | c in known.carried ensures CarriedGenuine(known, c.1) { assert CarriedGenuine(n, c.1); }
    }
    StoreGrows(known, peer, row);
    IdsStayKept(known, StoreRow(known, peer, row));
    assert Step(w, n, SyncStore(peer, row)) == StoreRow(known, peer, row);
  }

  /** Rows go, records move on, time passes: nothing new is used. */
  lemma RestKeepsIds(w: World, n: Network, e: Event)
    requires Inv(w, n) && SendsInWorld(w, n) && Enabled(w, n, e)
    requires e.Accept? || e.Remove? || e.SweepAt? || e.Tick?
    ensures IdsKept(Step(w, n, e))
  {
    IdsStayKept(n, Step(w, n, e));
  }

  lemma StepKeepsIds(w: World, n: Network, e: Event)
    requires WellFormed(w) && Inv(w, n) && SendsInWorld(w, n) && Enabled(w, n, e)
    ensures IdsKept(Step(w, n, e))
  {
    match e
    case Begin(origin, message, targets) => BeginKeepsIds(w, n, origin, message, targets);
    case Ask(id, reply) =>
      var peer := n.sends[id].targets[Asked(n.sends[id])];
      assert peer in Elems(n.sends[id].targets);
      DeliverKeepsIds(w, n, id, peer);
      AskKeepsIds(w, n, id, reply, Deliver(w, n, n.sends[id], peer).0);
    case Settle(id) => SettleKeepsIds(w, n, id);
    case Copy(id, peer) => DeliverKeepsIds(w, n, id, peer);
    case SyncStore(peer, row) => SyncStoreKeepsIds(w, n, peer, row);
    case PullRead(_, _, _, _) => PullKeepsIds(w, n, e);
    case PullStore(_, _) => PullKeepsIds(w, n, e);
    case _ => RestKeepsIds(w, n, e);
  }

  lemma StepKeepsInv(w: World, n: Network, e: Event)
    requires WellFormed(w) && Inv(w, n) && Enabled(w, n, e)
    ensures SendsInWorld(w, n) && Inv(w, Step(w, n, e))
  {
    InvSendsInWorld(w, n);
    StepKeepsCopies(w, n, e);
    StepKeepsIds(w, n, e);
  }

  // ----- runs -----

  ghost predicate AllEnabled(w: World, n: Network, events: seq<Event>)
    requires WellFormed(w) && Inv(w, n)
    decreases |events|
  {
    events == [] || (Enabled(w, n, events[0]) &&
      (StepKeepsInv(w, n, events[0]); AllEnabled(w, Step(w, n, events[0]), events[1..])))
  }

  function Run(w: World, n: Network, events: seq<Event>): (t: Network)
    requires WellFormed(w) && Inv(w, n) && AllEnabled(w, n, events)
    ensures Inv(w, t)
    decreases |events|
  {
    if events == [] then n
    else
      StepKeepsInv(w, n, events[0]);
      Run(w, Step(w, n, events[0]), events[1..])
  }

  /** A run may start wherever no send is in progress. */
  lemma InitInv(w: World, n: Network)
    requires WellFormed(w) && Init(w, n)
    ensures Inv(w, n)
  {}

  predicate IsAccepted(n: Network, id: string) { id in n.sends && n.sends[id].phase.AcceptedPhase? }

  lemma AcceptedThroughAsk(w: World, n: Network, asked: string, reply: Reply, id: string)
    requires Inv(w, n) && SendsInWorld(w, n) && Enabled(w, n, Ask(asked, reply)) && IsAccepted(n, id)
    ensures id in Step(w, n, Ask(asked, reply)).sends && Step(w, n, Ask(asked, reply)).sends[id] == n.sends[id]
  {
    assert asked != id;
    assert n.sends[asked].targets[Asked(n.sends[asked])] in Elems(n.sends[asked].targets);
  }

  lemma AcceptedThroughSettle(w: World, n: Network, settled: string, id: string)
    requires Inv(w, n) && SendsInWorld(w, n) && Enabled(w, n, Settle(settled)) && IsAccepted(n, id)
    ensures id in Step(w, n, Settle(settled)).sends && Step(w, n, Settle(settled)).sends[id] == n.sends[id]
  {
    assert settled != id;
  }

  lemma AcceptedThroughBegin(w: World, n: Network, origin: string, message: Message, targets: seq<string>, id: string)
    requires Inv(w, n) && SendsInWorld(w, n) && Enabled(w, n, Begin(origin, message, targets)) && IsAccepted(n, id)
    ensures var t := Step(w, n, Begin(origin, message, targets)); id in t.sends && t.sends[id] == n.sends[id]
  {
    assert message.id != id;
  }

  lemma AcceptedStep(w: World, n: Network, e: Event, id: string)
    requires WellFormed(w) && Inv(w, n) && Enabled(w, n, e) && SendsInWorld(w, n) && IsAccepted(n, id)
    ensures id in Step(w, n, e).sends && Step(w, n, e).sends[id] == n.sends[id]
  {
    match e
    case Begin(origin, message, targets) => AcceptedThroughBegin(w, n, origin, message, targets, id);
    case Ask(asked, reply) => AcceptedThroughAsk(w, n, asked, reply, id);
    case Settle(settled) => AcceptedThroughSettle(w, n, settled, id);
    case Copy(copied, peer) => DeliverGrows(w, n, copied, peer);
    case _ =>
  }

  /** The record of an accepted message never changes again. */
  lemma {:induction false} AcceptedStays(w: World, n: Network, events: seq<Event>, id: string)
    requires WellFormed(w) && Inv(w, n) && AllEnabled(w, n, events)
    requires id in n.sends && n.sends[id].phase.AcceptedPhase?
    ensures id in Run(w, n, events).sends && Run(w, n, events).sends[id] == n.sends[id]
    decreases |events|
  {
    if events != [] {
      StepKeepsInv(w, n, events[0]);
      AcceptedStep(w, n, events[0], id);
      AcceptedStays(w, Step(w, n, events[0]), events[1..], id);
    }
  }

  /** Accepted means replicated at the full configured quorum: that many distinct servers other than the
      origin acknowledged, no target both acknowledged and failed, every target did one of the two; and
      while the message is current each of those servers, and the origin, holds a genuine copy. */
  lemma AcceptedAtQuorum(w: World, start: Network, events: seq<Event>, id: string)
    requires WellFormed(w) && Inv(w, start) && AllEnabled(w, start, events)
    requires var n := Run(w, start, events); id in n.sends && n.sends[id].phase.AcceptedPhase?
    ensures var n := Run(w, start, events); var s := n.sends[id];
      && Distinct(s.acked) && |s.acked| >= w.quorum
      && s.origin !in Elems(s.acked) && Elems(s.acked) <= w.peers
      && Elems(s.acked) !! Elems(s.failed) && Elems(s.acked) + Elems(s.failed) == Elems(s.targets)
      && (Current(w, n, id) ==>
           forall p :: p in Elems(s.acked) + {s.origin} ==> id in n.queues[p] && n.queues[p][id].message == s.message)
  {
    var n := Run(w, start, events);
    var s := n.sends[id];
    assert SendInv(w, n, id);
    TargetsInWorld(w, s);
    assert s.targets[..|s.targets|] == s.targets;
  }

  // ----- when a send is accepted -----

  function AskAll(id: string, replies: seq<Reply>): seq<Event> {
    if replies == [] then [] else [Ask(id, replies[0])] + AskAll(id, replies[1..])
  }

  function Acknowledgements(replies: seq<Reply>): nat {
    if replies == [] then 0 else (if replies[0] == Acknowledged then 1 else 0) + Acknowledgements(replies[1..])
  }

  /** One send record further: `more` targets asked, `acked` of them acknowledging, everything else the same. */
  ghost predicate AskedFurther(s: Send, t: Send, more: nat, acked: nat) {
    && t.origin == s.origin && t.message == s.message && t.targets == s.targets && t.phase == s.phase &&
      t.startedAt == s.startedAt
    && Asked(t) == Asked(s) + more && |t.acked| == |s.acked| + acked
  }

  lemma AskOne(w: World, n: Network, id: string, reply: Reply)
    requires WellFormed(w) && Inv(w, n) && Enabled(w, n, Ask(id, reply))
    ensures SendsInWorld(w, n) && Inv(w, Step(w, n, Ask(id, reply)))
    ensures id in Step(w, n, Ask(id, reply)).sends
    ensures AskedFurther(n.sends[id], Step(w, n, Ask(id, reply)).sends[id], 1, if reply == Acknowledged then 1 else 0)
  {
    StepKeepsInv(w, n, Ask(id, reply));
    assert SendInv(w, n, id);
  }

  lemma {:induction false} AskAllRun(w: World, n: Network, id: string, replies: seq<Reply>)
    requires WellFormed(w) && Inv(w, n) && id in n.sends && n.sends[id].phase.Replicating?
    requires Asked(n.sends[id]) + |replies| <= |n.sends[id].targets|
    ensures AllEnabled(w, n, AskAll(id, replies))
    ensures id in Run(w, n, AskAll(id, replies)).sends
    ensures AskedFurther(n.sends[id], Run(w, n, AskAll(id, replies)).sends[id], |replies|, Acknowledgements(replies))
    decreases |replies|
  {
    if replies != [] {
      AskOne(w, n, id, replies[0]);
      AskAllRun(w, Step(w, n, Ask(id, replies[0])), id, replies[1..]);
      assert AskAll(id, replies)[0] == Ask(id, replies[0]) && AskAll(id, replies)[1..] == AskAll(id, replies[1..]);
    }
  }

  /** A send can always go on: it starts, asks each target once and settles, whatever the replies. It is then on
      its way to acceptance exactly when at least the configured quorum acknowledged; otherwise it is rejected
      and the origin's row is gone. */
  lemma AcceptedIffQuorum(w: World, n: Network, origin: string, message: Message, targets: seq<string>,
                          replies: seq<Reply>)
    returns (begun: Network, asked: Network, settled: Network)
    requires WellFormed(w) && Inv(w, n) && SendsInWorld(w, n) && Enabled(w, n, Begin(origin, message, targets))
    requires |replies| == w.count
    ensures begun == Step(w, n, Begin(origin, message, targets)) && Inv(w, begun)
    ensures AllEnabled(w, begun, AskAll(message.id, replies)) && asked == Run(w, begun, AskAll(message.id, replies))
    ensures Enabled(w, asked, Settle(message.id)) && SendsInWorld(w, asked) &&
      settled == Step(w, asked, Settle(message.id))
    ensures message.id in settled.sends && origin in settled.queues
    ensures if Acknowledgements(replies) >= w.quorum then Enabled(w, settled, Accept(message.id))
            else settled.sends[message.id].phase.RejectedPhase? && message.id !in settled.queues[origin]
  {
    StepKeepsInv(w, n, Begin(origin, message, targets));
    begun := Step(w, n, Begin(origin, message, targets));
    AskAllRun(w, begun, message.id, replies);
    asked := Run(w, begun, AskAll(message.id, replies));
    InvSendsInWorld(w, asked);
    settled := Step(w, asked, Settle(message.id));
    assert QuorumTarget(w.quorum, |targets|) == w.quorum;
  }

  // ----- one server's handler and the network -----

  /** One of the targets still to be asked acknowledges. */
  ghost predicate WillAcknowledge(s: Send, replies: seq<Reply>, p: string) {
    exists j :: 0 <= j < |replies| && Asked(s) + j < |s.targets| && replies[j] == Acknowledged &&
      s.targets[Asked(s) + j] == p
  }

  lemma AskOneAcks(w: World, n: Network, id: string, reply: Reply)
    requires n.queues.Keys == w.peers && SendsInWorld(w, n) && Enabled(w, n, Ask(id, reply)) &&
      w.isSigned(n.sends[id].message)
    ensures var s := n.sends[id]; var t := Step(w, n, Ask(id, reply));
      && id in t.sends && s.origin in n.queues && s.origin in t.queues && t.queues[s.origin] == n.queues[s.origin]
      && Elems(t.sends[id].acked) == Elems(s.acked) + (if reply == Acknowledged then {s.targets[Asked(s)]} else {})
  {
    var s := n.sends[id];
    var peer := s.targets[Asked(s)];
    assert peer in Elems(s.targets) && peer != s.origin;
    ElemsConcat(s.acked, [peer]);
    assert Elems([peer]) == {peer};
  }

  lemma WillAcknowledgeStep(s: Send, t: Send, replies: seq<Reply>, p: string)
    requires replies != [] && t.targets == s.targets && Asked(t) == Asked(s) + 1 && Asked(s) + |replies| <= |s.targets|
    ensures WillAcknowledge(s, replies, p)
      <==> (replies[0] == Acknowledged && p == s.targets[Asked(s)]) || WillAcknowledge(t, replies[1..], p)
  {
    if WillAcknowledge(s, replies, p) {
      var j :| 0 <= j < |replies| && Asked(s) + j < |s.targets| && replies[j] == Acknowledged &&
        s.targets[Asked(s) + j] == p;
      if j > 0 { assert replies[1..][j - 1] == Acknowledged && t.targets[Asked(t) + (j - 1)] == p; }
    }
    if WillAcknowledge(t, replies[1..], p) {
      var j :| 0 <= j < |replies[1..]| && Asked(t) + j < |t.targets| && replies[1..][j] == Acknowledged &&
        t.targets[Asked(t) + j] == p;
      assert replies[j + 1] == Acknowledged && s.targets[Asked(s) + (j + 1)] == p;
    }
  }

  lemma SendIsSigned(w: World, n: Network, id: string)
    requires Inv(w, n) && id in n.sends
    ensures w.isSigned(n.sends[id].message) && Distinct(n.sends[id].acked)
  {
    assert SendInv(w, n, id);
  }

  /** Asking leaves the origin's queue alone, and adds those who acknowledge. */
  lemma {:induction false} AskAllAcks(w: World, n: Network, id: string, replies: seq<Reply>)
    requires WellFormed(w) && Inv(w, n) && id in n.sends && n.sends[id].phase.Replicating?
    requires Asked(n.sends[id]) + |replies| <= |n.sends[id].targets| && AllEnabled(w, n, AskAll(id, replies))
    ensures var s := n.sends[id]; var t := Run(w, n, AskAll(id, replies));
      && id in t.sends && s.origin in n.queues && s.origin in t.queues && t.queues[s.origin] == n.queues[s.origin]
      && forall p :: p in Elems(t.sends[id].acked) <==> p in Elems(s.acked) || WillAcknowledge(s, replies, p)
    decreases |replies|
  {
    InvSendsInWorld(w, n);
    if replies != [] {
      SendIsSigned(w, n, id);
      AskOne(w, n, id, replies[0]);
      AskOneAcks(w, n, id, replies[0]);
      var next := Step(w, n, Ask(id, replies[0]));
      assert AskAll(id, replies)[0] == Ask(id, replies[0]) && AskAll(id, replies)[1..] == AskAll(id, replies[1..]);
      AskAllAcks(w, next, id, replies[1..]);
      forall p { WillAcknowledgeStep(n.sends[id], next.sends[id], replies, p); }
    }
  }

  /** The replies of a send are what its handler hears. */
  ghost predicate SameAnswers(targets: seq<string>, replies: seq<Reply>, answers: string -> Answer) {
    && |replies| == |targets|
    && forall i :: 0 <= i < |targets| ==> (replies[i] == Acknowledged <==> answers(targets[i]).Stored?)
  }

  // The network's steps for one send do what `HandleChatMessageSend` promises for the same answers: the same row
  // first, then the same acknowledgements, then acceptance under the same condition with the same queue.

  lemma HandlerBegins(w: World, n: Network, origin: string, message: Message, targets: seq<string>)
    requires n.queues.Keys == w.peers && SendsInWorld(w, n) && Enabled(w, n, Begin(origin, message, targets))
    ensures var t := Step(w, n, Begin(origin, message, targets));
      && message.id in t.sends && t.sends[message.id] == Send(origin, message, targets, [], [], Replicating, n.now)
      && origin in n.queues && origin in t.queues
      && t.queues[origin] == n.queues[origin][message.id := Row(message, origin, targets, false, n.now + w.retentionMs)]
  {}

  /** All targets asked: who acknowledged, and the origin's queue. */
  lemma HandlerAsks(w: World, begun: Network, asked: Network, id: string, replies: seq<Reply>,
                    answers: string -> Answer)
    requires WellFormed(w) && Inv(w, begun) && id in begun.sends && begun.sends[id].phase.Replicating?
    requires Asked(begun.sends[id]) == 0 && begun.sends[id].acked == [] &&
      SameAnswers(begun.sends[id].targets, replies, answers)
    requires AllEnabled(w, begun, AskAll(id, replies)) && asked == Run(w, begun, AskAll(id, replies))
    ensures var s := begun.sends[id];
      && id in asked.sends && s.origin in begun.queues && s.origin in asked.queues
      && asked.queues[s.origin] == begun.queues[s.origin]
      && asked.sends[id].origin == s.origin && asked.sends[id].targets == s.targets
      && Elems(asked.sends[id].acked) == StoredBy(s.targets, answers)
      && |asked.sends[id].acked| == |StoredBy(s.targets, answers)|
  {
    AskAllAcks(w, begun, id, replies);
    AskAllRun(w, begun, id, replies);
    AcknowledgersStored(begun.sends[id], replies, answers);
    SendIsSigned(w, asked, id);
    StoredAcked(asked.sends[id].acked, begun.sends[id].targets, answers);
  }

  lemma StoredAcked(acked: seq<string>, targets: seq<string>, answers: string -> Answer)
    requires Distinct(acked) && forall p :: p in Elems(acked) <==> p in StoredBy(targets, answers)
    ensures Elems(acked) == StoredBy(targets, answers) && |acked| == |StoredBy(targets, answers)|
  {
    DistinctSize(acked);
  }

  /** The quorum decides as the handler does, and a refused message leaves the origin's queue. */
  lemma HandlerSettles(w: World, n: Network, id: string, answers: string -> Answer)
    requires WellFormed(w) && n.queues.Keys == w.peers && SendsInWorld(w, n) && Enabled(w, n, Settle(id))
    requires var s := n.sends[id]; |s.targets| == w.count && |s.acked| == |StoredBy(s.targets, answers)|
    ensures var s := n.sends[id]; var t := Step(w, n, Settle(id));
      var accepted := |StoredBy(s.targets, answers)| >= w.quorum;
      && id in t.sends && s.origin in n.queues && s.origin in t.queues
      && t.sends[id] == s.(phase := if accepted then Delivering else RejectedPhase)
      && t.queues[s.origin] == if accepted then n.queues[s.origin] else n.queues[s.origin] - {id}
  {}

  lemma AcknowledgersStored(s: Send, replies: seq<Reply>, answers: string -> Answer)
    requires Asked(s) == 0 && SameAnswers(s.targets, replies, answers)
    ensures forall p :: WillAcknowledge(s, replies, p) <==> p in StoredBy(s.targets, answers)
  {
    forall p ensures WillAcknowledge(s, replies, p) <==> p in StoredBy(s.targets, answers) {
      if p in StoredBy(s.targets, answers) {
        var j :| 0 <= j < |s.targets| && s.targets[j] == p;
        assert replies[j] == Acknowledged && s.targets[Asked(s) + j] == p;
      }
    }
  }

  // ----- the reader finds the message -----

  /** Which server the reader gets the message from: itself, the origin, or the first that acknowledged. */
  function Holder(s: Send, reader: string, read: seq<string>): string
    requires s.acked != []
  {
    if reader == s.origin || reader in Elems(s.acked) then reader
    else if s.origin in Elems(read) then s.origin
    else s.acked[0]
  }

  /** The holder is the reader itself or one of the peers it selects. */
  lemma HolderIsReachable(w: World, s: Send, reader: string, read: seq<string>)
    requires WellFormed(w) && Progress(w, s) && s.acked != [] && reader in w.peers
    requires IsFirst(w.nearest(s.message.recipientPublicKey), Eligible(reader, w.peers), w.count, read)
    ensures var h := Holder(s, reader, read);
      && (h == reader || h in Elems(read))
      && h in Elems(s.acked) + {s.origin} && h in w.peers
  {
    var p := s.acked[0];
    TargetsInWorld(w, s);
    assert p in Elems(s.acked);
    assert p in Elems(s.targets[..Asked(s)]);
    var i := IndexOf(s.targets, Asked(s), p);
    assert s.targets[i] in Elems(s.targets);
    WriterChoiceReachesReader(w.nearest(s.message.recipientPublicKey), w.peers, w.count, s.origin, reader, s.targets,
        read, p);
  }

  /** Read meets write: an accepted message that is still current is on the reader, or on one of the peers
      the reader selects, where a pull for the recipient can see it. */
  lemma ReadMeetsWrite(w: World, start: Network, events: seq<Event>, id: string, reader: string, read: seq<string>)
    requires WellFormed(w) && Inv(w, start) && AllEnabled(w, start, events)
    requires var n := Run(w, start, events); id in n.sends && n.sends[id].phase.AcceptedPhase? && Current(w, n, id)
    requires reader in w.peers
    requires IsFirst(w.nearest(Run(w, start, events).sends[id].message.recipientPublicKey), Eligible(reader, w.peers),
        w.count, read)
    ensures var n := Run(w, start, events); var s := n.sends[id];
      exists h :: (h == reader || h in Elems(read)) && h in n.queues && Visible(w, n, h, s.message)
  {
    var n := Run(w, start, events);
    AcceptedIsVisible(w, n, id, reader, read);
  }

  /** A pull for the recipient at this server and instant shows the message. */
  ghost predicate Visible(w: World, n: Network, server: string, message: Message)
    requires server in n.queues
  {
    var view := PullView(ConfigOf(w, server), n.queues[server], message.recipientPublicKey, n.now);
    message.id in view && view[message.id].message == message
  }

  lemma AcceptedIsVisible(w: World, n: Network, id: string, reader: string, read: seq<string>)
    requires WellFormed(w) && Inv(w, n)
    requires id in n.sends && n.sends[id].phase.AcceptedPhase? && Current(w, n, id)
    requires reader in w.peers
    requires IsFirst(w.nearest(n.sends[id].message.recipientPublicKey), Eligible(reader, w.peers), w.count, read)
    ensures var s := n.sends[id];
      && s.acked != []
      && var h := Holder(s, reader, read);
         (h == reader || h in Elems(read)) && h in n.queues && Visible(w, n, h, s.message)
  {
    var s := n.sends[id];
    assert SendInv(w, n, id);
    assert |s.acked| >= 1;
    HolderIsReachable(w, s, reader, read);
  }

  // ----- the reader synchronizes -----

  /** A moment at which the accepted message is still current. */
  ghost predicate Later(w: World, n: Network, m: Network, id: string)
    requires id in n.sends
  {
    Inv(w, m) && id in m.sends && m.sends[id] == n.sends[id] && Current(w, m, id)
  }

  lemma RunIsLater(w: World, n: Network, events: seq<Event>, id: string)
    requires WellFormed(w) && Inv(w, n) && AllEnabled(w, n, events)
    requires id in n.sends && n.sends[id].phase.AcceptedPhase?
    requires id !in Run(w, n, events).deleted && Run(w, n, events).now < Deadline(w, n.sends[id])
    ensures Later(w, n, Run(w, n, events), id)
  {
    AcceptedStays(w, n, events, id);
  }

  /** Every page a selected peer answers shows its queue at some later moment. */
  ghost predicate Answers(w: World, n: Network, id: string, read: seq<string>, views: Views<Payload>,
                          moments: (string, nat) -> Network)
    requires id in n.sends
  {
    forall p, i: nat :: p in Elems(read) && i < |views(p)| ==>
      && p in w.peers && Later(w, n, moments(p, i), id)
      && p in moments(p, i).queues
      && views(p)[i] == PullView(ConfigOf(w, p), moments(p, i).queues[p], n.sends[id].message.recipientPublicKey,
          moments(p, i).now)
  }

  lemma ServedIsGenuine(w: World, n: Network, id: string, read: seq<string>, views: Views<Payload>,
                        moments: (string, nat) -> Network, order: Order, p: string, row: (string, Payload))
    requires StrictTotal(order) && id in n.sends && Answers(w, n, id, read, views, moments)
    requires p in Elems(read) && row in Served(order, views, p, w.pullBatchSize).rows
    ensures row.1.message.id == row.0
    ensures row.0 == id ==> row.1.message == n.sends[id].message
  {
    var s := Served(order, views, p, w.pullBatchSize);
    ScanSound(order, views(p), "", w.pullBatchSize);
    var i :| 0 <= i < |s.rows| && s.rows[i] == row;
    assert WasServed(views(p), s.requests, s.rows[i]);
    var j :| 0 <= j < s.requests && j < |views(p)| && row.0 in views(p)[j] && views(p)[j][row.0] == row.1;
    var m := moments(p, j);
    assert Later(w, n, m, id) && SendInv(w, m, id);
  }

  lemma PulledIsGenuine(w: World, n: Network, id: string, reader: string, read: seq<string>, views: Views<Payload>,
                        moments: (string, nat) -> Network, order: Order, row: (string, Payload))
    requires StrictTotal(order) && id in n.sends && Answers(w, n, id, read, views, moments)
    requires row in Pulled(order, views, PullTargets(reader, read), w.pullBatchSize)
    ensures row.1.message.id == row.0
    ensures row.0 == id ==> row.1.message == n.sends[id].message
  {
    var targets := PullTargets(reader, read);
    PulledFromEarliest(order, views, targets, w.pullBatchSize, row);
    var i :| 0 <= i < |targets| && row in Served(order, views, targets[i], w.pullBatchSize).rows &&
      forall j :: 0 <= j < i ==> row.0 !in Elems(Keys(Served(order, views, targets[j], w.pullBatchSize).rows));
    assert targets[i] in Elems(targets);
    ServedIsGenuine(w, n, id, read, views, moments, order, targets[i], row);
  }

  /** When the holder answers to the end, the message is among what was pulled. */
  lemma HolderServes(w: World, n: Network, id: string, reader: string, read: seq<string>, views: Views<Payload>,
                     moments: (string, nat) -> Network, order: Order)
    requires WellFormed(w) && StrictTotal(order) && Inv(w, n)
    requires id in n.sends && n.sends[id].phase.AcceptedPhase? && Current(w, n, id) && reader in w.peers
    requires IsFirst(w.nearest(n.sends[id].message.recipientPublicKey), Eligible(reader, w.peers), w.count, read)
    requires Answers(w, n, id, read, views, moments)
    requires forall p :: p in Elems(read) ==> Served(order, views, p, w.pullBatchSize).complete
    requires n.sends[id].acked != [] && Holder(n.sends[id], reader, read) != reader
    ensures id in Elems(Keys(Pulled(order, views, PullTargets(reader, read), w.pullBatchSize)))
  {
    AcceptedIsVisible(w, n, id, reader, read);
    var h := Holder(n.sends[id], reader, read);
    var targets := PullTargets(reader, read);
    assert h in Elems(targets);
    var i :| 0 <= i < |targets| && targets[i] == h;
    forall k | 0 <= k < |views(h)| ensures "" !in views(h)[k] && id in views(h)[k] {
      var m := moments(h, k);
      assert Later(w, n, m, id);
      AcceptedIsVisible(w, m, id, reader, read);
    }
    PulledComplete(order, views, targets, w.pullBatchSize, i, id);
  }

  /** After the reader has synchronized, with the peers it selected answering to the end, it holds the message
      and replays it: whatever else happened in the network meanwhile, as long as the message was not deleted
      and has not expired. `moment` is when the reader stores what it pulled. */
  lemma SynchronizedReaderHolds(w: World, n: Network, id: string, reader: string, read: seq<string>,
                                views: Views<Payload>,
                                moments: (string, nat) -> Network, order: Order, moment: Network)
    requires WellFormed(w) && StrictTotal(order) && Inv(w, n)
    requires id in n.sends && n.sends[id].phase.AcceptedPhase? && Current(w, n, id) && reader in w.peers
    requires IsFirst(w.nearest(n.sends[id].message.recipientPublicKey), Eligible(reader, w.peers), w.count, read)
    requires Answers(w, n, id, read, views, moments)
    requires forall p :: p in Elems(read) ==> Served(order, views, p, w.pullBatchSize).complete
    requires Later(w, n, moment, id)
    ensures var kept := Keep(ConfigOf(w, reader), moment.queues[reader],
                             Pulled(order, views, PullTargets(reader, read), w.pullBatchSize));
      && id in kept && kept[id].message == n.sends[id].message
      && id in PullView(ConfigOf(w, reader), kept, n.sends[id].message.recipientPublicKey, moment.now)
  {
    var c := ConfigOf(w, reader);
    var items := Pulled(order, views, PullTargets(reader, read), w.pullBatchSize);
    forall row | row in items
      ensures row.1.message.id == row.0 && (row.0 == id ==> row.1.message == n.sends[id].message)
    {
      PulledIsGenuine(w, n, id, reader, read, views, moments, order, row);
    }
    PulledIds(order, views, PullTargets(reader, read), w.pullBatchSize);
    KeptMessages(c, moment.queues[reader], items, id);
    AcceptedIsVisible(w, n, id, reader, read);
    AcceptedIsVisible(w, moment, id, reader, read);
    assert SendInv(w, n, id);
    if Holder(n.sends[id], reader, read) != reader {
      HolderServes(w, n, id, reader, read, views, moments, order);
    }
    if id in Elems(Keys(items)) {
      var i :| 0 <= i < |Keys(items)| && Keys(items)[i] == id;
      assert items[i] in items && items[i].0 == id;
    }
  }
}
