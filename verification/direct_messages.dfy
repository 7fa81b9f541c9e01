/** One server's direct-message queue: what its handlers do to its table. */
module DirectMessages {
  import opened Ordering
  import opened Paging
  import opened ReplicaSelection

  /** What the sender signed, and who it is for. */
  datatype Message = Message(id: string, recipientPublicKey: string, senderPublicKey: string, content: string,
                             signature: string, sendTime: int)

  /** A queue row; "" stands for a missing origin. */
  datatype Row = Row(message: Message, originServerPeerId: string, replicaPeerIds: seq<string>, isReplicaCopy: bool,
                     expiresAt: int)

  type Queue = map<string, Row>

  /** A message as one server hands it to another. */
  datatype Payload = Payload(message: Message, originServerPeerId: string, replicaPeerIds: seq<string>)

  /** `isSigned` stands for the signature check. */
  datatype Config = Config(localPeerId: string, isSigned: Message -> bool, retentionMs: int, pullBatchSize: nat,
                           replicaRemoteCount: nat, replicaRemoteQuorum: nat)

  /** The bounds the configuration enforces on whatever the environment says. */
  function ReplicaCounts(requestedCount: int, requestedQuorum: int): (r: (nat, nat))
    ensures 1 <= r.1 <= r.0
    ensures requestedCount >= 1 ==> r.0 == requestedCount
    ensures 1 <= requestedQuorum <= r.0 ==> r.1 == requestedQuorum
    ensures requestedQuorum > r.0 ==> r.1 == r.0
  {
    var count := Max(1, requestedCount);
    (count, Min(count, Max(1, requestedQuorum)))
  }

  /** No repetition, no empty and no unknown id; the first mention decides the place. */
  function NormalizePeerIdList(ids: seq<string>): (normalized: seq<string>)
    ensures Distinct(normalized)
    ensures Elems(normalized) == Elems(ids) - {"", UNKNOWN_PEER}
  {
    DistinctExcept(ids, {"", UNKNOWN_PEER})
  }

  /** The list names, once each, the valid ones of the given peers. */
  ghost predicate NamesValid(named: seq<string>, given: seq<string>) {
    Distinct(named) && Elems(named) == Elems(given) - {"", UNKNOWN_PEER}
  }

  // ----- requests from other servers -----

  /** What a replica must keep of a payload: the message, where it comes from (the payload's origin, or else
      whoever sent the request), who holds it, and how long after it was sent it stays. */
  ghost predicate IsReplicaOf(c: Config, row: Row, p: Payload, source: string) {
    && row.message == p.message
    && (p.originServerPeerId != "" ==> row.originServerPeerId == p.originServerPeerId)
    && (p.originServerPeerId == "" ==> row.originServerPeerId == source)
    && NamesValid(row.replicaPeerIds, p.replicaPeerIds)
    && (row.isReplicaCopy <==> row.originServerPeerId != c.localPeerId)
    && row.expiresAt - p.message.sendTime == c.retentionMs
  }

  /** What a pull must hand out of a row. */
  ghost predicate IsOffered(c: Config, row: Row, p: Payload) {
    && p.message == row.message
    && (row.originServerPeerId != "" ==> p.originServerPeerId == row.originServerPeerId)
    && (row.originServerPeerId == "" ==> p.originServerPeerId == c.localPeerId)
    && NamesValid(p.replicaPeerIds, row.replicaPeerIds)
  }

  /** One id may change, all other rows are as they were. */
  ghost predicate OthersKept(before: Queue, after: Queue, id: string) {
    forall other :: other != id ==>
      (other in after <==> other in before) && (other in before ==> after[other] == before[other])
  }

  /** The row a replica keeps. */
  function ReplicaRow(c: Config, p: Payload, source: string): Row {
    var origin := if p.originServerPeerId == "" then source else p.originServerPeerId;
    Row(p.message, origin, NormalizePeerIdList(p.replicaPeerIds), origin != c.localPeerId,
        p.message.sendTime + c.retentionMs)
  }

  function Replicate(c: Config, queue: Queue, p: Payload, source: string): (answer: (Queue, bool))
    ensures answer.1 <==> c.isSigned(p.message)
    ensures answer.1 ==> p.message.id in answer.0 && IsReplicaOf(c, answer.0[p.message.id], p, source)
    ensures OthersKept(queue, answer.0, p.message.id)
    ensures !answer.1 ==> answer.0 == queue
  {
    if !c.isSigned(p.message) then (queue, false) else (queue[p.message.id := ReplicaRow(c, p, source)], true)
  }

  function OriginOf(c: Config, row: Row): string {
    if row.originServerPeerId == "" then c.localPeerId else row.originServerPeerId
  }

  /** The pending rows of a user that a pull at this instant can see, as they are handed out. */
  function PullView(c: Config, queue: Queue, publicKey: string, now: int): (view: map<string, Payload>)
    ensures forall id :: id in view <==>
      id in queue && queue[id].expiresAt > now && queue[id].message.recipientPublicKey == publicKey
    ensures forall id :: id in view ==> IsOffered(c, queue[id], view[id])
  {
    map id | id in queue && queue[id].expiresAt > now && queue[id].message.recipientPublicKey == publicKey ::
      Payload(queue[id].message, OriginOf(c, queue[id]), NormalizePeerIdList(queue[id].replicaPeerIds))
  }

  function PullLimit(c: Config, requested: int): (limit: nat)
    requires c.pullBatchSize >= 1
    ensures 1 <= limit <= c.pullBatchSize
    ensures requested == 0 || requested > c.pullBatchSize ==> limit == c.pullBatchSize
    ensures 1 <= requested <= c.pullBatchSize ==> limit == requested
  {
    ClampLimit(if requested == 0 then c.pullBatchSize else requested, c.pullBatchSize)
  }

  function Authorized(row: Row): set<string> {
    ({row.originServerPeerId} + Elems(NormalizePeerIdList(row.replicaPeerIds))) - {""}
  }

  /** Is the server one of those the row was given to? */
  predicate IsHolder(row: Row, server: string) {
    server != "" && (server == row.originServerPeerId || (server != UNKNOWN_PEER && server in row.replicaPeerIds))
  }

  /** A holder may delete, or anyone when the row names no holder; the recipient must be the row's. */
  predicate MayDelete(row: Row, recipientPublicKey: string, source: string) {
    && row.message.recipientPublicKey == recipientPublicKey
    && (IsHolder(row, source) || forall p :: p in [row.originServerPeerId] + row.replicaPeerIds ==> !IsHolder(row, p))
  }

  lemma HoldersAreAuthorized(row: Row)
    ensures forall p :: p in Authorized(row) <==> IsHolder(row, p)
    ensures Authorized(row) == {} <==> forall p ::
      p in [row.originServerPeerId] + row.replicaPeerIds ==> !IsHolder(row, p)
  {}

  /** A request is confirmed exactly when no row is left afterwards: there was none, or the source may delete it. */
  function Delete(queue: Queue, id: string, recipientPublicKey: string, source: string): (answer: (Queue, bool))
    ensures answer.1 <==> id !in answer.0
    ensures answer.1 <==> id !in queue || MayDelete(queue[id], recipientPublicKey, source)
    ensures !answer.1 ==> answer.0 == queue
    ensures forall other :: other != id ==> (other in answer.0 <==> other in queue)
    ensures forall other :: other in answer.0 ==> answer.0[other] == queue[other]
  {
    if id !in queue then (queue, true)
    else
      var row := queue[id];
      HoldersAreAuthorized(row);
      if Authorized(row) != {} && source !in Authorized(row) then (queue, false)
      else if row.message.recipientPublicKey != recipientPublicKey then (queue, false)
      else (queue - {id}, true)
  }

  /** Exactly the rows that expire later stay, as they are. */
  function Sweep(queue: Queue, now: int): (kept: Queue)
    ensures forall id :: id in kept <==> id in queue && queue[id].expiresAt > now
    ensures forall id :: id in kept ==> kept[id] == queue[id]
  {
    map id | id in queue && queue[id].expiresAt > now :: queue[id]
  }

  // ----- the sender's side -----

  datatype Answer = Stored | NotStored | Failed

  /** The distinct valid remote peers of a list, in order. */
  function Targets(local: string, ids: seq<string>): (targets: seq<string>)
    ensures Distinct(targets)
    ensures Elems(targets) == Elems(ids) - {"", UNKNOWN_PEER, local}
  {
    DistinctExcept(ids, {"", UNKNOWN_PEER, local})
  }

  /** The peers of a list that stored the row. */
  function StoredBy(asked: seq<string>, answers: string -> Answer): set<string> {
    set p | p in Elems(asked) && answers(p).Stored?
  }

  function QuorumTarget(quorum: nat, targetCount: nat): nat { Min(quorum, Max(1, targetCount)) }

  /** `acked` and `failed` split the targets asked so far by what each answered. */
  ghost predicate SplitByAnswer(asked: seq<string>, answers: string -> Answer, acked: seq<string>, failed: seq<string>)
  {
    && Distinct(acked) && Distinct(failed)
    && Elems(acked) == StoredBy(asked, answers)
    && Elems(failed) == (set p | p in Elems(asked) && !answers(p).Stored?)
    && |acked| + |failed| == |asked|
  }

  lemma SplitOneMore(asked: seq<string>, answers: string -> Answer, acked: seq<string>, failed: seq<string>, p: string)
    requires Distinct(asked + [p]) && SplitByAnswer(asked, answers, acked, failed)
    ensures answers(p).Stored? ==> SplitByAnswer(asked + [p], answers, acked + [p], failed)
    ensures !answers(p).Stored? ==> SplitByAnswer(asked + [p], answers, acked, failed + [p])
  {
    assert (asked + [p])[|asked|] == p;
    forall i | 0 <= i < |asked| ensures asked[i] != p { assert (asked + [p])[i] == asked[i]; }
    assert p !in Elems(asked);
    assert p !in Elems(acked) && p !in Elems(failed);
    ElemsConcat(acked, [p]);
    ElemsConcat(failed, [p]);
    ElemsConcat(asked, [p]);
  }

  /** Asks the targets one after the other. */
  method ReplicateDirectMessageToPeers(c: Config, peerIds: seq<string>, requireQuorum: bool, answers: string -> Answer)
    returns (acked: seq<string>, failed: seq<string>, quorumMet: bool)
    ensures SplitByAnswer(Targets(c.localPeerId, peerIds), answers, acked, failed)
    ensures quorumMet <==>
      !requireQuorum || |acked| >= QuorumTarget(c.replicaRemoteQuorum, |Targets(c.localPeerId, peerIds)|)
  {
    var targets := Targets(c.localPeerId, peerIds);
    acked, failed := [], [];
    for i := 0 to |targets|
      invariant SplitByAnswer(targets[..i], answers, acked, failed)
    {
      PrefixStep(targets, i);
      assert Distinct(targets[..i + 1]);
      SplitOneMore(targets[..i], answers, acked, failed, targets[i]);
      if answers(targets[i]).Stored? {
        acked := acked + [targets[i]];
      } else {
        failed := failed + [targets[i]];
      }
    }
    assert targets[..|targets|] == targets;
    quorumMet := !requireQuorum || |acked| >= QuorumTarget(c.replicaRemoteQuorum, |targets|);
  }

  /** When the selection returned k distinct remote peers, bounding the quorum by them changes nothing. */
  lemma QuorumNeverLowered(local: string, selected: seq<string>, requestedCount: int, requestedQuorum: int)
    requires Distinct(selected) && |selected| == ReplicaCounts(requestedCount, requestedQuorum).0
    requires Elems(selected) !! {"", UNKNOWN_PEER, local}
    ensures QuorumTarget(ReplicaCounts(requestedCount, requestedQuorum).1, |Targets(local, selected)|)
      == ReplicaCounts(requestedCount, requestedQuorum).1
  {
    DistinctSize(selected);
    DistinctSize(Targets(local, selected));
    assert Elems(Targets(local, selected)) == Elems(selected);
  }

  datatype SendOutcome =
    | SignatureRejected
    | SenderKeyMissing
    | RecipientKeyMissing
    | TooFewReplicas
    | QuorumFailed(failed: seq<string>)
    | Accepted(acked: seq<string>, replicas: seq<string>)

  datatype PersistedOutcome = AlreadyGone | NotTheRecipient | RemovedAndTold(origin: string, replicas: seq<string>)

  /** Whom the delete of a row must go to: its origin (this server when none is named) and its valid replicas. */
  ghost predicate IsTold(c: Config, row: Row, origin: string, replicas: seq<string>) {
    && (row.originServerPeerId != "" ==> origin == row.originServerPeerId)
    && (row.originServerPeerId == "" ==> origin == c.localPeerId)
    && NamesValid(replicas, row.replicaPeerIds)
  }

  class DirectMessageService {
    const config: Config
    var queue: Queue

    constructor (config: Config)
      ensures this.config == config && queue == map[]
    {
      this.config := config;
      queue := map[];
    }

    /** `selected` is what the replica selection returned, `answers` what each replica replies, `live` the
        servers where the recipient is online. */
    method HandleChatMessageSend(message: Message, senderHasKey: bool, recipientHasKey: bool, selected: seq<string>,
                                 answers: string -> Answer, live: seq<string>, now: int)
      returns (outcome: SendOutcome)
      requires Distinct(selected) && Elems(selected) !! {"", UNKNOWN_PEER, config.localPeerId}
      requires |selected| <= config.replicaRemoteCount
      requires config.replicaRemoteQuorum <= config.replicaRemoteCount
      modifies this
      ensures outcome.SignatureRejected? <==> !config.isSigned(message)
      ensures outcome.SenderKeyMissing? <==> config.isSigned(message) && !senderHasKey
      ensures outcome.RecipientKeyMissing? <==> config.isSigned(message) && senderHasKey && !recipientHasKey
      ensures var ready := config.isSigned(message) && senderHasKey && recipientHasKey;
        && (outcome.TooFewReplicas? <==> ready && |selected| < config.replicaRemoteCount)
        && (outcome.Accepted? <==> ready && |selected| == config.replicaRemoteCount
                                   && |StoredBy(selected, answers)| >= config.replicaRemoteQuorum)
      ensures match outcome
        case Accepted(acked, replicas) =>
          // a full configured quorum of distinct remote replicas has stored the row
          && Distinct(acked) && |acked| >= config.replicaRemoteQuorum
          && Elems(acked) == StoredBy(selected, answers)
          && config.localPeerId !in acked
          && Elems(replicas) == Elems(selected) + (Elems(live) - {"", config.localPeerId})
          && queue == old(queue)[message.id := Row(message, config.localPeerId, replicas, false,
              now + config.retentionMs)]
        case QuorumFailed(_) => queue == old(queue) - {message.id}
        case _ => queue == old(queue)
    {
      if !config.isSigned(message) {
        return SignatureRejected;
      }
      if !senderHasKey {
        return SenderKeyMissing;
      }
      if !recipientHasKey {
        return RecipientKeyMissing;
      }
      if |selected| < config.replicaRemoteCount {
        return TooFewReplicas;
      }
      queue := queue[message.id := Row(message, config.localPeerId, selected, false, now + config.retentionMs)];
      var acked, failed, quorumMet := ReplicateToSelected(selected, answers);
      if !quorumMet {
        queue := queue - {message.id};
        DistinctSize(acked);
        return QuorumFailed(failed);
      }
      var replicas := DeliverLive(message.id, selected, answers, live);
      DistinctSize(acked);
      return Accepted(acked, replicas);
    }

    method ReplicateToSelected(selected: seq<string>, answers: string -> Answer)
      returns (acked: seq<string>, failed: seq<string>, quorumMet: bool)
      requires Distinct(selected) && Elems(selected) !! {"", UNKNOWN_PEER, config.localPeerId}
      ensures SplitByAnswer(selected, answers, acked, failed)
      ensures config.localPeerId !in acked
      ensures quorumMet <==> |acked| >= QuorumTarget(config.replicaRemoteQuorum, |selected|)
    {
      acked, failed, quorumMet := ReplicateDirectMessageToPeers(config, selected, true, answers);
      SelectedAreTargets(config.localPeerId, selected);
      assert config.localPeerId !in Elems(acked);
    }

    /** Copies to the servers where the recipient is online, and the row's list of holders with them. */
    method DeliverLive(id: string, selected: seq<string>, answers: string -> Answer, live: seq<string>)
      returns (replicas: seq<string>)
      requires id in queue && Distinct(selected) && queue[id].replicaPeerIds == selected
      modifies this
      ensures Elems(replicas) == Elems(selected) + (Elems(live) - {"", config.localPeerId})
      ensures queue == old(queue)[id := old(queue)[id].(replicaPeerIds := replicas)]
    {
      var liveDelivery := LiveDelivery(config.localPeerId, live, selected);
      replicas := selected;
      if |liveDelivery| > 0 {
        replicas := Union(selected, liveDelivery);
        queue := queue[id := queue[id].(replicaPeerIds := replicas)];
        var _, _, _ := ReplicateDirectMessageToPeers(config, liveDelivery, false, answers);
      }
      NoneLeft(liveDelivery);
    }

    method HandleInterServerReplicateRequest(payload: Payload, source: string) returns (stored: bool)
      modifies this
      ensures (queue, stored) == Replicate(config, old(queue), payload, source)
      ensures stored <==> config.isSigned(payload.message)
      ensures stored ==> payload.message.id in queue && IsReplicaOf(config, queue[payload.message.id], payload, source)
      ensures !stored ==> queue == old(queue)
      ensures OthersKept(old(queue), queue, payload.message.id)
    {
      if !config.isSigned(payload.message) {
        return false;
      }
      var origin := if payload.originServerPeerId == "" then source else payload.originServerPeerId;
      var replicas := NormalizePeerIdList(payload.replicaPeerIds);
      var expiresAt := payload.message.sendTime + config.retentionMs;
      queue := queue[payload.message.id := Row(payload.message, origin, replicas, origin != config.localPeerId,
          expiresAt)];
      return true;
    }

    method HandleInterServerPullRequest(order: Order, publicKey: string, cursor: string, limit: int, now: int)
      returns (items: seq<(string, Payload)>, nextCursor: string)
      requires StrictTotal(order) && config.pullBatchSize >= 1
      ensures (items, nextCursor) ==
        Serve(order, PullView(config, queue, publicKey, now), cursor, PullLimit(config, limit))
      ensures |items| <= config.pullBatchSize
      ensures forall i :: 0 <= i < |items| ==>
        && items[i].0 in queue && queue[items[i].0].expiresAt > now
        && IsOffered(config, queue[items[i].0], items[i].1) && items[i].1.message.recipientPublicKey == publicKey
    {
      var view := PullView(config, queue, publicKey, now);
      var answer := Serve(order, view, cursor, PullLimit(config, limit));
      PageProperties(order, view.Keys, cursor, PullLimit(config, limit));
      assert |Keys(answer.0)| == |answer.0|;
      items, nextCursor := answer.0, answer.1;
    }

    method HandleInterServerDeleteRequest(id: string, recipientPublicKey: string, source: string)
      returns (deleted: bool)
      modifies this
      ensures (queue, deleted) == Delete(old(queue), id, recipientPublicKey, source)
    {
      if id !in queue {
        return true;
      }
      HoldersAreAuthorized(queue[id]);
      var row := queue[id];
      var authorized := Authorized(row);
      if |authorized| > 0 && source !in authorized {
        return false;
      }
      if row.message.recipientPublicKey != recipientPublicKey {
        return false;
      }
      queue := queue - {id};
      return true;
    }

    /** The recipient's client has stored the message: drop the row and say who else holds one. */
    method HandleChatMessagePersisted(recipientPublicKey: string, id: string) returns (outcome: PersistedOutcome)
      modifies this
      ensures outcome.AlreadyGone? <==> id !in old(queue)
      ensures outcome.NotTheRecipient? <==>
        id in old(queue) && old(queue)[id].message.recipientPublicKey != recipientPublicKey
      ensures queue == if outcome.RemovedAndTold? then old(queue) - {id} else old(queue)
      ensures outcome.RemovedAndTold? ==>
        IsTold(config, old(queue)[id], outcome.origin, outcome.replicas)
    {
      if id !in queue {
        return AlreadyGone;
      }
      var row := queue[id];
      if row.message.recipientPublicKey != recipientPublicKey {
        return NotTheRecipient;
      }
      queue := queue - {id};
      var origin := OriginOf(config, row);
      return RemovedAndTold(origin, NormalizePeerIdList(row.replicaPeerIds));
    }

    method DeleteExpiredMessages(now: int)
      modifies this
      ensures queue == Sweep(old(queue), now)
      ensures forall id :: id in queue <==> id in old(queue) && old(queue)[id].expiresAt > now
      ensures forall id :: id in queue ==> queue[id] == old(queue)[id]
    {
      queue := map id | id in queue && queue[id].expiresAt > now :: queue[id];
    }
  }

  lemma NoneLeft(live: seq<string>)
    ensures |live| == 0 ==> Elems(live) == {}
  {}

  lemma SelectedAreTargets(local: string, selected: seq<string>)
    requires Distinct(selected) && Elems(selected) !! {"", UNKNOWN_PEER, local}
    ensures Elems(Targets(local, selected)) == Elems(selected)
    ensures |Targets(local, selected)| == |selected|
  {
    DistinctSize(selected);
    DistinctSize(Targets(local, selected));
  }

  /** Where the recipient is online and the message is not yet. */
  function LiveDelivery(local: string, live: seq<string>, replicas: seq<string>): (r: seq<string>)
    ensures Elems(r) == Elems(live) - {"", local} - Elems(replicas)
  {
    if live == [] then []
    else
      var last := live[|live| - 1];
      var rest := LiveDelivery(local, live[..|live| - 1], replicas);
      assert live == live[..|live| - 1] + [last];
      ElemsConcat(live[..|live| - 1], [last]);
      ElemsConcat(rest, [last]);
      if last == "" || last == local || last in replicas then rest else rest + [last]
  }

  function Union(a: seq<string>, b: seq<string>): (r: seq<string>)
    requires Distinct(a)
    ensures Distinct(r) && Elems(r) == Elems(a) + Elems(b)
  {
    if b == [] then a
    else
      assert b == b[..|b| - 1] + [b[|b| - 1]];
      ElemsConcat(b[..|b| - 1], [b[|b| - 1]]);
      AddOnce(Union(a, b[..|b| - 1]), b[|b| - 1])
  }
}
