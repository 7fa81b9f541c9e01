/** The recipient's home server collects the pending messages from the replicas, page by page, and keeps them. */
module MessagePull {
  import opened DirectMessages
  import opened Ordering
  import opened Paging

  /** The distinct remote peers to ask, in order. */
  function PullTargets(local: string, ids: seq<string>): (targets: seq<string>)
    ensures Distinct(targets)
    ensures Elems(targets) == Elems(ids) - {"", local}
  {
    DistinctExcept(ids, {"", local})
  }

  /** Adds the rows with new, non-empty ids: an insertion-ordered map that keeps the first value. */
  function Merge<T>(known: seq<(string, T)>, more: seq<(string, T)>): seq<(string, T)> {
    if more == [] then known
    else MergeOne(Merge(known, more[..|more| - 1]), more[|more| - 1])
  }

  function MergeOne<T>(known: seq<(string, T)>, row: (string, T)): seq<(string, T)> {
    if row.0 == "" || row.0 in Elems(Keys(known)) then known else known + [row]
  }

  /** What the peers show at their successive page requests; a request beyond them fails. */
  type Views<T> = string -> seq<map<string, T>>

  function Served<T>(order: Order, views: Views<T>, peer: string, limit: nat): Scan<T>
    requires StrictTotal(order)
  {
    ScanFrom(order, views(peer), "", limit)
  }

  function Pulled<T>(order: Order, views: Views<T>, targets: seq<string>, limit: nat): seq<(string, T)>
    requires StrictTotal(order)
  {
    if targets == [] then []
    else
      var before, last := targets[..|targets| - 1], targets[|targets| - 1];
      Merge(Pulled(order, views, before, limit), Served(order, views, last, limit).rows)
  }

  method PullPendingMessagesFromReplicas(order: Order, local: string, replicaPeerIds: seq<string>, limit: nat,
                                         views: Views<Payload>)
    returns (itemsById: seq<(string, Payload)>)
    requires StrictTotal(order)
    ensures itemsById == Pulled(order, views, PullTargets(local, replicaPeerIds), limit)
  {
    var targets := PullTargets(local, replicaPeerIds);
    itemsById := [];
    for i := 0 to |targets|
      invariant itemsById == Pulled(order, views, targets[..i], limit)
    {
      assert targets[..i + 1][..i] == targets[..i];
      itemsById := PullFromPeer(order, views(targets[i]), limit, itemsById);
    }
    assert targets[..|targets|] == targets;
  }

  /** The page loop for one peer. When a request fails, the pages before it are kept. */
  method PullFromPeer(order: Order, pages: seq<map<string, Payload>>, limit: nat, known: seq<(string, Payload)>)
    returns (items: seq<(string, Payload)>)
    requires StrictTotal(order)
    ensures items == Merge(known, ScanFrom(order, pages, "", limit).rows)
  {
    items := known;
    var cursor := "";
    var n := 0;
    while true
      invariant n <= |pages|
      invariant Merge(known, ScanFrom(order, pages, "", limit).rows) ==
        Merge(items, ScanFrom(order, pages[n..], cursor, limit).rows)
      decreases |pages| - n
    {
      if n == |pages| {
        return;
      }
      var (rows, nextCursor) := Serve(order, pages[n], cursor, limit);
      assert pages[n..][0] == pages[n] && pages[n..][1..] == pages[n + 1..];
      MergeTwice(items, rows, ScanFrom(order, pages[n + 1..], nextCursor, limit).rows);
      items := MergeRows(items, rows);
      if nextCursor == "" {
        return;
      }
      cursor := nextCursor;
      n := n + 1;
    }
  }

  method MergeRows(known: seq<(string, Payload)>, rows: seq<(string, Payload)>) returns (items: seq<(string, Payload)>)
    ensures items == Merge(known, rows)
  {
    items := known;
    for i := 0 to |rows|
      invariant items == Merge(known, rows[..i])
    {
      assert rows[..i + 1][..i] == rows[..i];
      if rows[i].0 != "" && rows[i].0 !in Elems(Keys(items)) {
        items := items + [rows[i]];
      }
    }
    assert rows[..|rows|] == rows;
  }

  lemma {:induction false} MergeTwice<T>(known: seq<(string, T)>, a: seq<(string, T)>, b: seq<(string, T)>)
    ensures Merge(known, a + b) == Merge(Merge(known, a), b)
  {
    if b == [] {
      assert a + b == a;
    } else {
      MergeTwice(known, a, b[..|b| - 1]);
      assert (a + b)[..|a + b| - 1] == a + b[..|b| - 1];
    }
  }

  // ----- properties of the merge -----

  lemma MergeOneKeys<T>(known: seq<(string, T)>, row: (string, T))
    ensures Distinct(Keys(known)) ==> Distinct(Keys(MergeOne(known, row)))
    ensures Elems(Keys(MergeOne(known, row))) == Elems(Keys(known)) + ({row.0} - {""})
  {
    KeysConcat(known, [row]);
    assert Keys([row]) == [row.0];
    ElemsConcat(Keys(known), [row.0]);
    assert forall i :: 0 <= i < |known| ==> Keys(known)[i] in Elems(Keys(known));
  }

  lemma {:induction false} MergeKeys<T>(known: seq<(string, T)>, more: seq<(string, T)>)
    ensures Distinct(Keys(known)) ==> Distinct(Keys(Merge(known, more)))
    ensures Elems(Keys(Merge(known, more))) == Elems(Keys(known)) + (Elems(Keys(more)) - {""})
  {
    if more != [] {
      var before, last := more[..|more| - 1], more[|more| - 1];
      MergeKeys(known, before);
      MergeOneKeys(Merge(known, before), last);
      assert more == before + [last];
      KeysConcat(before, [last]);
      assert Keys([last]) == [last.0];
      ElemsConcat(Keys(before), [last.0]);
    }
  }

  /** A merged row was known before, or is one of the new ones with an id that was not known. */
  ghost predicate FromEither<T>(known: seq<(string, T)>, more: seq<(string, T)>, row: (string, T)) {
    row in known || (row in more && row.0 !in Elems(Keys(known)))
  }

  lemma {:induction false} MergeSources<T>(known: seq<(string, T)>, more: seq<(string, T)>, row: (string, T))
    requires row in Merge(known, more)
    ensures FromEither(known, more, row)
  {
    if more != [] {
      var before, last := more[..|more| - 1], more[|more| - 1];
      assert more == before + [last];
      if row in Merge(known, before) {
        MergeSources(known, before, row);
      } else {
        MergeKeys(known, before);
      }
    }
  }

  ghost predicate ServedBySome<T>(order: Order, views: Views<T>, targets: seq<string>, limit: nat, id: string)
    requires StrictTotal(order)
  {
    exists i :: 0 <= i < |targets| && id in Elems(Keys(Served(order, views, targets[i], limit).rows))
  }

  lemma ServedByLast<T>(order: Order, views: Views<T>, before: seq<string>, last: string, limit: nat, id: string)
    requires StrictTotal(order)
    ensures ServedBySome(order, views, before + [last], limit, id)
      <==> ServedBySome(order, views, before, limit, id) || id in Elems(Keys(Served(order, views, last, limit).rows))
  {
    var targets := before + [last];
    assert targets[|before|] == last;
    if ServedBySome(order, views, before, limit, id) {
      var i :| 0 <= i < |before| && id in Elems(Keys(Served(order, views, before[i], limit).rows));
      assert targets[i] == before[i];
    }
  }

  /** No id is returned twice, and the ids are exactly the non-empty ones some target served, whether or
      not that target answered to the end. */
  lemma {:induction false} PulledIds<T>(order: Order, views: Views<T>, targets: seq<string>, limit: nat)
    requires StrictTotal(order)
    ensures Distinct(Keys(Pulled(order, views, targets, limit)))
    ensures forall id :: id in Elems(Keys(Pulled(order, views, targets, limit))) <==>
      id != "" && ServedBySome(order, views, targets, limit, id)
  {
    if targets != [] {
      var before, last := targets[..|targets| - 1], targets[|targets| - 1];
      assert targets == before + [last];
      PulledIds(order, views, before, limit);
      MergeKeys(Pulled(order, views, before, limit), Served(order, views, last, limit).rows);
      forall id { ServedByLast(order, views, before, last, limit, id); }
    }
  }

  /** Each id comes with the content of the earliest target that served it. */
  ghost predicate FromEarliest<T>(order: Order, views: Views<T>, targets: seq<string>, limit: nat, row: (string, T))
    requires StrictTotal(order)
  {
    exists i :: 0 <= i < |targets| && row in Served(order, views, targets[i], limit).rows &&
      forall j :: 0 <= j < i ==> row.0 !in Elems(Keys(Served(order, views, targets[j], limit).rows))
  }

  lemma {:induction false} PulledFromEarliest<T>(order: Order, views: Views<T>, targets: seq<string>, limit: nat,
                                                 row: (string, T))
    requires StrictTotal(order) && row in Pulled(order, views, targets, limit)
    ensures FromEarliest(order, views, targets, limit, row)
  {
    var before, last := targets[..|targets| - 1], targets[|targets| - 1];
    var known := Pulled(order, views, before, limit);
    var more := Served(order, views, last, limit).rows;
    MergeSources(known, more, row);
    forall j | 0 <= j < |before| ensures targets[j] == before[j] {}
    if row in known {
      PulledFromEarliest(order, views, before, limit, row);
      var i :| 0 <= i < |before| && row in Served(order, views, before[i], limit).rows &&
        forall j :: 0 <= j < i ==> row.0 !in Elems(Keys(Served(order, views, before[j], limit).rows));
      assert targets[i] == before[i];
    } else {
      NonEmptyId(known, more, row);
      PulledIds(order, views, before, limit);
    }
  }

  lemma {:induction false} NonEmptyId<T>(known: seq<(string, T)>, more: seq<(string, T)>, row: (string, T))
    requires row in Merge(known, more) && row !in known
    ensures row.0 != ""
  {
    if row in Merge(known, more[..|more| - 1]) {
      NonEmptyId(known, more[..|more| - 1], row);
    }
  }

  /** Every row that some fully answering target showed at each of its page requests is returned. */
  lemma PulledComplete<T>(order: Order, views: Views<T>, targets: seq<string>, limit: nat, i: nat, id: string)
    requires StrictTotal(order) && limit >= 1 && i < |targets|
    requires Served(order, views, targets[i], limit).complete
    requires forall n :: 0 <= n < |views(targets[i])| ==> "" !in views(targets[i])[n]
    requires forall n :: 0 <= n < Served(order, views, targets[i], limit).requests && n < |views(targets[i])| ==>
      id in views(targets[i])[n]
    ensures id in Elems(Keys(Pulled(order, views, targets, limit)))
  {
    ScanComplete(order, views(targets[i]), "", limit, id);
    assert id != "" by { assert id in views(targets[i])[0]; }
    PulledIds(order, views, targets, limit);
  }

  // ----- keeping what was pulled -----

  /** What the recipient's server must keep of a pulled payload: everything that was handed out, marked as a copy. */
  ghost predicate IsKeptCopy(c: Config, row: Row, p: Payload) {
    && row.message == p.message
    && row.originServerPeerId == p.originServerPeerId
    && NamesValid(row.replicaPeerIds, p.replicaPeerIds)
    && row.isReplicaCopy
    && row.expiresAt - p.message.sendTime == c.retentionMs
  }

  /** Every signed item is kept under its id, and no other row has changed. */
  ghost predicate AllKept(c: Config, before: Queue, after: Queue, items: seq<(string, Payload)>) {
    && (forall item :: item in items && c.isSigned(item.1.message) ==>
         item.0 in after && IsKeptCopy(c, after[item.0], item.1))
    && (forall id :: !SignedAmong(c, items, id) ==>
         (id in after <==> id in before) && (id in before ==> after[id] == before[id]))
  }

  ghost predicate SignedAmong(c: Config, items: seq<(string, Payload)>, id: string) {
    exists item :: item in items && item.0 == id && c.isSigned(item.1.message)
  }

  function PulledRow(c: Config, p: Payload): (row: Row)
    ensures IsKeptCopy(c, row, p)
  {
    Row(p.message, p.originServerPeerId, NormalizePeerIdList(p.replicaPeerIds), true,
        p.message.sendTime + c.retentionMs)
  }

  function Keep(c: Config, queue: Queue, items: seq<(string, Payload)>): Queue {
    if items == [] then queue
    else
      var p := items[|items| - 1].1;
      var before := Keep(c, queue, items[..|items| - 1]);
      if c.isSigned(p.message) then before[p.message.id := PulledRow(c, p)] else before
  }

  /** `synchronize_user_queue_from_replicas`, once the selection has been made. */
  method SynchronizeUserQueueFromReplicas(service: DirectMessageService, order: Order, selected: seq<string>,
                                          views: Views<Payload>)
    requires StrictTotal(order)
    modifies service
    ensures service.queue == Keep(service.config, old(service.queue),
      Pulled(order, views, PullTargets(service.config.localPeerId, selected), service.config.pullBatchSize))
    ensures var targets := PullTargets(service.config.localPeerId, selected);
      var items := Pulled(order, views, targets, service.config.pullBatchSize);
      HonestItems(items) ==> AllKept(service.config, old(service.queue), service.queue, items)
  {
    var c := service.config;
    ghost var before := service.queue;
    ghost var targets := PullTargets(c.localPeerId, selected);
    PulledIds(order, views, targets, c.pullBatchSize);
    if |selected| == 0 {
      assert Elems(targets) == {};
      NoElems(targets);
      return;
    }
    var items := PullPendingMessagesFromReplicas(order, c.localPeerId, selected, c.pullBatchSize, views);
    KeepItems(service, items);
    if HonestItems(items) { KeepKeepsAll(c, before, items); }
  }

  lemma KeepKeepsAll(c: Config, queue: Queue, items: seq<(string, Payload)>)
    requires HonestItems(items) && Distinct(Keys(items))
    ensures AllKept(c, queue, Keep(c, queue, items), items)
  {
    forall item | item in items && c.isSigned(item.1.message)
      ensures item.0 in Keep(c, queue, items) && IsKeptCopy(c, Keep(c, queue, items)[item.0], item.1)
    {
      KeptMessages(c, queue, items, item.0);
    }
    forall id | !SignedAmong(c, items, id)
      ensures (id in Keep(c, queue, items) <==> id in queue) && (id in queue ==> Keep(c, queue, items)[id] == queue[id])
    {
      UnsignedLeaves(c, queue, items, id);
    }
  }

  lemma {:induction false} UnsignedLeaves(c: Config, queue: Queue, items: seq<(string, Payload)>, id: string)
    requires HonestItems(items) && !SignedAmong(c, items, id)
    ensures (id in Keep(c, queue, items) <==> id in queue) && (id in queue ==> Keep(c, queue, items)[id] == queue[id])
  {
    if items != [] {
      var before, last := items[..|items| - 1], items[|items| - 1];
      assert items == before + [last] && last in items;
      assert forall item :: item in before ==> item in items;
      UnsignedLeaves(c, queue, before, id);
    }
  }

  /** The holders of a message travel: what a replica was told, it offers to a pull; what it offers, the
      recipient's server keeps; and what that server keeps, it names when the recipient has the message. So the
      delete goes to every valid server that was named, and to the origin, wherever the row came from. */
  lemma HoldersAreTold(replica: Config, held: Queue, sent: Payload, source: string, publicKey: string, now: int,
                       reader: Config, queue: Queue, items: seq<(string, Payload)>, origin: string,
                       replicas: seq<string>)
    requires replica.isSigned(sent.message) && reader.isSigned(sent.message) && source != ""
    requires HonestItems(items) && Distinct(Keys(items))
    requires var view := PullView(replica, Replicate(replica, held, sent, source).0, publicKey, now);
      sent.message.id in view && (sent.message.id, view[sent.message.id]) in items
    requires var kept := Keep(reader, queue, items);
      sent.message.id in kept ==> IsTold(reader, kept[sent.message.id], origin, replicas)
    ensures origin == if sent.originServerPeerId == "" then source else sent.originServerPeerId
    ensures NamesValid(replicas, sent.replicaPeerIds)
  {
    KeptMessages(reader, queue, items, sent.message.id);
  }

  method KeepItems(service: DirectMessageService, items: seq<(string, Payload)>)
    modifies service
    ensures service.queue == Keep(service.config, old(service.queue), items)
  {
    for i := 0 to |items|
      invariant service.queue == Keep(service.config, old(service.queue), items[..i])
    {
      assert items[..i + 1][..i] == items[..i];
      var p := items[i].1;
      if !service.config.isSigned(p.message) {
        continue;
      }
      service.queue := service.queue[p.message.id :=
        Row(p.message, p.originServerPeerId, NormalizePeerIdList(p.replicaPeerIds), true,
            p.message.sendTime + service.config.retentionMs)];
    }
    assert items[..|items|] == items;
  }

  /** Earlier send times rank first. */
  function Earliness(queue: Queue): string -> real {
    (id: string) => if id in queue then 0.0 - queue[id].message.sendTime as real else 0.0
  }

  ghost predicate InSendOrder(queue: Queue, ids: seq<string>) {
    forall i, j :: 0 <= i < j < |ids| && ids[i] in queue && ids[j] in queue ==>
      queue[ids[i]].message.sendTime <= queue[ids[j]].message.sendTime
  }

  function Unexpired(queue: Queue, publicKey: string, now: int): set<string> {
    set id | id in queue && queue[id].expiresAt > now && queue[id].message.recipientPublicKey == publicKey
  }

  /** The user's unexpired rows, oldest message first. */
  method ReplayOrder(queue: Queue, tie: Order, publicKey: string, now: int) returns (ids: seq<string>)
    requires StrictTotal(tie)
    ensures Distinct(ids) && InSendOrder(queue, ids)
    ensures Elems(ids) == Unexpired(queue, publicKey, now)
  {
    var lt := ByDescending(Earliness(queue), tie);
    ByDescendingIsStrictTotal(Earliness(queue), tie);
    var pending := Unexpired(queue, publicKey, now);
    EnumerateProperties(lt, pending);
    ids := Enumerate(lt, pending);
    AscendingDistinct(lt, ids);
    forall i, j | 0 <= i < j < |ids| && ids[i] in queue && ids[j] in queue
      ensures queue[ids[i]].message.sendTime <= queue[ids[j]].message.sendTime
    {
      assert lt(ids[i], ids[j]);
    }
  }

  /** Synchronize, then replay the queue to the user's sockets. */
  method HandleChatSync(service: DirectMessageService, order: Order, tie: Order, publicKey: string,
                        selected: seq<string>,
                        views: Views<Payload>, now: int)
    returns (replayed: seq<string>)
    requires StrictTotal(order) && StrictTotal(tie)
    modifies service
    ensures service.queue == Keep(service.config, old(service.queue),
      Pulled(order, views, PullTargets(service.config.localPeerId, selected), service.config.pullBatchSize))
    ensures var targets := PullTargets(service.config.localPeerId, selected);
      var items := Pulled(order, views, targets, service.config.pullBatchSize);
      HonestItems(items) ==> AllKept(service.config, old(service.queue), service.queue, items)
    ensures Distinct(replayed) && Elems(replayed) == Unexpired(service.queue, publicKey, now)
    ensures InSendOrder(service.queue, replayed)
  {
    SynchronizeUserQueueFromReplicas(service, order, selected, views);
    replayed := ReplayOrder(service.queue, tie, publicKey, now);
  }

  /** Honest answers file a payload under the id of its message. */
  ghost predicate HonestItems(items: seq<(string, Payload)>) {
    forall row :: row in items ==> row.1.message.id == row.0
  }

  /** A signed pulled message is in the queue afterwards; rows of other ids are untouched. */
  lemma {:induction false} KeptMessages(c: Config, queue: Queue, items: seq<(string, Payload)>, id: string)
    requires HonestItems(items) && Distinct(Keys(items))
    ensures forall row :: row in items && row.0 == id && c.isSigned(row.1.message) ==>
      id in Keep(c, queue, items) && IsKeptCopy(c, Keep(c, queue, items)[id], row.1)
    ensures id !in Elems(Keys(items)) ==>
      (id in Keep(c, queue, items) <==> id in queue) && (id in queue ==> Keep(c, queue, items)[id] == queue[id])
  {
    if items != [] {
      var before, last := items[..|items| - 1], items[|items| - 1];
      assert items == before + [last];
      assert last in items;
      KeysConcat(before, [last]);
      assert Keys([last]) == [last.0];
      ElemsConcat(Keys(before), [last.0]);
      assert HonestItems(before) by { assert forall row :: row in before ==> row in items; }
      assert Distinct(Keys(before)) by { assert forall i :: 0 <= i < |before| ==> Keys(before)[i] == Keys(items)[i]; }
      assert last.0 !in Elems(Keys(before)) by {
        forall i | 0 <= i < |before| ensures Keys(before)[i] != last.0 {
          assert Keys(items)[i] != Keys(items)[|items| - 1];
        }
      }
      KeptMessages(c, queue, before, id);
      forall row | row in items && row.0 == id && c.isSigned(row.1.message)
        ensures id in Keep(c, queue, items) && IsKeptCopy(c, Keep(c, queue, items)[id], row.1)
      {
        if row in before { RowKeyInKeys(before, row); }
      }
    }
  }

  lemma RowKeyInKeys<T>(rows: seq<(string, T)>, row: (string, T))
    requires row in rows
    ensures row.0 in Elems(Keys(rows))
  {
    var i :| 0 <= i < |rows| && rows[i] == row;
    assert Keys(rows)[i] == row.0;
  }
}
