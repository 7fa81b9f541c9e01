/** Score aggregates received from other servers: the newer one wins. */
module AggregateSync {
  import opened Ordering
  import opened Paging
  import opened SyncWire

  datatype AggregateRow =
    AggregateRow(targetPeerId: string, lastReportAt: int, meanScore: real, reportCount: int, updatedAt: int)

  /** SHA-256 over the canonical text of an envelope; any function of these fields will do. */
  type RowHash = (Table, string, Payload, int) -> string

  function ToPayload(row: AggregateRow): Payload {
    AggregatePayload(row.lastReportAt, row.meanScore, row.reportCount, row.targetPeerId, row.updatedAt)
  }

  function ToRowEnvelope(hash: RowHash, row: AggregateRow): Envelope {
    var payload := ToPayload(row);
    Envelope(hash(ServerScoreAggregate, row.targetPeerId, payload, row.updatedAt), payload, row.targetPeerId,
             ServerScoreAggregate, row.updatedAt)
  }

  /** An envelope some server made from a row of its own. */
  ghost predicate Honest(hash: RowHash, e: Envelope) {
    exists row :: e == ToRowEnvelope(hash, row)
  }

  /** The row that is written: the key comes from the envelope, everything else from the payload. */
  function FromEnvelope(e: Envelope): AggregateRow
    requires e.payload.AggregatePayload?
  {
    AggregateRow(e.primaryKey, e.payload.lastReportAt, e.payload.meanScore, e.payload.reportCount, e.payload.updatedAt)
  }

  type AggregateTable = map<string, AggregateRow>

  predicate IsAggregate(e: Envelope) { e.table == ServerScoreAggregate && e.payload.AggregatePayload? }

  predicate IsNewer(rows: AggregateTable, e: Envelope) {
    e.primaryKey in rows && rows[e.primaryKey].updatedAt > e.updatedAt
  }

  function Apply(rows: AggregateTable, e: Envelope): AggregateTable {
    if !IsAggregate(e) || IsNewer(rows, e) then rows else rows[e.primaryKey := FromEnvelope(e)]
  }

  function ApplyAll(rows: AggregateTable, envelopes: seq<Envelope>): AggregateTable {
    if envelopes == [] then rows
    else Apply(ApplyAll(rows, envelopes[..|envelopes| - 1]), envelopes[|envelopes| - 1])
  }

  /** The table as other servers see it. */
  function EnvelopeView(hash: RowHash, rows: AggregateTable): map<string, Envelope> {
    map k | k in rows :: ToRowEnvelope(hash, rows[k])
  }

  /** Every row is filed under its own key. */
  ghost predicate Filed(rows: AggregateTable) { forall k :: k in rows ==> rows[k].targetPeerId == k }

  /** The hash a server votes for; "" when it has no such row. */
  function VoteFor(hash: RowHash, rows: AggregateTable, key: string): string {
    if key in rows then ToRowEnvelope(hash, rows[key]).canonicalHash else ""
  }

  /** The row filed under the envelope's key is the one the envelope carries; the others are as they were. */
  ghost predicate IsReplaced(before: AggregateTable, after: AggregateTable, e: Envelope) {
    && e.primaryKey in after && after - {e.primaryKey} == before - {e.primaryKey}
    && after[e.primaryKey].targetPeerId == e.primaryKey
    && e.payload.AggregatePayload?
    && ToPayload(after[e.primaryKey]) == e.payload.(targetPeerId := e.primaryKey)
  }

  class TableSyncRunner {
    var serverScoreAggregates: AggregateTable

    ghost predicate Valid()
      reads this
    {
      Filed(serverScoreAggregates)
    }

    constructor (rows: AggregateTable)
      requires Filed(rows)
      ensures Valid() && serverScoreAggregates == rows
    {
      serverScoreAggregates := rows;
    }

    method HandleFetchRequest(order: Order, hash: RowHash, cursor: string, requestedLimit: int)
      returns (items: seq<(string, Envelope)>, nextCursor: string)
      requires StrictTotal(order) && Valid()
      ensures (items, nextCursor)
        == Serve(order, EnvelopeView(hash, serverScoreAggregates), cursor, ClampLimit(requestedLimit, LARGEST_PAGE))
      ensures forall i :: 0 <= i < |items| ==> Honest(hash, items[i].1) && items[i].1.primaryKey == items[i].0
    {
      var limit := ClampLimit(requestedLimit, LARGEST_PAGE);
      var answer := Serve(order, EnvelopeView(hash, serverScoreAggregates), cursor, limit);
      items, nextCursor := answer.0, answer.1;
      assert forall k :: k in serverScoreAggregates ==> Honest(hash, ToRowEnvelope(hash, serverScoreAggregates[k]));
    }

    method HandleVerifyRequest(hash: RowHash, keys: seq<string>) returns (votes: map<string, string>)
      ensures votes.Keys == Elems(keys)
      ensures forall k :: k in votes ==> votes[k] == VoteFor(hash, serverScoreAggregates, k)
    {
      votes := map[];
      for i := 0 to |keys|
        invariant votes.Keys == Elems(keys[..i])
        invariant forall k :: k in votes ==> votes[k] == VoteFor(hash, serverScoreAggregates, k)
      {
        PrefixStep(keys, i);
        var vote := "";
        if keys[i] in serverScoreAggregates {
          vote := ToRowEnvelope(hash, serverScoreAggregates[keys[i]]).canonicalHash;
        }
        votes := votes[keys[i] := vote];
      }
      assert keys[..|keys|] == keys;
    }

    method ApplyServerScoreAggregate(row: Envelope)
      requires Valid() && row.payload.AggregatePayload? && row.table == ServerScoreAggregate
      modifies this
      ensures Valid() && serverScoreAggregates == Apply(old(serverScoreAggregates), row)
      ensures var was := old(serverScoreAggregates);
        if row.primaryKey in was && was[row.primaryKey].updatedAt > row.updatedAt then serverScoreAggregates == was
        else IsReplaced(was, serverScoreAggregates, row)
    {
      if row.primaryKey in serverScoreAggregates {
        var existing := serverScoreAggregates[row.primaryKey];
        if existing.updatedAt > row.updatedAt {
          return;
        }
      }
      var payload := row.payload;
      serverScoreAggregates := serverScoreAggregates[row.primaryKey :=
        AggregateRow(row.primaryKey, payload.lastReportAt, payload.meanScore, payload.reportCount, payload.updatedAt)];
    }

    /** Rows of the other tables do not touch this one. */
    method ApplyRows(rows: seq<Envelope>)
      requires Valid()
      modifies this
      ensures Valid() && serverScoreAggregates == ApplyAll(old(serverScoreAggregates), rows)
    {
      for i := 0 to |rows|
        invariant Valid() && serverScoreAggregates == ApplyAll(old(serverScoreAggregates), rows[..i])
      {
        assert rows[..i + 1][..i] == rows[..i];
        if IsAggregate(rows[i]) {
          ApplyServerScoreAggregate(rows[i]);
        }
      }
      assert rows[..|rows|] == rows;
    }
  }

  // ----- which row a target ends up with -----

  /** The rows a target could end up with: its own, or one of the received ones. */
  ghost predicate Candidate(rows: AggregateTable, envelopes: seq<Envelope>, target: string, row: AggregateRow) {
    || (target in rows && row == rows[target])
    || exists e :: e in envelopes && e.primaryKey == target && e.payload.AggregatePayload? && row == FromEnvelope(e)
  }

  ghost predicate AllHonest(hash: RowHash, envelopes: seq<Envelope>) {
    forall e :: e in envelopes ==> Honest(hash, e)
  }

  /** The target holds a candidate with the greatest `updatedAt`, and holds something exactly when there is one. */
  ghost predicate HoldsGreatest(rows: AggregateTable, envelopes: seq<Envelope>, target: string, final: AggregateTable) {
    && (target in final ==> Candidate(rows, envelopes, target, final[target]))
    && (forall row :: Candidate(rows, envelopes, target, row) ==>
      target in final && row.updatedAt <= final[target].updatedAt)
  }

  lemma GreatestStep(hash: RowHash, rows: AggregateTable, before: seq<Envelope>, e: Envelope, target: string,
                     was: AggregateTable)
    requires Honest(hash, e) && HoldsGreatest(rows, before, target, was)
    ensures HoldsGreatest(rows, before + [e], target, Apply(was, e))
  {
    forall row ensures Candidate(rows, before + [e], target, row)
      <==> (Candidate(rows, before, target, row) || (e.primaryKey == target && row == FromEnvelope(e)))
    {
      CandidateStep(rows, before, e, target, row);
    }
  }

  /** After any sequence of honest envelopes each target holds its greatest candidate. */
  lemma {:induction false} GreatestRemains(hash: RowHash, rows: AggregateTable, envelopes: seq<Envelope>,
                                           target: string)
    requires AllHonest(hash, envelopes)
    ensures HoldsGreatest(rows, envelopes, target, ApplyAll(rows, envelopes))
  {
    if envelopes != [] {
      var before, e := envelopes[..|envelopes| - 1], envelopes[|envelopes| - 1];
      assert envelopes == before + [e];
      assert e in envelopes && forall f :: f in before ==> f in envelopes;
      GreatestRemains(hash, rows, before, target);
      GreatestStep(hash, rows, before, e, target, ApplyAll(rows, before));
    }
  }

  lemma CandidateStep(rows: AggregateTable, before: seq<Envelope>, e: Envelope, target: string, row: AggregateRow)
    requires e.payload.AggregatePayload?
    ensures Candidate(rows, before + [e], target, row)
      <==> Candidate(rows, before, target, row) || (e.primaryKey == target && row == FromEnvelope(e))
  {
    assert forall f :: f in before + [e] <==> f in before || f == e;
  }

  /** Applying never lowers a target's `updatedAt`, and never drops a target. */
  lemma NeverLowered(hash: RowHash, rows: AggregateTable, envelopes: seq<Envelope>, target: string)
    requires AllHonest(hash, envelopes) && target in rows
    ensures target in ApplyAll(rows, envelopes)
    ensures ApplyAll(rows, envelopes)[target].updatedAt >= rows[target].updatedAt
  {
    GreatestRemains(hash, rows, envelopes, target);
    assert Candidate(rows, envelopes, target, rows[target]);
  }

  /** One content per target and instant. */
  ghost predicate OneContent(rows: AggregateTable, envelopes: seq<Envelope>) {
    forall target, a, b :: Candidate(rows, envelopes, target, a) && Candidate(rows, envelopes, target, b) &&
      a.updatedAt == b.updatedAt
      ==> a == b
  }

  /** Nodes that apply the same envelopes agree, in whatever order and however often they apply them. */
  lemma SameSetSameTable(hash: RowHash, rows: AggregateTable, envelopes: seq<Envelope>, others: seq<Envelope>)
    requires AllHonest(hash, envelopes) && Elems(envelopes) == Elems(others) && OneContent(rows, envelopes)
    ensures ApplyAll(rows, envelopes) == ApplyAll(rows, others)
  {
    forall e ensures e in envelopes <==> e in others { assert e in Elems(envelopes) <==> e in Elems(others); }
    var a, b := ApplyAll(rows, envelopes), ApplyAll(rows, others);
    forall target ensures target in a <==> target in b
      ensures target in a && target in b ==> a[target] == b[target]
    {
      GreatestRemains(hash, rows, envelopes, target);
      GreatestRemains(hash, rows, others, target);
      assert forall row :: Candidate(rows, envelopes, target, row) <==> Candidate(rows, others, target, row);
    }
  }

  /** A row written from an honest envelope encodes to the same envelope again, hash included. */
  lemma RoundTrip(hash: RowHash, rows: AggregateTable, e: Envelope)
    requires Honest(hash, e) && !IsNewer(rows, e)
    ensures e.primaryKey in Apply(rows, e)
    ensures ToRowEnvelope(hash, Apply(rows, e)[e.primaryKey]) == e
  {
    var row :| e == ToRowEnvelope(hash, row);
  }

  // ----- votes -----

  /** Different contents have different hashes, none of them empty. */
  ghost predicate Injective(hash: RowHash) {
    && (forall a, b, k, l, p, q, t, u :: hash(a, k, p, t) == hash(b, l, q, u) ==> a == b && k == l && p == q && t == u)
    && (forall a, k, p, t :: hash(a, k, p, t) != "")
  }

  /** A server's vote backs an honest envelope exactly when the server holds the row it was made from. */
  lemma VoteBacksOwnContent(hash: RowHash, rows: AggregateTable, e: Envelope)
    requires Injective(hash) && Filed(rows) && Honest(hash, e)
    ensures VoteFor(hash, rows, e.primaryKey) == e.canonicalHash
      <==> e.primaryKey in rows && rows[e.primaryKey] == FromEnvelope(e)
  {
    var row :| e == ToRowEnvelope(hash, row);
    if e.primaryKey in rows {
      var own := rows[e.primaryKey];
      var ownHash := hash(ServerScoreAggregate, own.targetPeerId, ToPayload(own), own.updatedAt);
      var rowHash := hash(ServerScoreAggregate, row.targetPeerId, ToPayload(row), row.updatedAt);
      assert ownHash == rowHash <==> own == row;
    }
  }

  /** Once an honest envelope has been applied, the server votes for it, as long as only older rows follow. */
  lemma AppliedIsBacked(hash: RowHash, rows: AggregateTable, e: Envelope, later: seq<Envelope>)
    requires Injective(hash) && Filed(rows) && Honest(hash, e) && !IsNewer(rows, e) && AllHonest(hash, later)
    requires forall f :: f in later && f.primaryKey == e.primaryKey ==> f.updatedAt < e.updatedAt
    ensures VoteFor(hash, ApplyAll(Apply(rows, e), later), e.primaryKey) == e.canonicalHash
  {
    var row :| e == ToRowEnvelope(hash, row);
    OlderChangeNothing(hash, Apply(rows, e), later, e.primaryKey);
  }

  lemma {:induction false} OlderChangeNothing(hash: RowHash, rows: AggregateTable, later: seq<Envelope>, target: string)
    requires target in rows && AllHonest(hash, later)
    requires forall f :: f in later && f.primaryKey == target ==> f.updatedAt < rows[target].updatedAt
    ensures target in ApplyAll(rows, later) && ApplyAll(rows, later)[target] == rows[target]
  {
    if later != [] {
      var before, last := later[..|later| - 1], later[|later| - 1];
      assert last in later && forall f :: f in before ==> f in later;
      OlderChangeNothing(hash, rows, before, target);
    }
  }
}
