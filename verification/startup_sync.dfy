/** Copying a table from one source while a vote of the validators decides each row's content. */
module StartupSync {
  import opened Ordering
  import opened Paging
  import opened SyncWire
  import opened Text
  import opened Totals
  import opened ValidatorDiscovery
  import opened Votes

  datatype QueueEntry = QueueEntry(primaryKey: string, table: Table)

  function QueueKey(table: Table, key: string): string { Join(TableName(table), key) }

  predicate IsQueued(queue: map<string, QueueEntry>, table: Table, key: string) {
    QueueKey(table, key) in queue && queue[QueueKey(table, key)] == QueueEntry(key, table)
  }

  function Enqueued(queue: map<string, QueueEntry>, table: Table, key: string): map<string, QueueEntry> {
    queue[QueueKey(table, key) := QueueEntry(key, table)]
  }

  lemma QueueKeyInjective(a: Table, k: string, b: Table, l: string)
    requires QueueKey(a, k) == QueueKey(b, l)
    ensures a == b && k == l
  {
    TableNames(a, b);
    TableNames(b, a);
    JoinInjective(TableName(a), k, TableName(b), l);
  }

  /** A later row replaces an earlier one with the same key. */
  function SourceMap(rows: seq<Envelope>): map<string, Envelope> {
    if rows == [] then map[]
    else SourceMap(rows[..|rows| - 1])[rows[|rows| - 1].primaryKey := rows[|rows| - 1]]
  }

  ghost predicate KeysDiffer(rows: seq<Envelope>) {
    forall i, j :: 0 <= i < j < |rows| ==> rows[i].primaryKey != rows[j].primaryKey
  }

  lemma {:induction false} SourceIsOwn(rows: seq<Envelope>, i: nat)
    requires i < |rows| && KeysDiffer(rows)
    ensures rows[i].primaryKey in SourceMap(rows) && SourceMap(rows)[rows[i].primaryKey] == rows[i]
  {
    if i < |rows| - 1 { SourceIsOwn(rows[..|rows| - 1], i); }
  }

  lemma EnqueuedOnly(queue: map<string, QueueEntry>, table: Table, key: string, t: Table, k: string)
    ensures IsQueued(Enqueued(queue, table, key), t, k) <==> IsQueued(queue, t, k) || (t == table && k == key)
  {
    if QueueKey(t, k) == QueueKey(table, key) { QueueKeyInjective(t, k, table, key); }
  }

  // ----- the decision on one row -----

  type Supply = (string, string) -> Option<Envelope>

  /** What each validator answers about a page: a hash for each key, "" for none. */
  type Answers = string -> Option<map<string, string>>

  /** Whom one page can ask for rows, and what each of them replies for a key. */
  datatype Asking = Asking(validators: seq<string>, supply: Supply)

  /** The supporters of the winning hash, or all validators when there are none. */
  function Asked(r: RowConsensus, asking: Asking): seq<string> {
    if |r.supportingPeerIds| > 0 then r.supportingPeerIds else asking.validators
  }

  predicate Supplies(r: RowConsensus, asking: Asking, peer: string) {
    && asking.supply(peer, r.primaryKey).Some?
    && asking.supply(peer, r.primaryKey).value.canonicalHash == r.chosenHash
  }

  predicate Obtainable(r: RowConsensus, asking: Asking) {
    exists i :: 0 <= i < |Asked(r, asking)| && Supplies(r, asking, Asked(r, asking)[i])
  }

  /** The reply of the first asked peer that has the winning hash. */
  ghost predicate IsFirstSupplied(r: RowConsensus, asking: Asking, row: Envelope) {
    exists i :: 0 <= i < |Asked(r, asking)| && FirstAt(r, asking, i) &&
      asking.supply(Asked(r, asking)[i], r.primaryKey) == Some(row)
  }

  predicate FirstAt(r: RowConsensus, asking: Asking, i: int)
    requires 0 <= i < |Asked(r, asking)|
  {
    && Supplies(r, asking, Asked(r, asking)[i])
    && forall j :: 0 <= j < i ==> !Supplies(r, asking, Asked(r, asking)[j])
  }

  /** The source's own row stands when there is no winning hash, or it carries that hash. */
  predicate Stands(source: Envelope, r: RowConsensus) { r.chosenHash == "" || r.chosenHash == source.canonicalHash }

  /** The winner is applied: where the source's row does not stand, the first one supplied with the winning hash
      replaces it; only when nobody supplies it the source's row is applied after all. */
  ghost predicate IsWinner(source: Envelope, r: RowConsensus, asking: Asking, row: Envelope) {
    if Stands(source, r) || !Obtainable(r, asking) then row == source else IsFirstSupplied(r, asking, row)
  }

  /** Such a row is put into the weak-consensus queue. */
  predicate Flagged(source: Envelope, r: RowConsensus, asking: Asking) {
    r.weakConsensus || (!Stands(source, r) && !Obtainable(r, asking))
  }

  /** A row given to `apply_rows`, with all it was decided by. */
  datatype Handed =
    Handed(table: Table, source: Envelope, row: Envelope, consensus: RowConsensus, votes: seq<Vote>, asking: Asking)

  /** The row was decided as the vote says. */
  ghost predicate Decided(lt: Order, h: Handed) {
    && IsConsensus(lt, h.votes, h.source.primaryKey, h.consensus)
    && IsWinner(h.source, h.consensus, h.asking, h.row)
  }

  /** Backed by more than half of the answering weight, with at least two batches of votes received. */
  ghost predicate Strong(h: Handed) {
    StrictMajority(h.votes, h.source.primaryKey, h.row.canonicalHash) && |h.votes| >= 2
  }

  /** The rows that are flagged are exactly those that are not strong. */
  lemma FlaggedIffNotStrong(lt: Order, h: Handed)
    requires Decided(lt, h)
    ensures Flagged(h.source, h.consensus, h.asking) <==> !Strong(h)
  {
    NotWeakMeansMajority(lt, h.votes, h.source.primaryKey, h.consensus);
    if Strong(h) {
      MajorityWins(lt, h.votes, h.source.primaryKey, h.consensus, h.row.canonicalHash);
    }
  }

  ghost predicate AllDecided(lt: Order, handed: seq<Handed>) {
    forall i {:trigger Decided(lt, handed[i])} :: 0 <= i < |handed| ==> Decided(lt, handed[i])
  }

  ghost predicate SomeWeak(handed: seq<Handed>, table: Table, key: string) {
    exists i :: 0 <= i < |handed| && handed[i].table == table && handed[i].source.primaryKey == key &&
      !Strong(handed[i])
  }

  /** What the queue held before, and the rows handed over since that are not strong; nothing else. */
  ghost predicate QueueGrows(before: map<string, QueueEntry>, now: map<string, QueueEntry>, handed: seq<Handed>) {
    forall t, k :: IsQueued(now, t, k) <==> IsQueued(before, t, k) || SomeWeak(handed, t, k)
  }

  lemma SomeWeakConcat(a: seq<Handed>, b: seq<Handed>, table: Table, key: string)
    ensures SomeWeak(a + b, table, key) <==> SomeWeak(a, table, key) || SomeWeak(b, table, key)
  {
    if SomeWeak(a, table, key) {
      var i :| 0 <= i < |a| && a[i].table == table && a[i].source.primaryKey == key && !Strong(a[i]);
      assert (a + b)[i] == a[i];
    }
    if SomeWeak(b, table, key) {
      var i :| 0 <= i < |b| && b[i].table == table && b[i].source.primaryKey == key && !Strong(b[i]);
      assert (a + b)[|a| + i] == b[i];
    }
  }

  lemma QueueGrowsTwice(first: map<string, QueueEntry>, second: map<string, QueueEntry>, third: map<string, QueueEntry>,
                        a: seq<Handed>, b: seq<Handed>)
    requires QueueGrows(first, second, a) && QueueGrows(second, third, b)
    ensures QueueGrows(first, third, a + b)
  {
    forall t, k ensures IsQueued(third, t, k) <==> IsQueued(first, t, k) || SomeWeak(a + b, t, k) {
      SomeWeakConcat(a, b, t, k);
    }
  }

  /** The queue after one row. */
  function QueueAfter(queue: map<string, QueueEntry>, h: Handed): map<string, QueueEntry> {
    if Flagged(h.source, h.consensus, h.asking) then Enqueued(queue, h.table, h.source.primaryKey) else queue
  }

  lemma OneGrows(lt: Order, queue: map<string, QueueEntry>, h: Handed)
    requires Decided(lt, h)
    ensures QueueGrows(queue, QueueAfter(queue, h), [h])
  {
    FlaggedIffNotStrong(lt, h);
    forall t, k
      ensures IsQueued(Enqueued(queue, h.table, h.source.primaryKey), t, k)
        <==> (IsQueued(queue, t, k) || (t == h.table && k == h.source.primaryKey))
    {
      EnqueuedOnly(queue, h.table, h.source.primaryKey, t, k);
    }
    assert [h][0] == h;
  }

  /** Asks the supporters in turn (or, without any, all validators) for a row with the expected hash. */
  method FetchRowFromSupporters(r: RowConsensus, asking: Asking) returns (found: Option<Envelope>)
    ensures found.Some? <==> Obtainable(r, asking)
    ensures found.Some? ==> IsFirstSupplied(r, asking, found.value) && found.value.canonicalHash == r.chosenHash
    ensures var asked := if r.supportingPeerIds == [] then asking.validators else r.supportingPeerIds;
      found.None? <==> forall i :: 0 <= i < |asked| ==>
        var reply := asking.supply(asked[i], r.primaryKey);
        reply.None? || reply.value.canonicalHash != r.chosenHash
  {
    var preferred := Asked(r, asking);
    for i := 0 to |preferred|
      invariant forall j :: 0 <= j < i ==> !Supplies(r, asking, preferred[j])
    {
      var row := asking.supply(preferred[i], r.primaryKey);
      if row.Some? && row.value.canonicalHash == r.chosenHash {
        assert FirstAt(r, asking, i);
        return row;
      }
    }
    return None;
  }

  /** The votes of the validators that answered, in the order they were asked. */
  function VotesOf(validators: seq<Validator>, answers: Answers): seq<Vote> {
    if validators == [] then []
    else
      var last := validators[|validators| - 1];
      VotesOf(validators[..|validators| - 1], answers) +
      (match answers(last.peerId) case None => [] case Some(votes) => [Vote(last.peerId, votes, last.weight)])
  }

  /** The votes are those of the validators that answered, in the order they were asked, each under its own id,
    with its own answers and its own weight; `at` says where in the list each voter stands. */
  ghost predicate IsCollected(validators: seq<Validator>, answers: Answers, votes: seq<Vote>, at: seq<nat>) {
    && |at| == |votes|
    && (forall i, j :: 0 <= i < j < |at| ==> at[i] < at[j])
    && (forall i :: 0 <= i < |at| ==> IsVoteOf(validators, answers, at[i], votes[i]))
    && (forall j :: 0 <= j < |validators| && answers(validators[j].peerId).Some? ==> j in at)
  }

  ghost predicate IsVoteOf(validators: seq<Validator>, answers: Answers, j: nat, vote: Vote) {
    && j < |validators| && answers(validators[j].peerId).Some?
    && vote.peerId == validators[j].peerId
    && vote.votes == answers(validators[j].peerId).value
    && vote.weight == validators[j].weight
  }

  lemma {:induction false} VotesAreCollected(validators: seq<Validator>, answers: Answers) returns (at: seq<nat>)
    ensures IsCollected(validators, answers, VotesOf(validators, answers), at)
  {
    at := [];
    if validators != [] {
      var before, last := validators[..|validators| - 1], validators[|validators| - 1];
      at := VotesAreCollected(before, answers);
      assert before + [last] == validators;
      var votes := VotesOf(before, answers);
      if answers(last.peerId).Some? {
        var vote := Vote(last.peerId, answers(last.peerId).value, last.weight);
        OneMoreCollected(before, last, answers, votes, at, vote);
        at := at + [|before|];
      } else {
        StaysCollected(before, last, answers, votes, at);
        assert votes + [] == votes;
      }
    }
  }

  lemma StaysCollected(before: seq<Validator>, last: Validator, answers: Answers, votes: seq<Vote>, at: seq<nat>)
    requires IsCollected(before, answers, votes, at) && answers(last.peerId).None?
    ensures IsCollected(before + [last], answers, votes, at)
  {
    forall i | 0 <= i < |at| ensures IsVoteOf(before + [last], answers, at[i], votes[i]) {
      assert IsVoteOf(before, answers, at[i], votes[i]);
    }
  }

  lemma OneMoreCollected(before: seq<Validator>, last: Validator, answers: Answers, votes: seq<Vote>, at: seq<nat>,
                         vote: Vote)
    requires IsCollected(before, answers, votes, at)
    requires IsVoteOf(before + [last], answers, |before|, vote)
    ensures IsCollected(before + [last], answers, votes + [vote], at + [|before|])
  {
    forall i | 0 <= i <= |at|
      ensures (at + [|before|])[i] < |before| || i == |at|
      ensures IsVoteOf(before + [last], answers, (at + [|before|])[i], (votes + [vote])[i])
    {
      if i < |at| { assert IsVoteOf(before, answers, at[i], votes[i]); }
    }
    forall j | 0 <= j <= |before| && answers((before + [last])[j].peerId).Some? ensures j in at + [|before|] {
      if j < |before| { assert j in at; }
    }
  }

  method CollectVotes(validators: seq<Validator>, answers: Answers) returns (votes: seq<Vote>)
    ensures votes == VotesOf(validators, answers)
    ensures exists at :: IsCollected(validators, answers, votes, at)
  {
    votes := [];
    for i := 0 to |validators|
      invariant votes == VotesOf(validators[..i], answers)
    {
      assert validators[..i + 1][..i] == validators[..i];
      var response := answers(validators[i].peerId);
      if response.None? {
        continue;
      }
      votes := votes + [Vote(validators[i].peerId, response.value, validators[i].weight)];
    }
    assert validators[..|validators|] == validators;
    ghost var at := VotesAreCollected(validators, answers);
  }

  // ----- the weights of the validators decide -----

  /** A validator's weight if it answered for the key at all, or with this hash. */
  function WeightFor(answers: Answers, key: string, hash: string): Validator -> nat {
    (v: Validator) => if VotedFor(answers, v, key, hash) then v.weight else 0
  }

  function WeightAnswered(answers: Answers, key: string): Validator -> nat {
    (v: Validator) => if Answered(answers, v, key) then v.weight else 0
  }

  predicate Answered(answers: Answers, v: Validator, key: string) {
    && answers(v.peerId).Some? && key in answers(v.peerId).value && answers(v.peerId).value[key] != ""
  }

  predicate VotedFor(answers: Answers, v: Validator, key: string, hash: string) {
    Answered(answers, v, key) && answers(v.peerId).value[key] == hash
  }

  lemma {:induction false} WeightsReachVotes(validators: seq<Validator>, answers: Answers, key: string, hash: string)
    requires hash != ""
    ensures Votes.WeightOf(VotesOf(validators, answers), key, hash) == Total(validators, WeightFor(answers, key, hash))
    ensures RespondingWeight(VotesOf(validators, answers), key) == Total(validators, WeightAnswered(answers, key))
  {
    if validators != [] {
      var before, last := validators[..|validators| - 1], validators[|validators| - 1];
      WeightsReachVotes(before, answers, key, hash);
      NextValidator(before, last, answers, key, hash);
      assert before + [last] == validators;
    }
  }

  lemma NextValidator(before: seq<Validator>, last: Validator, answers: Answers, key: string, hash: string)
    requires hash != ""
    ensures var now, was := VotesOf(before + [last], answers), VotesOf(before, answers);
      && Votes.WeightOf(now, key, hash) == Votes.WeightOf(was, key, hash) + WeightFor(answers, key, hash)(last)
      && RespondingWeight(now, key) == RespondingWeight(was, key) + WeightAnswered(answers, key)(last)
  {
    assert (before + [last])[..|before|] == before;
    var was := VotesOf(before, answers);
    if answers(last.peerId).Some? {
      NextVote(was, Vote(last.peerId, answers(last.peerId).value, last.weight), key, hash);
    } else {
      assert was + [] == was;
    }
  }

  lemma {:induction false} VotedForAnswered(validators: seq<Validator>, answers: Answers, key: string, hash: string)
    ensures Total(validators, WeightFor(answers, key, hash)) <= Total(validators, WeightAnswered(answers, key))
  {
    if validators != [] { VotedForAnswered(validators[..|validators| - 1], answers, key, hash); }
  }

  /** Validators with more than half of the weight that answered for the key vote for the hash. */
  ghost predicate CarriesMajority(validators: seq<Validator>, answers: Answers, key: string, hash: string) {
    && hash != ""
    && 2 * Total(validators, WeightFor(answers, key, hash)) > Total(validators, WeightAnswered(answers, key))
  }

  /** The source has the hash, or one of the validators that vote for it supplies it. */
  ghost predicate IsAvailable(validators: seq<Validator>, answers: Answers, supply: Supply, source: Envelope,
                              hash: string)
  {
    || source.canonicalHash == hash
    || exists v ::
        v in validators && VotedFor(answers, v, source.primaryKey, hash) && Holds(supply, v, source.primaryKey, hash)
  }

  predicate Holds(supply: Supply, v: Validator, key: string, hash: string) {
    supply(v.peerId, key).Some? && supply(v.peerId, key).value.canonicalHash == hash
  }

  /** What a majority of the validators' weight backs is what is applied, wherever it can be had. */
  ghost predicate MajorityApplied(validators: seq<Validator>, answers: Answers, supply: Supply, source: Envelope,
                                  row: Envelope)
  {
    forall hash ::
      CarriesMajority(validators, answers, source.primaryKey, hash) ==>
      IsAvailable(validators, answers, supply, source, hash) ==>
      row.canonicalHash == hash
  }

  /** Nothing is made up: a row that is not the source's is what some validator answered when asked for it. */
  ghost predicate IsGiven(validators: seq<Validator>, supply: Supply, source: Envelope, row: Envelope) {
    row == source || exists i :: 0 <= i < |validators| && supply(validators[i].peerId, source.primaryKey) == Some(row)
  }

  lemma {:induction false} SupportersAreValidators(validators: seq<Validator>, answers: Answers, key: string,
                                                   hash: string, p: string)
    requires p in Supporters(VotesOf(validators, answers), key, hash)
    ensures p in PeerIds(validators)
  {
    var before, last := validators[..|validators| - 1], validators[|validators| - 1];
    var was := VotesOf(before, answers);
    if answers(last.peerId).Some? {
      NextVote(was, Vote(last.peerId, answers(last.peerId).value, last.weight), key, hash);
    } else {
      assert was + [] == was;
    }
    assert PeerIds(validators) == PeerIds(before) + [last.peerId];
    if p in Supporters(was, key, hash) { SupportersAreValidators(before, answers, key, hash, p); }
  }

  lemma RowIsGiven(lt: Order, h: Handed, validators: seq<Validator>, answers: Answers, supply: Supply)
    requires Decided(lt, h)
    requires h.votes == VotesOf(validators, answers) && h.asking == Asking(PeerIds(validators), supply)
    ensures IsGiven(validators, supply, h.source, h.row)
  {
    if h.row != h.source {
      var asked := Asked(h.consensus, h.asking);
      var i :| 0 <= i < |asked| && supply(asked[i], h.source.primaryKey) == Some(h.row);
      if |h.consensus.supportingPeerIds| > 0 {
        NoVotesYet(h.votes, h.source.primaryKey, h.consensus.chosenHash);
        SupportersAreValidators(validators, answers, h.source.primaryKey, h.consensus.chosenHash, asked[i]);
      }
      var j :| 0 <= j < |validators| && PeerIds(validators)[j] == asked[i];
      assert supply(validators[j].peerId, h.source.primaryKey) == Some(h.row);
    }
  }

  lemma {:induction false} VotersAreSupporters(validators: seq<Validator>, answers: Answers, v: Validator,
                                               key: string, hash: string)
    requires v in validators && VotedFor(answers, v, key, hash)
    ensures v.peerId in Supporters(VotesOf(validators, answers), key, hash)
  {
    var before, last := validators[..|validators| - 1], validators[|validators| - 1];
    if answers(last.peerId).Some? {
      NextVote(VotesOf(before, answers), Vote(last.peerId, answers(last.peerId).value, last.weight), key, hash);
    } else {
      assert VotesOf(validators, answers) == VotesOf(before, answers) + [] == VotesOf(before, answers);
    }
    if v in before { VotersAreSupporters(before, answers, v, key, hash); }
  }

  lemma WeightedMajorityIsApplied(lt: Order, h: Handed, validators: seq<Validator>, answers: Answers, supply: Supply)
    requires Decided(lt, h)
    requires h.votes == VotesOf(validators, answers) && h.asking == Asking(PeerIds(validators), supply)
    ensures MajorityApplied(validators, answers, supply, h.source, h.row)
  {
    var key := h.source.primaryKey;
    forall hash |
      CarriesMajority(validators, answers, key, hash) && IsAvailable(validators, answers, supply, h.source, hash)
      ensures h.row.canonicalHash == hash
    {
      WeightsReachVotes(validators, answers, key, hash);
      VotedForAnswered(validators, answers, key, hash);
      assert StrictMajority(h.votes, key, hash);
      MajorityWins(lt, h.votes, key, h.consensus, hash);
      MajorityIsHanded(lt, h, validators, answers, supply, hash);
    }
  }

  lemma MajorityIsHanded(lt: Order, h: Handed, validators: seq<Validator>, answers: Answers, supply: Supply,
                         hash: string)
    requires Decided(lt, h) && h.consensus.chosenHash == hash != ""
    requires h.votes == VotesOf(validators, answers) && h.asking == Asking(PeerIds(validators), supply)
    requires IsAvailable(validators, answers, supply, h.source, hash)
    ensures h.row.canonicalHash == hash
  {
    if h.source.canonicalHash != hash {
      var key := h.source.primaryKey;
      var v :| v in validators && VotedFor(answers, v, key, hash) && Holds(supply, v, key, hash);
      VotersAreSupporters(validators, answers, v, key, hash);
      assert h.consensus.supportingPeerIds == Supporters(h.votes, key, hash) by { NoVotesYet(h.votes, key, hash); }
      var i :| 0 <= i < |h.consensus.supportingPeerIds| && h.consensus.supportingPeerIds[i] == v.peerId;
      assert Supplies(h.consensus, h.asking, Asked(h.consensus, h.asking)[i]);
    }
  }

  function Envelopes(rows: seq<(string, Envelope)>): seq<Envelope> {
    seq(|rows|, i requires 0 <= i < |rows| => rows[i].1)
  }

  function PrimaryKeys(rows: seq<Envelope>): (keys: seq<string>)
    ensures |keys| == |rows|
  {
    seq(|rows|, i requires 0 <= i < |rows| => rows[i].primaryKey)
  }

  /** An honest source files every row under its own primary key. */
  ghost predicate HonestView(view: map<string, Envelope>) {
    forall k :: k in view ==> view[k].primaryKey == k
  }

  lemma ServedEnvelopes(order: Order, view: map<string, Envelope>, cursor: string, limit: nat)
    requires StrictTotal(order) && HonestView(view)
    ensures var rows := Serve(order, view, cursor, limit).0;
      PrimaryKeys(Envelopes(rows)) == Keys(rows) && Distinct(Keys(rows))
  {
    PageProperties(order, view.Keys, cursor, limit);
    AscendingDistinct(order, Page(order, view.Keys, cursor, limit));
  }

  // ----- pages -----

  /** One page handed over: its rows as received, and what each was decided to. */
  ghost predicate IsPage(page: seq<Handed>, table: Table, sources: seq<Envelope>, votes: seq<Vote>, asking: Asking) {
    && |page| == |sources|
    && forall i :: 0 <= i < |page| ==>
      page[i] == Handed(table, sources[i], page[i].row, page[i].consensus, votes, asking)
  }

  function RowsOf(handed: seq<Handed>): seq<Envelope> {
    seq(|handed|, i requires 0 <= i < |handed| => handed[i].row)
  }

  lemma KeysOfPage(sources: seq<Envelope>)
    requires Distinct(PrimaryKeys(sources))
    ensures KeysDiffer(sources)
  {
    forall i, j | 0 <= i < j < |sources| ensures sources[i].primaryKey != sources[j].primaryKey {
      assert PrimaryKeys(sources)[i] != PrimaryKeys(sources)[j];
    }
  }

  ghost predicate AllConsensus(lt: Order, votes: seq<Vote>, sources: seq<Envelope>, consensus: seq<RowConsensus>) {
    && |consensus| == |sources|
    && forall i {:trigger IsConsensus(lt, votes, sources[i].primaryKey, consensus[i])} :: 0 <= i < |consensus| ==>
         IsConsensus(lt, votes, sources[i].primaryKey, consensus[i])
  }

  /** What the loop over the consensus keeps. */
  ghost predicate Resolved(lt: Order, page: seq<Handed>, table: Table, sources: seq<Envelope>, votes: seq<Vote>,
                           asking: Asking, before: map<string, QueueEntry>, now: map<string, QueueEntry>)
  {
    IsPage(page, table, sources, votes, asking) && AllDecided(lt, page) && QueueGrows(before, now, page)
  }

  lemma ResolvedOneMore(lt: Order, page: seq<Handed>, table: Table, sources: seq<Envelope>, votes: seq<Vote>,
                        asking: Asking, before: map<string, QueueEntry>, queue: map<string, QueueEntry>, h: Handed)
    requires Resolved(lt, page, table, sources, votes, asking, before, queue) && Decided(lt, h)
    requires h.table == table && h.votes == votes && h.asking == asking
    ensures Resolved(lt, page + [h], table, sources + [h.source], votes, asking, before, QueueAfter(queue, h))
  {
    OneGrows(lt, queue, h);
    QueueGrowsTwice(before, queue, QueueAfter(queue, h), page, [h]);
  }

  class StartupSyncService {
    const collation: Order
    var weakConsensusQueue: map<string, QueueEntry>

    /** Everything ever given to `apply_rows`. */
    ghost var handed: seq<Handed>

    /** Every row was decided as its vote says, and the queue holds exactly the rows that are not strong. */
    ghost predicate Valid()
      reads this
    {
      && StrictTotal(collation)
      && AllDecided(collation, handed)
      && forall t, k :: IsQueued(weakConsensusQueue, t, k) <==> SomeWeak(handed, t, k)
    }

    constructor (collation: Order)
      requires StrictTotal(collation)
      ensures Valid() && handed == [] && weakConsensusQueue == map[] && this.collation == collation
    {
      this.collation := collation;
      weakConsensusQueue := map[];
      handed := [];
    }

    method EnqueueWeakConsensusRow(table: Table, key: string)
      modifies this`weakConsensusQueue
      ensures weakConsensusQueue == Enqueued(old(weakConsensusQueue), table, key)
      ensures forall t, k ::
        IsQueued(weakConsensusQueue, t, k) <==> IsQueued(old(weakConsensusQueue), t, k) || (t == table && k == key)
    {
      weakConsensusQueue := weakConsensusQueue[QueueKey(table, key) := QueueEntry(key, table)];
      forall t, k ensures IsQueued(weakConsensusQueue, t, k) <==>
        IsQueued(old(weakConsensusQueue), t, k) || (t == table && k == key) {
        EnqueuedOnly(old(weakConsensusQueue), table, key, t, k);
      }
    }

    /** The body of the loop over the consensus. */
    method ResolveRow(table: Table, sourceRow: Envelope, r: RowConsensus, asking: Asking) returns (row: Envelope)
      modifies this`weakConsensusQueue
      ensures IsWinner(sourceRow, r, asking, row)
      ensures weakConsensusQueue ==
        if Flagged(sourceRow, r, asking)
          then Enqueued(old(weakConsensusQueue), table, r.primaryKey) else old(weakConsensusQueue)
    {
      if r.chosenHash == "" || r.chosenHash == sourceRow.canonicalHash {
        if r.weakConsensus {
          EnqueueWeakConsensusRow(table, r.primaryKey);
        }
        return sourceRow;
      }
      var resolved := FetchRowFromSupporters(r, asking);
      if resolved.None? {
        EnqueueWeakConsensusRow(table, r.primaryKey);
        return sourceRow;
      }
      if r.weakConsensus {
        EnqueueWeakConsensusRow(table, r.primaryKey);
      }
      return resolved.value;
    }

    /** Exactly one row per source row, in order, each the winner of its vote; exactly the rows that are not
        strong are queued. */
    method ResolveRowsFromConsensus(table: Table, sourceRows: seq<Envelope>, consensus: seq<RowConsensus>,
                                    asking: Asking, ghost votes: seq<Vote>)
      returns (rows: seq<Envelope>, ghost page: seq<Handed>)
      requires Distinct(PrimaryKeys(sourceRows))
      requires AllConsensus(collation, votes, sourceRows, consensus)
      modifies this`weakConsensusQueue
      ensures IsPage(page, table, sourceRows, votes, asking) && rows == RowsOf(page)
      ensures AllDecided(collation, page)
      ensures QueueGrows(old(weakConsensusQueue), weakConsensusQueue, page)
    {
      var sourceMap := SourceMap(sourceRows);
      ghost var before := weakConsensusQueue;
      KeysOfPage(sourceRows);
      rows, page := [], [];
      for i := 0 to |consensus|
        invariant |page| == i && rows == RowsOf(page)
        invariant Resolved(collation, page, table, sourceRows[..i], votes, asking, before, weakConsensusQueue)
      {
        assert IsConsensus(collation, votes, sourceRows[i].primaryKey, consensus[i]);
        SourceIsOwn(sourceRows, i);
        if consensus[i].primaryKey !in sourceMap {
          continue;
        }
        var row, h := ResolveNext(sourceMap[consensus[i].primaryKey], consensus[i], asking, page, table,
            sourceRows[..i], votes, before);
        assert sourceRows[..i + 1] == sourceRows[..i] + [sourceRows[i]];
        rows, page := rows + [row], page + [h];
      }
      assert sourceRows[..|consensus|] == sourceRows;
    }

    /** One more row, beside those of the page that are done. */
    method ResolveNext(sourceRow: Envelope, r: RowConsensus, asking: Asking, ghost page: seq<Handed>, table: Table,
                       ghost sources: seq<Envelope>, ghost votes: seq<Vote>, ghost before: map<string, QueueEntry>)
      returns (row: Envelope, ghost h: Handed)
      requires IsConsensus(collation, votes, sourceRow.primaryKey, r)
      requires Resolved(collation, page, table, sources, votes, asking, before, weakConsensusQueue)
      modifies this`weakConsensusQueue
      ensures h == Handed(table, sourceRow, row, r, votes, asking)
      ensures Resolved(collation, page + [h], table, sources + [sourceRow], votes, asking, before, weakConsensusQueue)
    {
      ghost var queue := weakConsensusQueue;
      row := ResolveRow(table, sourceRow, r, asking);
      h := Handed(table, sourceRow, row, r, votes, asking);
      ResolvedOneMore(collation, page, table, sources, votes, asking, before, queue, h);
    }

    /** One table: page through the source, vote on every page, apply what the vote decides. `fetches` are
        the source's views at the successive page requests; a request beyond them fails and ends the table
        with an error, after the pages before it have been applied. `answers` and `supply` are what the
        validators reply for the n-th page. */
    method SyncTable(order: Order, table: Table, batchSize: int, validators: seq<Validator>,
                     fetches: seq<map<string, Envelope>>, answers: nat -> Answers,
                     supply: nat -> Supply)
      returns (completed: bool, processedCount: nat)
      requires StrictTotal(order) && Valid()
      requires forall i :: 0 <= i < |fetches| ==> HonestView(fetches[i])
      modifies this
      ensures Valid()
      ensures var scan := ScanFrom(order, fetches, "", ClampLimit(batchSize, LARGEST_PAGE));
        && completed == scan.complete
        && processedCount == |scan.rows|
        && Records(old(handed), handed, table, Envelopes(scan.rows), validators, answers, supply, |fetches|)
      ensures forall i :: |old(handed)| <= i < |handed| ==>
        AppliedByWeight(handed[i], validators, answers, supply, |fetches|)
    {
      completed, processedCount := SyncPages(order, table, batchSize, validators, fetches, answers, supply);
      ghost var scan := ScanFrom(order, fetches, "", ClampLimit(batchSize, LARGEST_PAGE));
      RecordsAppliedByWeight(collation, old(handed), handed, table, Envelopes(scan.rows), validators, answers, supply,
          |fetches|);
    }

    /** The loop over the pages. */
    method SyncPages(order: Order, table: Table, batchSize: int, validators: seq<Validator>,
                     fetches: seq<map<string, Envelope>>, answers: nat -> Answers,
                     supply: nat -> Supply)
      returns (completed: bool, processedCount: nat)
      requires StrictTotal(order) && Valid()
      requires forall i :: 0 <= i < |fetches| ==> HonestView(fetches[i])
      modifies this
      ensures Valid()
      ensures var scan := ScanFrom(order, fetches, "", ClampLimit(batchSize, LARGEST_PAGE));
        && completed == scan.complete
        && processedCount == |scan.rows|
        && Records(old(handed), handed, table, Envelopes(scan.rows), validators, answers, supply, |fetches|)
    {
      var limit := ClampLimit(batchSize, LARGEST_PAGE);
      var cursor := "";
      processedCount := 0;
      var n := 0;
      ghost var done: seq<(string, Envelope)> := [];
      while true
        invariant n <= |fetches|
        invariant ContinuesScan(order, fetches, n, cursor, limit, done)
        invariant processedCount == |done|
        invariant Valid() && Records(old(handed), handed, table, Envelopes(done), validators, answers, supply,
            |fetches|)
        decreases |fetches| - n
      {
        if n == |fetches| {
          assert done + [] == done;
          return false, processedCount;
        }
        var (items, nextCursor) := Serve(order, fetches[n], cursor, limit);
        ScanStep(order, fetches, n, cursor, limit, done);
        if |items| == 0 {
          return true, processedCount;
        }
        ServedEnvelopes(order, fetches[n], cursor, limit);
        ghost var before := handed;
        var rowCount, page := SyncPage(table, Envelopes(items), validators, answers(n), supply(n));
        ExtendsRecord(old(handed), before, page, table, Envelopes(done), Envelopes(items), validators, answers, supply,
            |fetches|, n);
        EnvelopesConcat(done, items);
        processedCount := processedCount + rowCount;
        done := done + items;
        cursor := nextCursor;
        n := n + 1;
        if cursor == "" {
          return true, processedCount;
        }
      }
    }

    /** The loop body for one page. Whatever pages of this or other tables were handled before, the queue holds
        exactly the rows that are not strong afterwards. */
    method SyncPage(table: Table, sourceRows: seq<Envelope>, validators: seq<Validator>,
                    answers: Answers, supply: Supply)
      returns (rowCount: nat, ghost page: seq<Handed>)
      requires Valid() && Distinct(PrimaryKeys(sourceRows))
      modifies this
      ensures Valid() && handed == old(handed) + page && rowCount == |sourceRows|
      ensures IsPage(page, table, sourceRows, VotesOf(validators, answers), Asking(PeerIds(validators), supply))
    {
      var votes := CollectVotes(validators, answers);
      var consensus := ChooseHashes(collation, PrimaryKeys(sourceRows), votes);
      ghost var queue := weakConsensusQueue;
      var asking := Asking(PeerIds(validators), supply);
      var rows, decided := ResolveRowsFromConsensus(table, sourceRows, consensus, asking, votes);
      page := decided;
      rowCount := |rows|;
      HandOver(queue, page);
    }

    /** `apply_rows`, as far as this record is concerned. */
    ghost method HandOver(queue: map<string, QueueEntry>, page: seq<Handed>)
      requires StrictTotal(collation) && AllDecided(collation, handed) && AllDecided(collation, page)
      requires forall t, k :: IsQueued(queue, t, k) <==> SomeWeak(handed, t, k)
      requires QueueGrows(queue, weakConsensusQueue, page)
      modifies this`handed
      ensures Valid() && handed == old(handed) + page
    {
      forall t, k ensures SomeWeak(handed + page, t, k) <==> SomeWeak(handed, t, k) || SomeWeak(page, t, k) {
        SomeWeakConcat(handed, page, t, k);
      }
      handed := handed + page;
    }
  }

  /** The row was decided by what the validators replied for some page. */
  ghost predicate OfSomePage(h: Handed, validators: seq<Validator>,
                             answers: nat -> Answers, supply: nat -> Supply, pages: nat)
  {
    exists n: nat :: n < pages && h.votes == VotesOf(validators, answers(n)) &&
      h.asking == Asking(PeerIds(validators), supply(n))
  }

  ghost predicate RecordAt(h: Handed, table: Table, source: Envelope, validators: seq<Validator>,
                           answers: nat -> Answers, supply: nat -> Supply, pages: nat)
  {
    h.table == table && h.source == source && OfSomePage(h, validators, answers, supply, pages)
  }

  /** Since `before`, exactly these source rows have been decided and handed over, in this order. */
  ghost predicate Records(before: seq<Handed>, now: seq<Handed>, table: Table, sources: seq<Envelope>,
                          validators: seq<Validator>, answers: nat -> Answers,
                          supply: nat -> Supply, pages: nat)
  {
    && |now| == |before| + |sources|
    && before <= now
    && forall i :: 0 <= i < |sources| ==>
      RecordAt(now[|before| + i], table, sources[i], validators, answers, supply, pages)
  }

  /** For some page, the row is what a majority of the weight that answered then backs, wherever it can be had;
      and it is the source's or some validator's. */
  ghost predicate AppliedByWeight(h: Handed, validators: seq<Validator>,
                                  answers: nat -> Answers, supply: nat -> Supply, pages: nat)
  {
    exists n: nat :: n < pages && MajorityApplied(validators, answers(n), supply(n), h.source, h.row) &&
      IsGiven(validators, supply(n), h.source, h.row)
  }

  lemma RecordsAppliedByWeight(lt: Order, start: seq<Handed>, now: seq<Handed>, table: Table, sources: seq<Envelope>,
                               validators: seq<Validator>, answers: nat -> Answers, supply: nat -> Supply, pages: nat)
    requires AllDecided(lt, now) && Records(start, now, table, sources, validators, answers, supply, pages)
    ensures forall i :: |start| <= i < |now| ==> AppliedByWeight(now[i], validators, answers, supply, pages)
  {
    forall i | |start| <= i < |now| ensures AppliedByWeight(now[i], validators, answers, supply, pages) {
      var h := now[i];
      assert RecordAt(now[|start| + (i - |start|)], table, sources[i - |start|], validators, answers, supply, pages);
      var n: nat :| n < pages && h.votes == VotesOf(validators, answers(n)) &&
        h.asking == Asking(PeerIds(validators), supply(n));
      WeightedMajorityIsApplied(lt, h, validators, answers(n), supply(n));
      RowIsGiven(lt, h, validators, answers(n), supply(n));
    }
  }

  lemma ExtendsRecord(start: seq<Handed>, before: seq<Handed>, page: seq<Handed>, table: Table,
                      done: seq<Envelope>, items: seq<Envelope>, validators: seq<Validator>,
                      answers: nat -> Answers, supply: nat -> Supply, pages: nat, n: nat)
    requires n < pages && Records(start, before, table, done, validators, answers, supply, pages)
    requires IsPage(page, table, items, VotesOf(validators, answers(n)), Asking(PeerIds(validators), supply(n)))
    ensures Records(start, before + page, table, done + items, validators, answers, supply, pages)
  {
    var now, sources := before + page, done + items;
    assert start <= now;
    forall i | 0 <= i < |sources|
      ensures RecordAt(now[|start| + i], table, sources[i], validators, answers, supply, pages) {
      if i < |done| {
        assert sources[i] == done[i] && now[|start| + i] == before[|start| + i];
      } else {
        var h := page[i - |done|];
        assert sources[i] == items[i - |done|] && now[|start| + i] == h;
        assert OfSomePage(h, validators, answers, supply, pages);
      }
    }
  }

  lemma EnvelopesConcat(a: seq<(string, Envelope)>, b: seq<(string, Envelope)>)
    ensures Envelopes(a + b) == Envelopes(a) + Envelopes(b)
  {}

  /** The scan is what was fetched so far followed by what the remaining requests bring. */
  ghost predicate ContinuesScan(order: Order, views: seq<map<string, Envelope>>, n: nat, cursor: string, limit: nat,
                                done: seq<(string, Envelope)>)
    requires StrictTotal(order) && n <= |views|
  {
    var rest := ScanFrom(order, views[n..], cursor, limit);
    ScanFrom(order, views, "", limit) == Scan(done + rest.rows, n + rest.requests, rest.complete)
  }

  lemma ScanStep(order: Order, views: seq<map<string, Envelope>>, n: nat, cursor: string, limit: nat,
                 done: seq<(string, Envelope)>)
    requires StrictTotal(order) && limit >= 1 && n < |views| && ContinuesScan(order, views, n, cursor, limit, done)
    ensures var (rows, next) := Serve(order, views[n], cursor, limit);
      && (next == "" ==> ScanFrom(order, views, "", limit) == Scan(done + rows, n + 1, true))
      && (rows == [] ==> ScanFrom(order, views, "", limit) == Scan(done, n + 1, true))
      && (next != "" ==> ContinuesScan(order, views, n + 1, next, limit, done + rows))
  {
    var (rows, next) := Serve(order, views[n], cursor, limit);
    assert views[n..][0] == views[n] && views[n..][1..] == views[n + 1..];
    if next == "" {
      assert rows == [] ==> done + rows == done;
    } else {
      var rest := ScanFrom(order, views[n + 1..], next, limit);
      assert done + (rows + rest.rows) == (done + rows) + rest.rows;
    }
  }
}
