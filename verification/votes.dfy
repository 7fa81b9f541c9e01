/** The weighted vote on the hash of one row. The empty hash stands for "no vote": a missing entry, null
    and '' are skipped alike. */
module Votes {
  import opened Ordering
  import opened Totals

  datatype Vote = Vote(peerId: string, votes: map<string, string>, weight: nat)

  datatype RowConsensus =
    RowConsensus(chosenHash: string, primaryKey: string, supportingPeerIds: seq<string>, weakConsensus: bool)

  function HashOf(v: Vote, key: string): string { if key in v.votes then v.votes[key] else "" }

  /** The hashes somebody voted for. */
  function Hashes(votes: seq<Vote>, key: string): set<string> {
    (set v | v in votes :: HashOf(v, key)) - {""}
  }

  function WeightIfFor(key: string, hash: string): Vote -> nat {
    (v: Vote) => if HashOf(v, key) == hash then v.weight else 0
  }

  function WeightIfAny(key: string): Vote -> nat {
    (v: Vote) => if HashOf(v, key) != "" then v.weight else 0
  }

  function WeightOf(votes: seq<Vote>, key: string, hash: string): nat { Total(votes, WeightIfFor(key, hash)) }

  function RespondingWeight(votes: seq<Vote>, key: string): nat { Total(votes, WeightIfAny(key)) }

  /** The voters for a hash, in voting order. */
  function Supporters(votes: seq<Vote>, key: string, hash: string): seq<string> {
    if votes == [] then []
    else
      var last := votes[|votes| - 1];
      Supporters(votes[..|votes| - 1], key, hash) + (if HashOf(last, key) == hash then [last.peerId] else [])
  }

  /** Heavier hash first; among equals the one `localeCompare` puts first. */
  ghost predicate Beats(lt: Order, votes: seq<Vote>, key: string, winner: string, other: string) {
    || WeightOf(votes, key, winner) > WeightOf(votes, key, other)
    || (WeightOf(votes, key, winner) == WeightOf(votes, key, other) && lt(winner, other))
  }

  ghost predicate StrictMajority(votes: seq<Vote>, key: string, hash: string) {
    && hash != ""
    && RespondingWeight(votes, key) > 0
    && 2 * WeightOf(votes, key, hash) > RespondingWeight(votes, key)
  }

  /** What the vote promises about one row. */
  ghost predicate IsConsensus(lt: Order, votes: seq<Vote>, key: string, r: RowConsensus) {
    && r.primaryKey == key
    && (Hashes(votes, key) == {} ==> r.chosenHash == "" && r.supportingPeerIds == [] && r.weakConsensus)
    && (Hashes(votes, key) != {} ==>
         && r.chosenHash in Hashes(votes, key)
         && (forall h :: h in Hashes(votes, key) && h != r.chosenHash ==> Beats(lt, votes, key, r.chosenHash, h))
         && r.supportingPeerIds == Supporters(votes, key, r.chosenHash)
         && (r.weakConsensus <==> !StrictMajority(votes, key, r.chosenHash) || |votes| <= 1))
  }

  /** What the loop has recorded describes the votes seen so far: `entries` lists the keys of
      `hashWeights` in insertion order. */
  ghost predicate Tallied(votes: seq<Vote>, key: string, hashWeights: map<string, nat>, entries: seq<string>,
                          respondingWeight: nat)
  {
    && KeysRight(votes, key, hashWeights.Keys, entries)
    && respondingWeight == RespondingWeight(votes, key)
    && WeightsRight(votes, key, hashWeights)
  }

  ghost predicate KeysRight(votes: seq<Vote>, key: string, hashes: set<string>, entries: seq<string>) {
    hashes == Hashes(votes, key) && Elems(entries) == hashes && Distinct(entries)
  }

  ghost predicate WeightsRight(votes: seq<Vote>, key: string, hashWeights: map<string, nat>) {
    forall h :: h in hashWeights ==> hashWeights[h] == WeightOf(votes, key, h)
  }

  ghost predicate SupportersRight(votes: seq<Vote>, key: string, supporters: map<string, seq<string>>) {
    && supporters.Keys == Hashes(votes, key)
    && forall h :: h in supporters ==> supporters[h] == Supporters(votes, key, h)
  }

  lemma KeysStep(before: seq<Vote>, v: Vote, key: string, hashes: set<string>, entries: seq<string>)
    requires KeysRight(before, key, hashes, entries) && HashOf(v, key) != ""
    ensures KeysRight(before + [v], key, hashes + {HashOf(v, key)}, AddOnce(entries, HashOf(v, key)))
  {
    NextVote(before, v, key, "");
  }

  lemma WeightsStep(before: seq<Vote>, v: Vote, key: string, hashWeights: map<string, nat>, weight: nat)
    requires WeightsRight(before, key, hashWeights) && weight == WeightOf(before, key, HashOf(v, key))
    ensures WeightsRight(before + [v], key, hashWeights[HashOf(v, key) := weight + v.weight])
  {
    NextVote(before, v, key, HashOf(v, key));
    forall h | h in hashWeights && h != HashOf(v, key) ensures hashWeights[h] == WeightOf(before + [v], key, h) {
      NextVote(before, v, key, h);
    }
  }

  lemma RespondingStep(before: seq<Vote>, v: Vote, key: string)
    requires HashOf(v, key) != ""
    ensures RespondingWeight(before + [v], key) == RespondingWeight(before, key) + v.weight
  {
    NextVote(before, v, key, "");
  }

  /** One more vote, as the loop body records it. */
  lemma TallyStep(before: seq<Vote>, v: Vote, key: string, hashWeights: map<string, nat>, entries: seq<string>,
                  respondingWeight: nat, weight: nat)
    requires Tallied(before, key, hashWeights, entries, respondingWeight) && HashOf(v, key) != ""
    requires weight == if HashOf(v, key) in hashWeights then hashWeights[HashOf(v, key)] else 0
    ensures Tallied(before + [v], key, hashWeights[HashOf(v, key) := weight + v.weight],
                    AddOnce(entries, HashOf(v, key)), respondingWeight + v.weight)
  {
    var hash := HashOf(v, key);
    NoVotesYet(before, key, hash);
    KeysStep(before, v, key, hashWeights.Keys, entries);
    assert hashWeights[hash := weight + v.weight].Keys == hashWeights.Keys + {hash};
    RespondingStep(before, v, key);
    WeightsStep(before, v, key, hashWeights, weight);
  }

  lemma OtherSupporters(before: seq<Vote>, v: Vote, key: string, supporters: map<string, seq<string>>)
    requires SupportersRight(before, key, supporters)
    ensures forall h :: h in supporters && h != HashOf(v, key) ==> supporters[h] == Supporters(before + [v], key, h)
  {
    forall h | h in supporters && h != HashOf(v, key) ensures supporters[h] == Supporters(before + [v], key, h) {
      NextVote(before, v, key, h);
    }
  }

  lemma NewSupporters(before: seq<Vote>, v: Vote, key: string, supporters: map<string, seq<string>>,
                      voters: seq<string>)
    requires SupportersRight(before, key, supporters) && HashOf(v, key) != ""
    requires voters == if HashOf(v, key) in supporters then supporters[HashOf(v, key)] else []
    ensures voters + [v.peerId] == Supporters(before + [v], key, HashOf(v, key))
    ensures Hashes(before + [v], key) == Hashes(before, key) + {HashOf(v, key)}
  {
    NoVotesYet(before, key, HashOf(v, key));
    NextVote(before, v, key, HashOf(v, key));
  }

  lemma SupportersStep(before: seq<Vote>, v: Vote, key: string, supporters: map<string, seq<string>>,
                       voters: seq<string>)
    requires SupportersRight(before, key, supporters) && HashOf(v, key) != ""
    requires voters == if HashOf(v, key) in supporters then supporters[HashOf(v, key)] else []
    ensures SupportersRight(before + [v], key, supporters[HashOf(v, key) := voters + [v.peerId]])
  {
    OtherSupporters(before, v, key, supporters);
    NewSupporters(before, v, key, supporters, voters);
  }

  lemma SkipStep(before: seq<Vote>, v: Vote, key: string, hashWeights: map<string, nat>, entries: seq<string>,
                 respondingWeight: nat, supporters: map<string, seq<string>>)
    requires Tallied(before, key, hashWeights, entries, respondingWeight) && SupportersRight(before, key, supporters)
    requires HashOf(v, key) == ""
    ensures Tallied(before + [v], key, hashWeights, entries, respondingWeight)
    ensures SupportersRight(before + [v], key, supporters)
  {
    NextVote(before, v, key, "");
    forall h | h in hashWeights
      ensures WeightOf(before + [v], key, h) == WeightOf(before, key, h)
      ensures Supporters(before + [v], key, h) == Supporters(before, key, h)
    {
      NextVote(before, v, key, h);
    }
  }

  method ResolveRowConsensus(lt: Order, key: string, votes: seq<Vote>) returns (r: RowConsensus)
    requires StrictTotal(lt)
    ensures IsConsensus(lt, votes, key, r)
  {
    var hashWeights: map<string, nat> := map[];
    var supporters: map<string, seq<string>> := map[];
    var entries: seq<string> := [];
    var respondingWeight: nat := 0;
    for i := 0 to |votes|
      invariant Tallied(votes[..i], key, hashWeights, entries, respondingWeight)
      invariant SupportersRight(votes[..i], key, supporters)
    {
      var vote := votes[i];
      var hash := HashOf(vote, key);
      assert votes[..i + 1] == votes[..i] + [vote];
      if hash == "" {
        SkipStep(votes[..i], vote, key, hashWeights, entries, respondingWeight, supporters);
        continue;
      }
      var currentWeight := if hash in hashWeights then hashWeights[hash] else 0;
      TallyStep(votes[..i], vote, key, hashWeights, entries, respondingWeight, currentWeight);
      respondingWeight := respondingWeight + vote.weight;
      hashWeights := hashWeights[hash := currentWeight + vote.weight];
      entries := AddOnce(entries, hash);
      var current := if hash in supporters then supporters[hash] else [];
      SupportersStep(votes[..i], vote, key, supporters, current);
      supporters := supporters[hash := current + [vote.peerId]];
    }
    assert votes[..|votes|] == votes;
    if |hashWeights| == 0 {
      r := RowConsensus("", key, [], true);
    } else {
      var winner := HeaviestEntry(lt, hashWeights, entries);
      var strictMajority := IsStrictMajority(hashWeights[winner], respondingWeight);
      r := RowConsensus(winner, key, supporters[winner], !strictMajority || |votes| <= 1);
      WinnerIsConsensus(lt, votes, key, hashWeights, entries, respondingWeight, supporters);
    }
  }

  function IsStrictMajority(weight: nat, respondingWeight: nat): (majority: bool)
    ensures majority <==> respondingWeight > 0 && 2 * weight > respondingWeight
  {
    respondingWeight > 0 && weight as real > respondingWeight as real / 2.0
  }

  lemma WinnerIsConsensus(lt: Order, votes: seq<Vote>, key: string, hashWeights: map<string, nat>,
                          entries: seq<string>, respondingWeight: nat, supporters: map<string, seq<string>>)
    requires StrictTotal(lt) && entries != []
    requires Tallied(votes, key, hashWeights, entries, respondingWeight) && SupportersRight(votes, key, supporters)
    ensures var winner := HeaviestEntry(lt, hashWeights, entries);
      IsConsensus(lt, votes, key,
                  RowConsensus(winner, key, supporters[winner],
                               !IsStrictMajority(hashWeights[winner], respondingWeight) || |votes| <= 1))
  {
    assert entries[0] in Elems(entries);
  }

  /** The first entry after sorting by weight, then by hash. */
  function HeaviestEntry(lt: Order, hashWeights: map<string, nat>, entries: seq<string>): (winner: string)
    requires StrictTotal(lt) && entries != [] && Distinct(entries) && Elems(entries) == hashWeights.Keys
    ensures winner in hashWeights
    ensures forall h :: h in hashWeights && h != winner ==>
      || hashWeights[winner] > hashWeights[h]
      || (hashWeights[winner] == hashWeights[h] && lt(winner, h))
  {
    var weigh := (h: string) => if h in hashWeights then hashWeights[h] as real else 0.0;
    var ranking := ByDescending(weigh, lt);
    ByDescendingIsStrictTotal(weigh, lt);
    SortProperties(ranking, entries);
    var sorted := Sort(ranking, entries);
    assert sorted[0] in Elems(sorted);
    assert forall h :: h in Elems(sorted) && h != sorted[0] ==> ranking(sorted[0], h);
    sorted[0]
  }

  lemma NextVote(before: seq<Vote>, v: Vote, key: string, h: string)
    ensures var now := before + [v]; var hash := HashOf(v, key);
      && Hashes(now, key) == Hashes(before, key) + ({hash} - {""})
      && RespondingWeight(now, key) == RespondingWeight(before, key) + (if hash != "" then v.weight else 0)
      && WeightOf(now, key, h) == WeightOf(before, key, h) + (if hash == h then v.weight else 0)
      && Supporters(now, key, h) == Supporters(before, key, h) + (if hash == h then [v.peerId] else [])
  {
    var now := before + [v];
    assert now[..|now| - 1] == before;
  }

  lemma {:induction false} NoVotesYet(votes: seq<Vote>, key: string, hash: string)
    requires hash != ""
    ensures hash !in Hashes(votes, key) ==> WeightOf(votes, key, hash) == 0 && Supporters(votes, key, hash) == []
  {
    if votes != [] {
      var before, last := votes[..|votes| - 1], votes[|votes| - 1];
      assert votes == before + [last];
      NextVote(before, last, key, hash);
      NoVotesYet(before, key, hash);
    }
  }

  method ChooseHashes(lt: Order, keys: seq<string>, votes: seq<Vote>) returns (consensus: seq<RowConsensus>)
    requires StrictTotal(lt)
    ensures |consensus| == |keys|
    ensures forall i :: 0 <= i < |keys| ==> IsConsensus(lt, votes, keys[i], consensus[i])
  {
    consensus := [];
    for i := 0 to |keys|
      invariant |consensus| == i
      invariant forall j :: 0 <= j < i ==> IsConsensus(lt, votes, keys[j], consensus[j])
    {
      var r := ResolveRowConsensus(lt, keys[i], votes);
      consensus := consensus + [r];
    }
  }

  // ----- properties of the vote -----

  /** The weights of all hashes add up to the weight of everybody who answered. */
  lemma {:induction false} WeightsSumToResponding(votes: seq<Vote>, key: string, hashes: set<string>)
    requires Hashes(votes, key) <= hashes && "" !in hashes
    ensures SumOver(hashes, h => WeightOf(votes, key, h)) == RespondingWeight(votes, key)
  {
    if votes == [] {
      SumOverAtMost(hashes, h => WeightOf(votes, key, h), 0);
    } else {
      var before := votes[..|votes| - 1];
      var last := votes[|votes| - 1];
      var hash := HashOf(last, key);
      assert votes == before + [last];
      forall h ensures WeightOf(votes, key, h) == WeightOf(before, key, h) + if hash == h then last.weight else 0 {
        NextVote(before, last, key, h);
      }
      NextVote(before, last, key, hash);
      WeightsSumToResponding(before, key, hashes);
      if hash == "" {
        SumOverSame(hashes, h => WeightOf(votes, key, h), h => WeightOf(before, key, h));
      } else {
        SumOverSplit(hashes, h => WeightOf(votes, key, h), hash);
        SumOverSplit(hashes, h => WeightOf(before, key, h), hash);
        SumOverSame(hashes - {hash}, h => WeightOf(votes, key, h), h => WeightOf(before, key, h));
      }
    }
  }

  lemma TwoHashesAtMostAll(votes: seq<Vote>, key: string, a: string, b: string)
    requires a != b && a != "" && b != ""
    ensures WeightOf(votes, key, a) + WeightOf(votes, key, b) <= RespondingWeight(votes, key)
  {
    var hashes := Hashes(votes, key) + {a, b};
    WeightsSumToResponding(votes, key, hashes);
    SumOverSplit(hashes, h => WeightOf(votes, key, h), a);
    SumOverSplit(hashes - {a}, h => WeightOf(votes, key, h), b);
  }

  /** A hash with more than half of the answering weight wins, whatever the others say. */
  lemma MajorityWins(lt: Order, votes: seq<Vote>, key: string, r: RowConsensus, hash: string)
    requires IsConsensus(lt, votes, key, r) && StrictMajority(votes, key, hash)
    ensures r.chosenHash == hash
    ensures r.weakConsensus <==> |votes| <= 1
  {
    NoVotesYet(votes, key, hash);
    if r.chosenHash != hash {
      TwoHashesAtMostAll(votes, key, r.chosenHash, hash);
    }
  }

  /** A row is not flagged exactly when two or more batches arrived and the winner has a strict majority. */
  lemma NotWeakMeansMajority(lt: Order, votes: seq<Vote>, key: string, r: RowConsensus)
    requires IsConsensus(lt, votes, key, r)
    ensures !r.weakConsensus <==> |votes| >= 2 && exists h :: StrictMajority(votes, key, h)
    ensures !r.weakConsensus ==> StrictMajority(votes, key, r.chosenHash)
  {
    if |votes| >= 2 && exists h :: StrictMajority(votes, key, h) {
      var h :| StrictMajority(votes, key, h);
      MajorityWins(lt, votes, key, r, h);
    }
  }

  /** It is batches that are counted, not voices on the row: one voter and a batch without an entry for the
      row are enough for it not to be flagged. */
  lemma OneVoiceSuffices(lt: Order, v: Vote, silent: Vote, key: string, r: RowConsensus)
    requires HashOf(v, key) != "" && v.weight > 0 && HashOf(silent, key) == ""
    requires IsConsensus(lt, [v, silent], key, r)
    ensures !r.weakConsensus && r.chosenHash == HashOf(v, key) && r.supportingPeerIds == [v.peerId]
  {
    NextVote([], v, key, HashOf(v, key));
    NextVote([v], silent, key, HashOf(v, key));
    assert [] + [v] == [v] && [v] + [silent] == [v, silent];
    assert StrictMajority([v, silent], key, HashOf(v, key));
    MajorityWins(lt, [v, silent], key, r, HashOf(v, key));
  }

  /** The order in which the votes arrived does not matter. */
  lemma ConsensusIgnoresOrder(lt: Order, votes: seq<Vote>, permuted: seq<Vote>, key: string, r: RowConsensus,
                              s: RowConsensus)
    requires multiset(votes) == multiset(permuted)
    requires StrictTotal(lt) && IsConsensus(lt, votes, key, r) && IsConsensus(lt, permuted, key, s)
    ensures r.chosenHash == s.chosenHash
    ensures r.weakConsensus == s.weakConsensus
    ensures multiset(r.supportingPeerIds) == multiset(s.supportingPeerIds)
  {
    forall v ensures v in votes <==> v in permuted {
      assert v in multiset(votes) <==> v in multiset(permuted);
    }
    assert Hashes(votes, key) == Hashes(permuted, key);
    forall h ensures WeightOf(votes, key, h) == WeightOf(permuted, key, h) {
      TotalPermuted(votes, permuted, WeightIfFor(key, h));
    }
    TotalPermuted(votes, permuted, WeightIfAny(key));
    assert |multiset(votes)| == |votes| && |multiset(permuted)| == |permuted|;
    assert r.chosenHash == s.chosenHash;
    SupportersPermuted(votes, permuted, key, r.chosenHash);
  }

  function OneIfSupporter(key: string, hash: string, p: string): Vote -> nat {
    (v: Vote) => if HashOf(v, key) == hash && v.peerId == p then 1 else 0
  }

  lemma {:induction false} SupporterCount(votes: seq<Vote>, key: string, hash: string, p: string)
    ensures multiset(Supporters(votes, key, hash))[p]
      == Total(votes, OneIfSupporter(key, hash, p))
  {
    if votes != [] {
      SupporterCount(votes[..|votes| - 1], key, hash, p);
    }
  }

  lemma SupportersPermuted(votes: seq<Vote>, permuted: seq<Vote>, key: string, hash: string)
    requires multiset(votes) == multiset(permuted)
    ensures multiset(Supporters(votes, key, hash)) == multiset(Supporters(permuted, key, hash))
  {
    forall p ensures multiset(Supporters(votes, key, hash))[p] == multiset(Supporters(permuted, key, hash))[p] {
      SupporterCount(votes, key, hash, p);
      SupporterCount(permuted, key, hash, p);
      TotalPermuted(votes, permuted, OneIfSupporter(key, hash, p));
    }
  }
}
