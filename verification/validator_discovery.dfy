/** Which peers vote on synced rows, and with what weight. */
module ValidatorDiscovery {
  import opened Ordering

  const DEFAULT_MEAN_SCORE: real := 50.0

  /** `Math.round`: halves go up. */
  function Round(x: real): int { (x + 0.5).Floor }

  function MeanScore(aggregates: map<string, real>, peer: string): real {
    if peer in aggregates then aggregates[peer] else DEFAULT_MEAN_SCORE
  }

  /** The nearest whole number from 1 to 100. */
  predicate IsRounded(weight: nat, meanScore: real) {
    && 1 <= weight <= 100
    && (1.0 <= meanScore <= 100.0 ==> weight as real - 0.5 <= meanScore < weight as real + 0.5)
    && (meanScore < 1.0 ==> weight == 1)
    && (meanScore > 100.0 ==> weight == 100)
  }

  /** The peer weighs what its aggregate says, or what 50 says if it has none. */
  predicate Weighs(aggregates: map<string, real>, peer: string, weight: nat) {
    && (peer in aggregates ==> IsRounded(weight, aggregates[peer]))
    && (peer !in aggregates ==> weight == 50)
  }

  function Weight(meanScore: real): (weight: nat)
    ensures 1 <= weight <= 100
    ensures IsRounded(weight, meanScore)
  {
    Max(1, Min(100, Round(meanScore)))
  }

  function WeightOf(aggregates: map<string, real>): string -> real {
    (peer: string) => Weight(MeanScore(aggregates, peer)) as real
  }

  /** Heaviest first, ties by peer id. */
  function ValidatorOrder(aggregates: map<string, real>, collation: Order): Order {
    ByDescending(WeightOf(aggregates), collation)
  }

  datatype Validator = Validator(meanScore: real, peerId: string, weight: nat)

  function ToValidator(aggregates: map<string, real>, peer: string): Validator {
    var mean := MeanScore(aggregates, peer);
    Validator(mean, peer, Weight(mean))
  }

  function PeerIds(validators: seq<Validator>): seq<string> {
    seq(|validators|, i requires 0 <= i < |validators| => validators[i].peerId)
  }

  /** `nodeRows` are the known servers among the connected peers, in the order the database returned them.
      The validators are the heaviest of them, at most `targetCount` (but at least one place). */
  function DiscoverValidators(connected: set<string>, local: string, nodeRows: seq<string>,
                              aggregates: map<string, real>, collation: Order, targetCount: int)
    : (validators: seq<Validator>)
    requires StrictTotal(collation)
    requires Distinct(nodeRows) && Elems(nodeRows) <= connected - {local}
    ensures forall i :: 0 <= i < |validators| ==>
      && Weighs(aggregates, validators[i].peerId, validators[i].weight)
      && validators[i] == ToValidator(aggregates, validators[i].peerId)
    ensures IsFirst(ValidatorOrder(aggregates, collation), Elems(nodeRows), Max(1, targetCount), PeerIds(validators))
  {
    var order := ValidatorOrder(aggregates, collation);
    ByDescendingIsStrictTotal(WeightOf(aggregates), collation);
    SortProperties(order, nodeRows);
    var sorted := Sort(order, nodeRows);
    PrefixIsFirst(order, sorted, Max(1, targetCount));
    var chosen := sorted[..Min(Max(1, targetCount), |sorted|)];
    var validators := seq(|chosen|, i requires 0 <= i < |chosen| => ToValidator(aggregates, chosen[i]));
    assert PeerIds(validators) == chosen;
    validators
  }

  /** As many known servers as there are places, each once and the heaviest first; one that is left out weighs
      less than every chosen one, or the same and has a later id. The choice depends on the set of rows only. */
  lemma HeaviestChosen(nodeRows: seq<string>, other: seq<string>, connected: set<string>, local: string,
                       aggregates: map<string, real>, collation: Order, targetCount: int, rest: string, weight: nat)
    requires StrictTotal(collation)
    requires Distinct(nodeRows) && Elems(nodeRows) <= connected - {local}
    requires Distinct(other) && Elems(other) == Elems(nodeRows)
    requires Weighs(aggregates, rest, weight)
    ensures var v := DiscoverValidators(connected, local, nodeRows, aggregates, collation, targetCount);
      && v == DiscoverValidators(connected, local, other, aggregates, collation, targetCount)
      && |v| == Min(Max(1, targetCount), |nodeRows|)
      && (forall i :: 0 <= i < |v| ==> v[i].peerId in nodeRows)
      && (forall i, j :: 0 <= i < j < |v| ==> Precedes(collation, v[i].weight, v[i].peerId, v[j].weight, v[j].peerId))
      && (rest in nodeRows && rest !in PeerIds(v) ==>
           forall i :: 0 <= i < |v| ==> Precedes(collation, v[i].weight, v[i].peerId, weight, rest))
  {
    var order := ValidatorOrder(aggregates, collation);
    ByDescendingIsStrictTotal(WeightOf(aggregates), collation);
    var v := DiscoverValidators(connected, local, nodeRows, aggregates, collation, targetCount);
    var w := DiscoverValidators(connected, local, other, aggregates, collation, targetCount);
    FirstUnique(order, Elems(nodeRows), Max(1, targetCount), PeerIds(v), PeerIds(w));
    SameIdsSameValidators(aggregates, v, w);
    FirstLength(order, Elems(nodeRows), Max(1, targetCount), PeerIds(v));
    DistinctSize(nodeRows);
    forall i | 0 <= i < |v| ensures v[i].peerId in nodeRows {
      assert PeerIds(v)[i] in Elems(PeerIds(v));
    }
    forall i, j | 0 <= i < j < |v|
      ensures Precedes(collation, v[i].weight, v[i].peerId, v[j].weight, v[j].peerId)
    {
      assert order(PeerIds(v)[i], PeerIds(v)[j]);
      OrderPrecedes(aggregates, collation, v[i].peerId, v[j].peerId, v[i].weight, v[j].weight);
    }
    if rest in nodeRows && rest !in PeerIds(v) {
      forall i | 0 <= i < |v| ensures Precedes(collation, v[i].weight, v[i].peerId, weight, rest) {
        assert PeerIds(v)[i] in Elems(PeerIds(v));
        PickedBeforeRest(order, Elems(nodeRows), Max(1, targetCount), PeerIds(v), v[i].peerId, rest);
        OrderPrecedes(aggregates, collation, v[i].peerId, rest, v[i].weight, weight);
      }
    }
  }

  predicate Precedes(collation: Order, weight: nat, peer: string, otherWeight: nat, other: string) {
    weight > otherWeight || (weight == otherWeight && collation(peer, other))
  }

  lemma OrderPrecedes(aggregates: map<string, real>, collation: Order, a: string, b: string, m: nat, n: nat)
    requires Weighs(aggregates, a, m) && Weighs(aggregates, b, n) && ValidatorOrder(aggregates, collation)(a, b)
    ensures Precedes(collation, m, a, n, b)
  {
    WeighsIsWeight(aggregates, a, m);
    WeighsIsWeight(aggregates, b, n);
    assert WeightOf(aggregates)(a) == m as real && WeightOf(aggregates)(b) == n as real;
  }

  lemma RoundedIsUnique(m: nat, n: nat, meanScore: real)
    requires IsRounded(m, meanScore) && IsRounded(n, meanScore)
    ensures m == n
  {
    if 1.0 <= meanScore <= 100.0 { assert (m as real - n as real) < 1.0 && (n as real - m as real) < 1.0; }
  }

  lemma WeighsIsWeight(aggregates: map<string, real>, peer: string, weight: nat)
    requires Weighs(aggregates, peer, weight)
    ensures weight == Weight(MeanScore(aggregates, peer))
  {
    RoundedIsUnique(weight, Weight(MeanScore(aggregates, peer)), MeanScore(aggregates, peer));
  }

  lemma SameIdsSameValidators(aggregates: map<string, real>, v: seq<Validator>, w: seq<Validator>)
    requires PeerIds(v) == PeerIds(w)
    requires forall i :: 0 <= i < |v| ==> v[i] == ToValidator(aggregates, v[i].peerId)
    requires forall i :: 0 <= i < |w| ==> w[i] == ToValidator(aggregates, w[i].peerId)
    ensures v == w
  {
    assert |v| == |PeerIds(v)| == |PeerIds(w)| == |w|;
    forall i | 0 <= i < |v| ensures v[i] == w[i] { assert PeerIds(v)[i] == PeerIds(w)[i]; }
  }
}
