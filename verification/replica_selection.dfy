/** Which peers hold a user's queue: the k valid peers nearest the user's key. */
module ReplicaSelection {
  import opened Ordering
  import opened XorDistance

  const UNKNOWN_PEER: string := "unknown_peer"

  function DistanceText(hash: string -> Bytes, key: string): string -> string {
    (peer: string) => Hex(XorBytes(hash(key), hash(peer)))
  }

  /** Nearest first by hexadecimal distance, ties by peer id. */
  function DistanceOrder(hash: string -> Bytes, key: string, tie: Order): Order {
    ByText(DistanceText(hash, key), tie)
  }

  lemma DistanceOrderIsStrictTotal(hash: string -> Bytes, key: string, tie: Order)
    requires StrictTotal(tie)
    ensures StrictTotal(DistanceOrder(hash, key, tie))
  {
    ByTextIsStrictTotal(DistanceText(hash, key), tie);
  }

  function SortPeerIdsByKeyDistance(hash: string -> Bytes, peerIds: seq<string>, key: string, tie: Order): seq<string> {
    Sort(DistanceOrder(hash, key, tie), peerIds)
  }

  function Candidates(local: string, listed: set<string>): set<string> {
    set p | p in listed && p != "" && p != local
  }

  /** The peers that may hold a replica, as seen from `local`. */
  function Eligible(local: string, listed: set<string>): set<string> {
    Candidates(local, listed) - {UNKNOWN_PEER}
  }

  lemma CandidatesOfAll(local: string, a: set<string>, b: set<string>, c: set<string>)
    ensures Candidates(local, a + b + c) == Candidates(local, a) + Candidates(local, b) + Candidates(local, c)
  {}

  lemma AppendAscending<T(!new)>(lt: (T, T) -> bool, closest: seq<T>, i: nat, selected: seq<T>)
    requires i < |closest| && Ascending(lt, closest) && Ascending(lt, selected)
    requires Elems(selected) <= Elems(closest[..i])
    ensures Ascending(lt, selected + [closest[i]])
    ensures Elems(selected + [closest[i]]) == Elems(selected) + {closest[i]}
  {
    forall x, y | x in Elems(selected) && y in Elems([closest[i]]) ensures lt(x, y) {
      var j := IndexOf(closest, i, x);
    }
    ConcatAscending(lt, selected, [closest[i]]);
    ElemsConcat(selected, [closest[i]]);
  }

  /** `connected`, `nodes` and `dht` are the answers of the three lookups; they may overlap and repeat. */
  method GetClosestPeerIdsForKey(local: string, hash: string -> Bytes, key: string, tie: Order,
                                 connected: seq<string>, nodes: seq<string>, dht: seq<string>)
    returns (closest: seq<string>)
    requires StrictTotal(tie)
    ensures Ascending(DistanceOrder(hash, key, tie), closest)
    ensures Elems(closest) == Candidates(local, Elems(connected) + Elems(nodes) + Elems(dht))
  {
    var found: seq<string> := [];
    found := AddCandidates(local, found, connected);
    found := AddCandidates(local, found, nodes);
    found := AddCandidates(local, found, dht);
    DistanceOrderIsStrictTotal(hash, key, tie);
    CandidatesOfAll(local, Elems(connected), Elems(nodes), Elems(dht));
    closest := SortPeerIdsByKeyDistance(hash, found, key, tie);
    SortProperties(DistanceOrder(hash, key, tie), found);
  }

  method AddCandidates(local: string, found: seq<string>, listed: seq<string>) returns (all: seq<string>)
    requires Distinct(found)
    ensures Distinct(all)
    ensures Elems(all) == Elems(found) + Candidates(local, Elems(listed))
  {
    all := found;
    for i := 0 to |listed|
      invariant Distinct(all)
      invariant Elems(all) == Elems(found) + Candidates(local, Elems(listed[..i]))
    {
      PrefixStep(listed, i);
      if listed[i] != "" && listed[i] != local {
        all := AddOnce(all, listed[i]);
      }
    }
    assert listed[..|listed|] == listed;
  }

  method SelectReplicaPeerIdsForUser(local: string, hash: string -> Bytes, publicKey: string, tie: Order, count: int,
                                     connected: seq<string>, nodes: seq<string>, dht: seq<string>)
    returns (selected: seq<string>)
    requires StrictTotal(tie)
    ensures IsFirst(DistanceOrder(hash, publicKey, tie),
                    Eligible(local, Elems(connected) + Elems(nodes) + Elems(dht)), Max(0, count), selected)
  {
    var normalizedCount: nat := Max(0, count);
    selected := [];
    if normalizedCount == 0 {
      return;
    }
    var closest := GetClosestPeerIdsForKey(local, hash, publicKey, tie, connected, nodes, dht);
    ghost var order := DistanceOrder(hash, publicKey, tie);
    ghost var eligible := Eligible(local, Elems(connected) + Elems(nodes) + Elems(dht));
    DistanceOrderIsStrictTotal(hash, publicKey, tie);
    for i := 0 to |closest|
      invariant Filtered(order, closest, i, eligible, selected)
      invariant |selected| < normalizedCount
    {
      PrefixStep(closest, i);
      if closest[i] == local || closest[i] == UNKNOWN_PEER || closest[i] in selected {
        continue;
      }
      AppendAscending(order, closest, i, selected);
      selected := selected + [closest[i]];
      if |selected| >= normalizedCount {
        ScanIsFirst(order, closest, i + 1, eligible, selected, normalizedCount);
        return;
      }
    }
    ScanIsFirst(order, closest, |closest|, eligible, selected, normalizedCount);
  }

  /** `selected` holds, in order, what of `wanted` lies among the first n entries of `closest`. */
  ghost predicate Filtered<T(!new)>(lt: (T, T) -> bool, closest: seq<T>, n: nat, wanted: set<T>, selected: seq<T>) {
    && n <= |closest| && Ascending(lt, closest) && Ascending(lt, selected)
    && wanted <= Elems(closest) && Elems(selected) == Elems(closest[..n]) * wanted
  }

  lemma PickedRank<T(!new)>(lt: (T, T) -> bool, closest: seq<T>, n: nat, wanted: set<T>, selected: seq<T>, p: T)
    requires StrictTotal(lt) && Filtered(lt, closest, n, wanted, selected)
    requires p in Elems(selected)
    ensures |Before(lt, wanted, p)| < |selected|
  {
    var i := IndexOf(closest, n, p);
    assert closest[..|closest|] == closest;
    forall q | q in Before(lt, wanted, p) ensures q in Elems(selected) - {p} {
      var j := IndexOf(closest, |closest|, q);
      assert j < i;
      PrefixMember(closest, n, j);
    }
    SubsetSize(Before(lt, wanted, p), Elems(selected) - {p});
    AscendingDistinct(lt, selected);
  }

  lemma LeftOutRank<T(!new)>(lt: (T, T) -> bool, closest: seq<T>, n: nat, wanted: set<T>, selected: seq<T>, p: T)
    requires StrictTotal(lt) && Filtered(lt, closest, n, wanted, selected)
    requires p in wanted && p !in Elems(selected)
    ensures n < |closest| && |Before(lt, wanted, p)| >= |selected|
  {
    assert closest[..|closest|] == closest;
    var i := IndexOf(closest, |closest|, p);
    if i < n { PrefixMember(closest, n, i); }
    forall q | q in Elems(selected) ensures q in Before(lt, wanted, p) {
      var j := IndexOf(closest, n, q);
    }
    SubsetSize(Elems(selected), Before(lt, wanted, p));
    AscendingDistinct(lt, selected);
  }

  /** Filtering a ranked list from the front, up to k survivors, leaves the first k survivors. */
  lemma ScanIsFirst<T(!new)>(lt: (T, T) -> bool, closest: seq<T>, n: nat, wanted: set<T>, selected: seq<T>, k: nat)
    requires StrictTotal(lt) && Filtered(lt, closest, n, wanted, selected)
    requires |selected| == k || (|selected| < k && n == |closest|)
    ensures IsFirst(lt, wanted, k, selected)
  {
    forall p ensures p in Elems(selected) <==> p in wanted && |Before(lt, wanted, p)| < k {
      if p in Elems(selected) {
        PickedRank(lt, closest, n, wanted, selected, p);
      } else if p in wanted {
        LeftOutRank(lt, closest, n, wanted, selected, p);
      }
    }
  }

  /** The selection is the k nearest eligible peers in XOR distance, whatever order the lookups listed them in. */
  lemma SelectionIsNearest(hash: string -> Bytes, key: string, tie: Order, eligible: set<string>, k: nat,
                           selected: seq<string>, p: string, rest: string)
    requires StrictTotal(tie) && forall s, t :: |hash(s)| == |hash(t)|
    requires IsFirst(DistanceOrder(hash, key, tie), eligible, k, selected)
    requires p in Elems(selected) && rest in eligible && rest !in Elems(selected)
    ensures Value(XorBytes(hash(key), hash(p))) <= Value(XorBytes(hash(key), hash(rest)))
    ensures hash(p) != hash(rest)
      ==> Value(XorBytes(hash(key), hash(p))) < Value(XorBytes(hash(key), hash(rest)))
    ensures |selected| == k
  {
    DistanceOrderIsStrictTotal(hash, key, tie);
    PickedBeforeRest(DistanceOrder(hash, key, tie), eligible, k, selected, p, rest);
    HexRankingIsXorRanking(hash(key), hash(p), hash(rest));
    FirstLength(DistanceOrder(hash, key, tie), eligible, k, selected);
    if hash(p) != hash(rest) { DistancesAreDistinct(hash(key), hash(p), hash(rest)); }
    SubsetSize(Elems(selected) + {rest}, eligible);
    assert |Elems(selected) + {rest}| == |selected| + 1;
  }

  /** What the sender's handler relies on: distinct, listed, valid remote peers; k of them, or else all there are. */
  lemma SelectionIsUsable(order: Order, local: string, listed: set<string>, k: nat, selected: seq<string>)
    requires StrictTotal(order) && IsFirst(order, Eligible(local, listed), k, selected)
    ensures Distinct(selected) && |selected| <= k
    ensures forall p :: p in selected ==> p in listed && p != "" && p != local && p != UNKNOWN_PEER
    ensures |selected| < k ==>
      forall p :: p in listed && p != "" && p != local && p != UNKNOWN_PEER ==> p in selected
    ensures |selected| == Min(k, |set p | p in listed && p != "" && p != local && p != UNKNOWN_PEER|)
  {
    var eligible := set p | p in listed && p != "" && p != local && p != UNKNOWN_PEER;
    assert Eligible(local, listed) == eligible;
    FirstLength(order, eligible, k, selected);
    AscendingDistinct(order, selected);
    if |selected| < k {
      forall p | p in eligible ensures p in selected {
        SubsetSize(Before(order, eligible, p), eligible);
        assert p in Elems(selected);
      }
    }
    forall p | p in selected ensures p in eligible { assert p in Elems(selected); }
  }

  // ----- two servers selecting for the same key -----

  /** A peer that the writer picked is picked by the reader too, unless it is the reader itself
      or the writer took its place. */
  lemma WriterChoiceReachesReader(order: Order, peers: set<string>, k: nat, writer: string, reader: string,
                                  written: seq<string>, read: seq<string>, p: string)
    requires StrictTotal(order) && writer in Eligible("", peers) && reader in peers
    requires IsFirst(order, Eligible(writer, peers), k, written)
    requires IsFirst(order, Eligible(reader, peers), k, read)
    requires p in Elems(written)
    ensures p == reader || p in Elems(read) || writer in Elems(read) || writer == reader
  {
    if p != reader && writer !in Elems(read) && writer != reader {
      Compare(order, writer, p);
      var forWriter, forReader := Eligible(writer, peers), Eligible(reader, peers);
      if order(writer, p) {
        // everything ranked before the writer is ranked before p too, up to the reader itself
        assert Before(order, forReader, writer) <= Before(order, forWriter, p);
        SubsetSize(Before(order, forReader, writer), Before(order, forWriter, p));
        assert false;
      }
      assert Before(order, forReader, p) <= Before(order, forWriter, p);
      SubsetSize(Before(order, forReader, p), Before(order, forWriter, p));
    }
  }

  /** A peer the reader misses although the writer is in the reader's list sits on the last place of the writer's. */
  lemma MissedIsLast(order: Order, peers: set<string>, k: nat, writer: string, reader: string,
                     written: seq<string>, read: seq<string>, x: string)
    requires StrictTotal(order)
    requires IsFirst(order, Eligible(writer, peers), k, written)
    requires IsFirst(order, Eligible(reader, peers), k, read)
    requires x in Elems(written) && x !in Elems(read) && x != reader
    ensures |Before(order, Eligible(writer, peers), x)| == k - 1
    ensures reader !in Before(order, Eligible(writer, peers), x)
  {
    var forWriter := Before(order, Eligible(writer, peers), x);
    var forReader := Before(order, Eligible(reader, peers), x);
    assert forReader - {writer} == forWriter - {reader};
    assert reader !in forReader && writer !in forWriter;
    assert |forReader - {writer}| >= |forReader| - 1;
  }

  lemma LaterRanksHigher(order: Order, all: set<string>, x: string, y: string)
    requires StrictTotal(order) && x in all && order(x, y)
    ensures |Before(order, all, y)| > |Before(order, all, x)|
  {
    SubsetSize(Before(order, all, x) + {x}, Before(order, all, y));
  }

  /** The lists two servers select for one key differ in at most one element. */
  lemma SelectionsDifferByOne(order: Order, peers: set<string>, k: nat, writer: string, reader: string,
                              written: seq<string>, read: seq<string>, x: string, y: string)
    requires StrictTotal(order) && writer in Eligible("", peers) && reader in peers
    requires IsFirst(order, Eligible(writer, peers), k, written)
    requires IsFirst(order, Eligible(reader, peers), k, read)
    requires x in Elems(written) && x !in Elems(read) && y in Elems(written) && y !in Elems(read)
    ensures x == y
  {
    if x != y {
      Compare(order, x, y);
      var first, second := if order(x, y) then x else y, if order(x, y) then y else x;
      LaterRanksHigher(order, Eligible(writer, peers), first, second);
      if first != reader {
        MissedIsLast(order, peers, k, writer, reader, written, read, first);
      } else {
        MissedIsLast(order, peers, k, writer, reader, written, read, second);
      }
      assert false;
    }
  }
}
