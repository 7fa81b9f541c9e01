/** The peers a server keeps its connections to: which they are, and the tags that mark them in libp2p's store. */
module KeepAlive {
  import opened Ordering
  import opened SyncWire
  import opened ReplicaSelection
  import opened ScoreAggregates

  datatype Role = Bootstrap | Core

  /** The two keep-alive tags, and any others a peer may carry. */
  datatype Tag = BootstrapTag | CoreTag | OtherTag(name: string)

  type PeerStore = map<string, set<Tag>>

  // ----- tags of one peer -----

  function TagFor(role: Role): Tag {
    match role
    case Bootstrap => BootstrapTag
    case Core => CoreTag
  }

  function TagAgainst(role: Role): Tag {
    match role
    case Bootstrap => CoreTag
    case Core => BootstrapTag
  }

  function KeepAliveTags(tags: set<Tag>): set<Tag> { tags * {BootstrapTag, CoreTag} }

  function TagsOf(store: PeerStore, p: string): set<Tag> { if p in store then store[p] else {} }

  /** The role read off the tags: the bootstrap tag is looked at first. */
  function RoleOf(tags: set<Tag>): Option<Role> {
    if BootstrapTag in tags then Some(Bootstrap) else if CoreTag in tags then Some(Core) else None
  }

  function Wanted(desired: map<string, Role>, p: string): Option<Role> {
    if p in desired then Some(desired[p]) else None
  }

  function WantedTags(want: Option<Role>): set<Tag> {
    match want
    case Some(role) => {TagFor(role)}
    case None => {}
  }

  /** Must a tag be put on: the peer is wanted in another role than it has, and its id can be parsed. */
  predicate Applies(tags: set<Tag>, want: Option<Role>, parsable: bool) {
    want.Some? && RoleOf(tags) != want && parsable
  }

  predicate Removes(p: string, tags: set<Tag>, want: Option<Role>) {
    p != "" && want.None? && RoleOf(tags).Some?
  }

  /** The tags of one peer afterwards. */
  function Settle(p: string, tags: set<Tag>, want: Option<Role>, parsable: bool): set<Tag> {
    if Applies(tags, want, parsable) then tags - {TagAgainst(want.value)} + {TagFor(want.value)}
    else if Removes(p, tags, want) then tags - {BootstrapTag, CoreTag}
    else tags
  }

  predicate OneTag(tags: set<Tag>) { !(BootstrapTag in tags && CoreTag in tags) }

  /** What a caller can check beforehand: the role it has is marked by one tag, or it can be parsed, or it is
      not wanted and has an id. */
  predicate Fixable(p: string, tags: set<Tag>, want: Option<Role>, parsable: bool) {
    match want
    case Some(_) => if RoleOf(tags) == want then OneTag(tags) else parsable
    case None => p != "" || RoleOf(tags).None?
  }

  lemma SettleIsExactIff(p: string, tags: set<Tag>, want: Option<Role>, parsable: bool)
    ensures KeepAliveTags(Settle(p, tags, want, parsable)) == WantedTags(want) <==> Fixable(p, tags, want, parsable)
    ensures OneTag(tags) ==> OneTag(Settle(p, tags, want, parsable))
    ensures OthersKept(tags, Settle(p, tags, want, parsable), want.Some? && !parsable)
  {
    var after := KeepAliveTags(Settle(p, tags, want, parsable));
    assert BootstrapTag in after <==> BootstrapTag in Settle(p, tags, want, parsable);
    assert CoreTag in after <==> CoreTag in Settle(p, tags, want, parsable);
    assert after == WantedTags(want) <==>
      ((BootstrapTag in after <==> want == Some(Bootstrap)) && (CoreTag in after <==> want == Some(Core)));
  }

  lemma SettleTwice(p: string, tags: set<Tag>, want: Option<Role>, parsable: bool)
    ensures var after := Settle(p, tags, want, parsable);
      !Applies(after, want, parsable) && !Removes(p, after, want)
  {}

  // ----- the store -----

  function Applied(store: PeerStore, desired: map<string, Role>, parsable: string -> bool): set<string> {
    set p | p in desired && Applies(TagsOf(store, p), Wanted(desired, p), parsable(p))
  }

  function Removed(store: PeerStore, desired: map<string, Role>): set<string> {
    set p | p in store && Removes(p, TagsOf(store, p), Wanted(desired, p))
  }

  /** What a run does to the store. */
  ghost predicate Reconciled(before: PeerStore, desired: map<string, Role>, parsable: string -> bool, after: PeerStore)
  {
    forall p :: ReconciledAt(before, desired, parsable, after, p)
  }

  predicate ReconciledAt(before: PeerStore, desired: map<string, Role>, parsable: string -> bool, after: PeerStore,
                         p: string)
  {
    && TagsOf(after, p) == Settle(p, TagsOf(before, p), Wanted(desired, p), parsable(p))
    && (p in after <==> p in before || Applies(TagsOf(before, p), Wanted(desired, p), parsable(p)))
  }

  ghost predicate ExactlyDesired(store: PeerStore, desired: map<string, Role>) {
    forall p :: KeepAliveTags(TagsOf(store, p)) == WantedTags(Wanted(desired, p))
  }

  ghost predicate AllFixable(store: PeerStore, desired: map<string, Role>, parsable: string -> bool) {
    forall p :: Fixable(p, TagsOf(store, p), Wanted(desired, p), parsable(p))
  }

  ghost predicate OthersKept(before: set<Tag>, after: set<Tag>, untouched: bool) {
    && (forall name :: OtherTag(name) in after <==> OtherTag(name) in before)
    && (untouched ==> after == before)
  }

  /** Afterwards the tagged peers and their roles are the desired ones, exactly when every peer could be fixed.
      Tags of other kinds never change, and a wanted peer that does not parse keeps what it has. */
  lemma ExactIffFixable(before: PeerStore, desired: map<string, Role>, parsable: string -> bool, after: PeerStore)
    requires Reconciled(before, desired, parsable, after)
    ensures ExactlyDesired(after, desired) <==> AllFixable(before, desired, parsable)
    ensures forall p :: OthersKept(TagsOf(before, p), TagsOf(after, p), p in desired && !parsable(p))
  {
    forall p ensures OthersKept(TagsOf(before, p), TagsOf(after, p), p in desired && !parsable(p)) {
      assert ReconciledAt(before, desired, parsable, after, p);
      SettleIsExactIff(p, TagsOf(before, p), Wanted(desired, p), parsable(p));
    }
    forall p ensures KeepAliveTags(TagsOf(after, p)) == WantedTags(Wanted(desired, p))
      <==> Fixable(p, TagsOf(before, p), Wanted(desired, p), parsable(p))
    {
      assert ReconciledAt(before, desired, parsable, after, p);
      SettleIsExactIff(p, TagsOf(before, p), Wanted(desired, p), parsable(p));
    }
  }

  /** With one tag per peer, ids that parse and a desired map without the empty id, it is exact. */
  lemma ParsableIsEnough(before: PeerStore, desired: map<string, Role>, parsable: string -> bool, after: PeerStore)
    requires Reconciled(before, desired, parsable, after)
    requires forall p :: OneTag(TagsOf(before, p))
    requires forall p :: p in desired ==> parsable(p)
    requires "" !in before
    ensures ExactlyDesired(after, desired) && forall p :: OneTag(TagsOf(after, p))
  {
    ExactIffFixable(before, desired, parsable, after);
    forall p ensures OneTag(TagsOf(after, p)) && Fixable(p, TagsOf(before, p), Wanted(desired, p), parsable(p)) {
      assert ReconciledAt(before, desired, parsable, after, p);
      SettleIsExactIff(p, TagsOf(before, p), Wanted(desired, p), parsable(p));
    }
  }

  /** A peer whose id cannot be parsed stays without the tag it should have. */
  lemma UnparsableIsMissed(p: string, role: Role)
    ensures Reconciled(map[], map[p := role], (q: string) => false, map[])
    ensures !ExactlyDesired(map[], map[p := role])
  {
    var none: PeerStore := map[];
    assert KeepAliveTags(TagsOf(none, p)) == {};
    assert TagFor(role) in WantedTags(Wanted(map[p := role], p));
    assert KeepAliveTags(TagsOf(none, p)) != WantedTags(Wanted(map[p := role], p));
  }

  /** So does a peer with both tags keep both when it is wanted as a bootstrap peer, whether or not it parses. */
  lemma SecondTagIsKept(p: string, parsable: string -> bool)
    ensures var store := map[p := {BootstrapTag, CoreTag}];
      Reconciled(store, map[p := Bootstrap], parsable, store) && !ExactlyDesired(store, map[p := Bootstrap])
  {
    var store: PeerStore := map[p := {BootstrapTag, CoreTag}];
    assert CoreTag in KeepAliveTags(TagsOf(store, p)) && CoreTag !in WantedTags(Wanted(map[p := Bootstrap], p));
    assert KeepAliveTags(TagsOf(store, p)) != WantedTags(Wanted(map[p := Bootstrap], p));
  }

  /** A second run with the same desired peers has nothing to do. */
  lemma SecondRunDoesNothing(before: PeerStore, desired: map<string, Role>, parsable: string -> bool, after: PeerStore)
    requires Reconciled(before, desired, parsable, after)
    ensures Applied(after, desired, parsable) == {} && Removed(after, desired) == {}
    ensures Reconciled(after, desired, parsable, after)
  {
    forall p ensures var tags := TagsOf(after, p); var want := Wanted(desired, p);
      !Applies(tags, want, parsable(p)) && !Removes(p, tags, want)
    {
      assert ReconciledAt(before, desired, parsable, after, p);
      SettleTwice(p, TagsOf(before, p), Wanted(desired, p), parsable(p));
    }
  }

  // ----- the core peers -----

  /** What is known about peers: connections, when each was last heard of, reports, known servers. */
  datatype Facts = Facts(connected: set<string>, lastEventAt: map<string, int>, aggregates: map<string, Aggregate>,
                         nodes: map<string, int>)

  /** The same four in the orders in which the code runs through them. */
  datatype Listing = Listing(connected: seq<string>, observed: seq<string>, scored: seq<string>, known: seq<string>)

  ghost predicate Lists(l: Listing, f: Facts) {
    && Elems(l.connected) == f.connected && Elems(l.observed) == f.lastEventAt.Keys
    && Elems(l.scored) == f.aggregates.Keys && Elems(l.known) == f.nodes.Keys
  }

  function MeanScore(f: Facts): string -> real {
    (p: string) => if p in f.aggregates then f.aggregates[p].meanScore else -1.0
  }

  function ReportCount(f: Facts): string -> real {
    (p: string) => if p in f.aggregates then f.aggregates[p].reportCount as real else 0.0
  }

  function IsConnected(f: Facts): string -> real {
    (p: string) => if p in f.connected then 1.0 else 0.0
  }

  function Known(m: map<string, int>, p: string): int { if p in m then m[p] else 0 }

  function Freshness(f: Facts): string -> real {
    (p: string) =>
      var scored := if p in f.aggregates then f.aggregates[p].lastObservedAt else 0;
      Max(scored, Max(Known(f.nodes, p), Known(f.lastEventAt, p))) as real
  }

  /** Best score first, then most reports, connected ones, the freshest, and the id. */
  function Ranking(f: Facts, byId: Order): Order {
    ByDescending(MeanScore(f),
                 ByDescending(ReportCount(f), ByDescending(IsConnected(f), ByDescending(Freshness(f), byId))))
  }

  lemma RankingIsStrictTotal(f: Facts, byId: Order)
    requires StrictTotal(byId)
    ensures StrictTotal(Ranking(f, byId))
  {
    var byFreshness := ByDescending(Freshness(f), byId);
    var byConnection := ByDescending(IsConnected(f), byFreshness);
    var byCount := ByDescending(ReportCount(f), byConnection);
    ByDescendingIsStrictTotal(Freshness(f), byId);
    ByDescendingIsStrictTotal(IsConnected(f), byFreshness);
    ByDescendingIsStrictTotal(ReportCount(f), byConnection);
    ByDescendingIsStrictTotal(MeanScore(f), byCount);
  }

  // ----- the ranking, spelled out -----

  /** What counts when two peers are compared. */
  datatype Standing = Standing(meanScore: real, reports: nat, connected: bool, heardAt: int)

  /** The latest of three times, of which an unknown one counts as 0. */
  ghost predicate IsLatest(at: int, scored: int, seen: int, observed: int) {
    at >= scored && at >= seen && at >= observed && (at == scored || at == seen || at == observed)
  }

  /** A peer without reports stands below every score, and has none. */
  ghost predicate StandsAt(f: Facts, p: string, s: Standing) {
    && (p in f.aggregates ==>
        s.meanScore == f.aggregates[p].meanScore && s.reports == f.aggregates[p].reportCount)
    && (p !in f.aggregates ==> s.meanScore == -1.0 && s.reports == 0)
    && (s.connected <==> p in f.connected)
    && IsLatest(s.heardAt, if p in f.aggregates then f.aggregates[p].lastObservedAt else 0,
        if p in f.nodes then f.nodes[p] else 0, if p in f.lastEventAt then f.lastEventAt[p] else 0)
  }

  /** The first difference decides: the higher mean, more reports, the connected one, the one heard of later. */
  ghost predicate Outranks(a: Standing, b: Standing, tie: bool) {
    || a.meanScore > b.meanScore
    || (a.meanScore == b.meanScore &&
      (a.reports > b.reports || (a.reports == b.reports && RanksByContact(a, b, tie))))
  }

  ghost predicate RanksByContact(a: Standing, b: Standing, tie: bool) {
    || (a.connected && !b.connected)
    || (a.connected == b.connected && (a.heardAt > b.heardAt || (a.heardAt == b.heardAt && tie)))
  }

  lemma RankingOutranks(f: Facts, byId: Order, p: string, q: string, a: Standing, b: Standing)
    requires StandsAt(f, p, a) && StandsAt(f, q, b)
    ensures Ranking(f, byId)(p, q) <==> Outranks(a, b, byId(p, q))
  {
    assert IsConnected(f)(p) > IsConnected(f)(q) <==> a.connected && !b.connected;
    assert Freshness(f)(p) == a.heardAt as real && Freshness(f)(q) == b.heardAt as real;
    assert ReportCount(f)(p) == a.reports as real && ReportCount(f)(q) == b.reports as real;
  }

  /** Known from any source, and neither this server, nor nameless, nor a bootstrap peer. */
  ghost predicate MayBeCore(f: Facts, local: string, bootstrap: set<string>, p: string) {
    && (p in f.connected || p in f.lastEventAt || p in f.aggregates || p in f.nodes)
    && p != "" && p != local && p != UNKNOWN_PEER && p !in bootstrap
  }

  predicate IsCandidate(local: string, taken: map<string, Role>, p: string) {
    p != "" && p != local && p != UNKNOWN_PEER && p !in taken
  }

  function CoreCandidates(f: Facts, local: string, taken: map<string, Role>): set<string> {
    set p | p in f.connected + f.lastEventAt.Keys + f.aggregates.Keys + f.nodes.Keys && IsCandidate(local, taken, p)
  }

  method AddPeers(found: seq<string>, listed: seq<string>) returns (all: seq<string>)
    requires Distinct(found)
    ensures Distinct(all) && Elems(all) == Elems(found) + Elems(listed)
  {
    all := found;
    for i := 0 to |listed|
      invariant Distinct(all) && Elems(all) == Elems(found) + Elems(listed[..i])
    {
      PrefixStep(listed, i);
      all := AddOnce(all, listed[i]);
    }
    assert listed[..|listed|] == listed;
  }

  method FilterPeers(local: string, taken: map<string, Role>, all: seq<string>) returns (kept: seq<string>)
    requires Distinct(all)
    ensures Distinct(kept)
    ensures Elems(kept) == set p | p in Elems(all) && IsCandidate(local, taken, p)
  {
    kept := [];
    for i := 0 to |all|
      invariant Distinct(kept)
      invariant Elems(kept) == set p | p in Elems(all[..i]) && IsCandidate(local, taken, p)
    {
      PrefixStep(all, i);
      if IsCandidate(local, taken, all[i]) {
        kept := AddOnce(kept, all[i]);
      }
    }
    assert all[..|all|] == all;
  }

  /** The first `coreCount` candidates of the ranking, whatever order the peers were listed in. */
  method SelectCoreKeepAlivePeerIds(f: Facts, l: Listing, local: string, taken: map<string, Role>, coreCount: int,
                                    byId: Order)
    returns (selected: seq<string>)
    requires StrictTotal(byId) && Lists(l, f)
    ensures IsFirst(Ranking(f, byId), CoreCandidates(f, local, taken), Max(0, coreCount), selected)
    ensures Distinct(selected) && |selected| <= Max(0, coreCount)
  {
    var ranking := Ranking(f, byId);
    RankingIsStrictTotal(f, byId);
    selected := [];
    if Max(0, coreCount) == 0 {
      return;
    }
    var all := AddPeers([], l.connected);
    all := AddPeers(all, l.observed);
    all := AddPeers(all, l.scored);
    all := AddPeers(all, l.known);
    var candidates := FilterPeers(local, taken, all);
    assert Elems(candidates) == CoreCandidates(f, local, taken);
    var ranked := Sort(ranking, candidates);
    SortProperties(ranking, candidates);
    PrefixIsFirst(ranking, ranked, Max(0, coreCount));
    selected := ranked[..Min(Max(0, coreCount), |ranked|)];
    AscendingDistinct(ranking, selected);
  }

  // ----- the desired peers -----

  function BootstrapPeers(local: string, bootstrap: set<string>): set<string> {
    bootstrap - {"", local, UNKNOWN_PEER}
  }

  function AsBootstrap(peers: set<string>): map<string, Role> { map p | p in peers :: Bootstrap }

  /** The bootstrap peers, and as core peers the first ranked among all others. */
  ghost predicate IsDesired(f: Facts, local: string, bootstrap: set<string>, coreCount: int, byId: Order,
                            desired: map<string, Role>, core: seq<string>)
  {
    var peers := BootstrapPeers(local, bootstrap);
    && IsFirst(Ranking(f, byId), CoreCandidates(f, local, AsBootstrap(peers)), Max(0, coreCount), core)
    && desired.Keys == peers + Elems(core)
    && forall p :: p in desired ==> desired[p] == if p in peers then Bootstrap else Core
  }

  /** The bootstrap peers are exactly the configured ones with a real id of another server; a core peer is known
      and no bootstrap peer; there is no third kind. */
  lemma RolesAreExact(f: Facts, local: string, bootstrap: set<string>, coreCount: int, byId: Order,
                      desired: map<string, Role>, core: seq<string>, p: string)
    requires IsDesired(f, local, bootstrap, coreCount, byId, desired, core)
    ensures p in desired && desired[p] == Bootstrap <==>
      p in bootstrap && p != "" && p != local && p != UNKNOWN_PEER
    ensures p in desired && desired[p] == Core <==> p in core
    ensures p in core ==> MayBeCore(f, local, bootstrap, p)
  {
    MayBeCoreIff(f, local, bootstrap, p);
    assert p in core <==> p in Elems(core);
  }

  /** A core peer outranks every peer that might have been one and was passed over; as long as there is such a
      peer, there are exactly `coreCount` core peers, and never more. */
  lemma CoreIsBest(f: Facts, local: string, bootstrap: set<string>, coreCount: int, byId: Order,
                   desired: map<string, Role>, core: seq<string>, p: string, rest: string, a: Standing, b: Standing)
    requires StrictTotal(byId) && IsDesired(f, local, bootstrap, coreCount, byId, desired, core)
    requires StandsAt(f, p, a) && StandsAt(f, rest, b)
    ensures MayBeCore(f, local, bootstrap, rest) && rest !in core ==>
      |core| == Max(0, coreCount) && (p in core ==> Outranks(a, b, byId(p, rest)))
    ensures |core| <= Max(0, coreCount)
  {
    RankingIsStrictTotal(f, byId);
    MayBeCoreIff(f, local, bootstrap, rest);
    RankingOutranks(f, byId, p, rest, a, b);
    PickedAreBest(Ranking(f, byId), CoreCandidates(f, local, AsBootstrap(BootstrapPeers(local, bootstrap))),
                  Max(0, coreCount), core, p, rest);
  }

  lemma MayBeCoreIff(f: Facts, local: string, bootstrap: set<string>, p: string)
    ensures p in CoreCandidates(f, local, AsBootstrap(BootstrapPeers(local, bootstrap)))
      <==> MayBeCore(f, local, bootstrap, p)
  {}

  lemma PickedAreBest<T(!new)>(lt: (T, T) -> bool, all: set<T>, k: nat, picked: seq<T>, p: T, rest: T)
    requires StrictTotal(lt) && IsFirst(lt, all, k, picked)
    ensures |picked| <= k
    ensures rest in all && rest !in picked ==> |picked| == k && (p in picked ==> lt(p, rest))
  {
    FirstLength(lt, all, k, picked);
    if rest in all && rest !in picked {
      assert rest !in Elems(picked);
      SubsetSize(Before(lt, all, rest), all);
      if p in picked {
        assert p in Elems(picked);
        PickedBeforeRest(lt, all, k, picked, p, rest);
      }
    }
  }

  /** The desired peers depend on the facts alone. */
  lemma DesiredIsUnique(f: Facts, local: string, bootstrap: set<string>, coreCount: int, byId: Order,
                        desired: map<string, Role>, core: seq<string>, other: map<string, Role>, otherCore: seq<string>)
    requires StrictTotal(byId)
    requires IsDesired(f, local, bootstrap, coreCount, byId, desired, core)
    requires IsDesired(f, local, bootstrap, coreCount, byId, other, otherCore)
    ensures desired == other
  {
    RankingIsStrictTotal(f, byId);
    FirstUnique(Ranking(f, byId), CoreCandidates(f, local, AsBootstrap(BootstrapPeers(local, bootstrap))),
                Max(0, coreCount), core, otherCore);
  }

  // ----- the service -----

  /** The roles found in the store so far. */
  ghost predicate RolesRead(store: PeerStore, seen: set<string>, roles: map<string, Role>) {
    forall p :: RoleReadAt(store, seen, roles, p)
  }

  predicate RoleReadAt(store: PeerStore, seen: set<string>, roles: map<string, Role>, p: string) {
    Wanted(roles, p) == if p in seen && p != "" then RoleOf(TagsOf(store, p)) else None
  }

  predicate AppliedAt(before: PeerStore, desired: map<string, Role>, parsable: string -> bool, done: set<string>,
                      after: PeerStore, p: string)
  {
    var want := Wanted(desired, p);
    var applies := p in done && Applies(TagsOf(before, p), want, parsable(p));
    && TagsOf(after, p) ==
       (if applies then TagsOf(before, p) - {TagAgainst(want.value)} + {TagFor(want.value)} else TagsOf(before, p))
    && (p in after <==> p in before || applies)
  }

  /** The store after the first loop has gone through `done`. */
  ghost predicate AppliedTo(before: PeerStore, desired: map<string, Role>, parsable: string -> bool, done: set<string>,
                            after: PeerStore)
  {
    forall p :: AppliedAt(before, desired, parsable, done, after, p)
  }

  predicate RemovedAt(before: PeerStore, desired: map<string, Role>, done: set<string>, after: PeerStore, p: string) {
    && TagsOf(after, p) ==
       (if p in done && Removes(p, TagsOf(before, p), Wanted(desired, p))
         then TagsOf(before, p) - {BootstrapTag, CoreTag} else TagsOf(before, p))
    && (p in after <==> p in before)
  }

  /** The store after the second loop has gone through `done`. */
  ghost predicate RemovedFrom(before: PeerStore, desired: map<string, Role>, done: set<string>, after: PeerStore) {
    forall p :: RemovedAt(before, desired, done, after, p)
  }

  lemma ApplyStep(before: PeerStore, desired: map<string, Role>, parsable: string -> bool, done: set<string>,
                  store: PeerStore, p: string)
    requires AppliedTo(before, desired, parsable, done, store) && p !in done && p in desired
    ensures TagsOf(store, p) == TagsOf(before, p)
    ensures AppliedTo(before, desired, parsable, done + {p},
      if Applies(TagsOf(before, p), Some(desired[p]), parsable(p))
      then store[p := TagsOf(store, p) - {TagAgainst(desired[p])} + {TagFor(desired[p])}] else store)
  {
    var after := if Applies(TagsOf(before, p), Some(desired[p]), parsable(p))
      then store[p := TagsOf(store, p) - {TagAgainst(desired[p])} + {TagFor(desired[p])}] else store;
    assert AppliedAt(before, desired, parsable, done, store, p);
    var more := done + {p};
    forall q ensures AppliedAt(before, desired, parsable, more, after, q) {
      assert AppliedAt(before, desired, parsable, done, store, q);
    }
  }

  lemma RemoveStep(before: PeerStore, desired: map<string, Role>, done: set<string>, store: PeerStore, p: string)
    requires RemovedFrom(before, desired, done, store) && p !in done && p in before
    ensures p in store && store[p] == before[p]
    ensures RemovedFrom(before, desired, done + {p},
      if Removes(p, before[p], Wanted(desired, p)) then store[p := store[p] - {BootstrapTag, CoreTag}] else store)
  {
    assert RemovedAt(before, desired, done, store, p);
    var after := if Removes(p, before[p], Wanted(desired, p))
      then store[p := store[p] - {BootstrapTag, CoreTag}] else store;
    var more := done + {p};
    forall q ensures RemovedAt(before, desired, more, after, q) {
      assert RemovedAt(before, desired, done, store, q);
    }
  }

  /** `met` lists, once each, the elements of `all` among those done. */
  ghost predicate Met<T>(met: seq<T>, all: set<T>, done: set<T>) {
    Distinct(met) && Elems(met) == all * done
  }

  /** Going one entry further through a list. */
  lemma NextDone<T>(s: seq<T>, i: nat, met: seq<T>, all: set<T>, done: set<T>)
    requires Distinct(s) && i < |s| && done == Elems(s[..i]) && Met(met, all, done)
    ensures s[i] in Elems(s) && s[i] !in done && done + {s[i]} == Elems(s[..i + 1])
    ensures Met(if s[i] in all then met + [s[i]] else met, all, done + {s[i]})
  {
    PrefixStep(s, i);
    ElemsConcat(met, [s[i]]);
    assert Elems([s[i]]) == {s[i]};
    assert s[i] !in Elems(met);
  }

  lemma MetAll<T>(met: seq<T>, all: set<T>, done: set<T>)
    requires Met(met, all, done) && all <= done
    ensures |met| == |all|
  {
    DistinctSize(met);
    assert all * done == all;
  }

  lemma ThenReconciled(before: PeerStore, desired: map<string, Role>, parsable: string -> bool, between: PeerStore,
                       after: PeerStore)
    requires AppliedTo(before, desired, parsable, desired.Keys, between)
    requires RemovedFrom(between, desired, before.Keys, after)
    ensures Reconciled(before, desired, parsable, after)
  {
    forall p ensures ReconciledAt(before, desired, parsable, after, p) {
      assert AppliedAt(before, desired, parsable, desired.Keys, between, p);
      assert RemovedAt(between, desired, before.Keys, after, p);
    }
  }

  ghost predicate OthersAsIn(snapshot: PeerStore, desired: map<string, Role>, store: PeerStore) {
    forall p :: p !in desired ==> TagsOf(snapshot, p) == TagsOf(store, p)
  }

  class KeepAliveService {
    const enabled: bool
    const localPeerId: string
    const coreCount: int
    const byId: Order
    const parsable: string -> bool
    const bootstrapPeerIds: seq<string>
    var desiredPeers: map<string, Role>
    var store: PeerStore

    constructor (enabled: bool, localPeerId: string, coreCount: int, byId: Order, parsable: string -> bool,
                 bootstrapPeerIds: seq<string>, store: PeerStore)
      ensures desiredPeers == map[] && this.store == store
      ensures this.enabled == enabled && this.localPeerId == localPeerId && this.coreCount == coreCount
      ensures this.byId == byId && this.parsable == parsable && this.bootstrapPeerIds == bootstrapPeerIds
    {
      this.enabled, this.localPeerId, this.coreCount, this.byId := enabled, localPeerId, coreCount, byId;
      this.parsable, this.bootstrapPeerIds := parsable, bootstrapPeerIds;
      desiredPeers, this.store := map[], store;
    }

    /** `order` lists the entries as they were put into the map. */
    method BuildDesiredKeepAlivePeers(f: Facts, l: Listing)
      returns (desired: map<string, Role>, order: seq<string>, ghost core: seq<string>)
      requires StrictTotal(byId) && Lists(l, f)
      ensures IsDesired(f, localPeerId, Elems(bootstrapPeerIds), coreCount, byId, desired, core)
      ensures Distinct(order) && Elems(order) == desired.Keys
    {
      desired, order := map[], [];
      for i := 0 to |bootstrapPeerIds|
        invariant desired == AsBootstrap(BootstrapPeers(localPeerId, Elems(bootstrapPeerIds[..i])))
        invariant Distinct(order) && Elems(order) == desired.Keys
      {
        PrefixStep(bootstrapPeerIds, i);
        var p := bootstrapPeerIds[i];
        if p != "" && p != localPeerId && p != UNKNOWN_PEER {
          desired := desired[p := Bootstrap];
          order := AddOnce(order, p);
        }
      }
      assert bootstrapPeerIds[..|bootstrapPeerIds|] == bootstrapPeerIds;
      var selected := SelectCoreKeepAlivePeerIds(f, l, localPeerId, desired, coreCount, byId);
      core := selected;
      desired, order := AddCore(desired, order, selected);
    }

    /** Only what is not there yet. */
    method AddCore(bootstrap: map<string, Role>, first: seq<string>, selected: seq<string>)
      returns (desired: map<string, Role>, order: seq<string>)
      requires Distinct(first) && Elems(first) == bootstrap.Keys
      ensures Distinct(order) && Elems(order) == desired.Keys
      ensures desired.Keys == bootstrap.Keys + Elems(selected)
      ensures forall p :: p in desired ==> desired[p] == if p in bootstrap then bootstrap[p] else Core
    {
      desired, order := bootstrap, first;
      for i := 0 to |selected|
        invariant desired.Keys == bootstrap.Keys + Elems(selected[..i])
        invariant forall p :: p in desired ==> desired[p] == if p in bootstrap then bootstrap[p] else Core
        invariant Distinct(order) && Elems(order) == desired.Keys
      {
        PrefixStep(selected, i);
        if selected[i] !in desired {
          desired := desired[selected[i] := Core];
          order := AddOnce(order, selected[i]);
        }
      }
      assert selected[..|selected|] == selected;
    }

    method ReadRoles(peers: seq<string>) returns (roles: map<string, Role>)
      ensures RolesRead(store, Elems(peers), roles)
    {
      roles := map[];
      for i := 0 to |peers|
        invariant RolesRead(store, Elems(peers[..i]), roles)
      {
        PrefixStep(peers, i);
        var p := peers[i];
        RoleStep(store, Elems(peers[..i]), roles, p);
        if p != "" {
          if BootstrapTag in TagsOf(store, p) {
            roles := roles[p := Bootstrap];
            continue;
          }
          if CoreTag in TagsOf(store, p) {
            roles := roles[p := Core];
          }
        }
      }
      assert peers[..|peers|] == peers;
    }

    method ApplyTags(order: seq<string>, desired: map<string, Role>, roles: map<string, Role>) returns (applied: nat)
      requires Distinct(order) && Elems(order) == desired.Keys && "" !in desired
      requires RolesRead(store, store.Keys, roles)
      modifies this`store
      ensures AppliedTo(old(store), desired, parsable, desired.Keys, store)
      ensures applied == |Applied(old(store), desired, parsable)|
    {
      ghost var before := store;
      ghost var met: seq<string>, done: set<string> := [], {};
      applied := 0;
      for i := 0 to |order|
        invariant done == Elems(order[..i])
        invariant AppliedTo(before, desired, parsable, done, store)
        invariant applied == |met| && Met(met, Applied(before, desired, parsable), done)
      {
        NextDone(order, i, met, Applied(before, desired, parsable), done);
        var count := ApplyOne(order[i], desired, roles, before, done);
        applied := applied + count;
        met, done := if order[i] in Applied(before, desired, parsable)
          then met + [order[i]] else met, done + {order[i]};
      }
      assert order[..|order|] == order;
      MetAll(met, Applied(before, desired, parsable), done);
    }

    /** The body of the first loop for one entry. */
    method ApplyOne(p: string, desired: map<string, Role>, roles: map<string, Role>, ghost before: PeerStore,
                    ghost done: set<string>)
      returns (count: nat)
      requires p in desired && p != "" && p !in done
      requires AppliedTo(before, desired, parsable, done, store) && RolesRead(before, before.Keys, roles)
      modifies this`store
      ensures AppliedTo(before, desired, parsable, done + {p}, store)
      ensures count == if p in Applied(before, desired, parsable) then 1 else 0
    {
      RoleWasRead(before, roles, p);
      ApplyStep(before, desired, parsable, done, store, p);
      if (p in roles && roles[p] == desired[p]) || !parsable(p) {
        return 0;
      }
      store := store[p := TagsOf(store, p) - {TagAgainst(desired[p])} + {TagFor(desired[p])}];
      return 1;
    }

    /** `snapshot` is the store as it was listed before any tag was applied. */
    method RemoveTags(peers: seq<string>, snapshot: PeerStore, desired: map<string, Role>) returns (removed: nat)
      requires Distinct(peers) && Elems(peers) <= store.Keys && Removed(store, desired) <= Elems(peers)
      requires OthersAsIn(snapshot, desired, store)
      modifies this`store
      ensures RemovedFrom(old(store), desired, Elems(peers), store)
      ensures removed == |Removed(old(store), desired)|
    {
      ghost var before := store;
      ghost var met: seq<string>, done: set<string> := [], {};
      removed := 0;
      for i := 0 to |peers|
        invariant done == Elems(peers[..i])
        invariant RemovedFrom(before, desired, done, store)
        invariant removed == |met| && Met(met, Removed(before, desired), done)
      {
        NextDone(peers, i, met, Removed(before, desired), done);
        var count := RemoveOne(peers[i], snapshot, desired, before, done);
        removed := removed + count;
        met, done := if peers[i] in Removed(before, desired) then met + [peers[i]] else met, done + {peers[i]};
      }
      assert peers[..|peers|] == peers;
      MetAll(met, Removed(before, desired), done);
    }

    /** The body of the second loop for one peer. */
    method RemoveOne(p: string, snapshot: PeerStore, desired: map<string, Role>, ghost before: PeerStore,
                     ghost done: set<string>)
      returns (count: nat)
      requires p in before && p !in done && RemovedFrom(before, desired, done, store)
      requires OthersAsIn(snapshot, desired, before)
      modifies this`store
      ensures RemovedFrom(before, desired, done + {p}, store)
      ensures count == if p in Removed(before, desired) then 1 else 0
    {
      RemoveStep(before, desired, done, store, p);
      if p == "" || p in desired {
        return 0;
      }
      var tags := TagsOf(snapshot, p);
      if BootstrapTag !in tags && CoreTag !in tags {
        return 0;
      }
      store := store[p := store[p] - {BootstrapTag, CoreTag}];
      return 1;
    }

    /** The tags of the store brought in line with the desired peers. */
    method ReconcileWith(peers: seq<string>, desired: map<string, Role>, order: seq<string>)
      returns (applied: nat, removed: nat)
      requires Distinct(peers) && Elems(peers) == store.Keys
      requires Distinct(order) && Elems(order) == desired.Keys && "" !in desired
      modifies this`store
      ensures Reconciled(old(store), desired, parsable, store)
      ensures applied == |Applied(old(store), desired, parsable)| && removed == |Removed(old(store), desired)|
    {
      var snapshot := store;
      var roles := ReadRoles(peers);
      applied := ApplyTags(order, desired, roles);
      ghost var between := store;
      BetweenRuns(snapshot, desired, parsable, between);
      removed := RemoveTags(peers, snapshot, desired);
      ThenReconciled(snapshot, desired, parsable, between, store);
    }

    /** One run. `peers` lists the store's peers. */
    method ReconcileKeepAliveTags(f: Facts, l: Listing, peers: seq<string>)
      returns (applied: nat, removed: nat, ghost core: seq<string>)
      requires StrictTotal(byId) && Lists(l, f)
      requires Distinct(peers) && Elems(peers) == store.Keys
      modifies this
      ensures !enabled ==> store == old(store) && desiredPeers == old(desiredPeers) && applied == removed == 0
      ensures enabled ==>
        && IsDesired(f, localPeerId, Elems(bootstrapPeerIds), coreCount, byId, desiredPeers, core)
        && Reconciled(old(store), desiredPeers, parsable, store)
        && applied == |Applied(old(store), desiredPeers, parsable)| && removed == |Removed(old(store), desiredPeers)|
    {
      applied, removed, core := 0, 0, [];
      if !enabled {
        return;
      }
      var desired, order, first := BuildDesiredKeepAlivePeers(f, l);
      core := first;
      NeverEmptyId(f, localPeerId, Elems(bootstrapPeerIds), coreCount, byId, desired, core);
      applied, removed := ReconcileWith(peers, desired, order);
      desiredPeers := desired;
    }
  }

  lemma RoleStep(store: PeerStore, seen: set<string>, roles: map<string, Role>, p: string)
    requires RolesRead(store, seen, roles)
    ensures RolesRead(store, seen + {p},
      if p != "" && RoleOf(TagsOf(store, p)).Some? then roles[p := RoleOf(TagsOf(store, p)).value] else roles)
  {
    var more := seen + {p};
    var after := if p != "" && RoleOf(TagsOf(store, p)).Some?
      then roles[p := RoleOf(TagsOf(store, p)).value] else roles;
    forall q ensures RoleReadAt(store, more, after, q) { assert RoleReadAt(store, seen, roles, q); }
  }

  lemma RoleWasRead(store: PeerStore, roles: map<string, Role>, p: string)
    requires RolesRead(store, store.Keys, roles) && p != ""
    ensures Wanted(roles, p) == RoleOf(TagsOf(store, p))
  {
    assert RoleReadAt(store, store.Keys, roles, p);
  }

  lemma BetweenRuns(before: PeerStore, desired: map<string, Role>, parsable: string -> bool, between: PeerStore)
    requires AppliedTo(before, desired, parsable, desired.Keys, between)
    ensures before.Keys <= between.Keys
    ensures OthersAsIn(before, desired, between)
    ensures Removed(between, desired) == Removed(before, desired) <= before.Keys
  {
    forall p ensures (p in before ==> p in between) && (p !in desired ==> TagsOf(before, p) == TagsOf(between, p))
      && (p in between && p !in desired ==> p in before)
    {
      assert AppliedAt(before, desired, parsable, desired.Keys, between, p);
    }
  }

  lemma NeverEmptyId(f: Facts, local: string, bootstrap: set<string>, coreCount: int, byId: Order,
                     desired: map<string, Role>, core: seq<string>)
    requires IsDesired(f, local, bootstrap, coreCount, byId, desired, core)
    ensures "" !in desired
  {
    assert "" in Elems(core) ==> "" in CoreCandidates(f, local, AsBootstrap(BootstrapPeers(local, bootstrap)));
  }
}
