# Verification of the chat back end's stateful cores

A Dafny model of the parts of the server network whose correctness is a matter of whole runs, and proofs about
them. `dafny verify dfyconfig.toml` checks everything.

**The replicated message queue.** A sender's server stores a message, picks the k peers nearest the recipient's key
and asks them to store a copy; the sender hears "accepted" only after a quorum has acknowledged. The recipient's
server picks its own k peers later and pulls page by page; deletes go to every holder, with a bounded retry queue.
`xor_distance`, `replica_selection`, `direct_messages`, `message_pull`, `message_network`, `delete_retry`,
`delete_retry_runs`.

**Database sync by weighted vote.** One source is paged through, validators vote on the hash of each row, the winner
is applied, weak decisions are queued. `paging`, `votes`, `validator_discovery`, `startup_sync`, `sync_runs`,
`aggregate_sync`, `sync_wire`.

**Realtime delivery, rooms and sessions.** `realtime_links` and `realtime_services` (sockets, sessions, rooms of one
node), `sessions` (records shared through Redis), `delivery`, `delivery_races` and `delivery_service` (retries and
timers).

**Scores and keep-alive.** `score_reports`, `score_aggregates`, `keep_alive`.

`ordering`, `totals`, `text` and `set_index` hold the orders, sums, composite keys and index maps the others use.

Services that change fields are classes; each method's postcondition says what its fields hold afterwards and ties
them to a specification function of the old ones, about which the properties of runs and interleavings are proved. The
code between two awaits is one step. Databases are maps, queries and writes are atomic; answers, failures, lost
acknowledgements, clocks and fresh ids are parameters or steps of the environment. `localeCompare` and the database's
collation are any strict total order; SHA-256 and signature checks are arbitrary functions, assumed injective only
where a row says so.

Where the code does not promise what one would like, a lemma gives the concrete case and another the exact condition:
an empty key that ends a page, a throw during a sync run, a second authentication of one socket, an acknowledgement
between the two halves of the retry handler, a delete passed while it is queued or retried by two runs at once, a
session restored in the middle of a query, two score reports persisted across each other, a colon in a peer id, peers
that cannot be parsed.

## Model

| member | source | states |
|---|---|---|
| `MessageNetwork.SynchronizedReaderHolds` | src/modules/direct_message/direct_message.service.ts:781-886 | Once the recipient's server has synchronized, with the peers it selected answering to the end, it holds every accepted message that is neither deleted nor expired and replays it to the recipient, whatever else happened in the network between the requests |
| `MessageNetwork.ReadMeetsWrite` | src/modules/peer_network/peer_network.service.ts:362-396 | After any run, an accepted message that is still current can be seen by a pull at the reader itself or at one of the k peers the reader selects, for any quorum of at least one |
| `MessageNetwork.AcceptedAtQuorum` | src/modules/direct_message/direct_message.service.ts:157-256 | Whenever a send has reached the accepted event, at least the configured quorum of distinct servers other than the origin has acknowledged; acknowledged and failed targets partition the targets; each acknowledging server and the origin holds a genuine copy while the message is current |
| `MessageNetwork.AcceptedIffQuorum` | src/modules/direct_message/direct_message.service.ts:183-256 | A send with a fresh id can always start, ask each target once and settle; it goes on to acceptance exactly when at least the configured quorum acknowledged, and otherwise is rejected with the origin's row gone |
| `MessageNetwork.DistanceRankingIsAllowed` | src/modules/peer_network/peer_network.service.ts:3862-3881 | The distance ranking is an order of the kind the network model assumes, for every recipient |
| `MessageNetwork.StepKeepsInv` | src/modules/direct_message/direct_message.service.ts:183-316 | Every step of every server (start of a send, one replica asked with its answer or the loss of it, settling the quorum, live and late copies, a page pulled, a pulled row stored, table sync, deletes, expiry, time) keeps: copies are genuine, live to the deadline, and sit on every acknowledging server |
| `MessageNetwork.AcceptedStays` | src/modules/direct_message/direct_message.service.ts:318-336 | The record of an accepted message never changes in any later run |
| `MessageNetwork.HolderIsReachable` | src/modules/peer_network/peer_network.service.ts:362-396 | The server that holds the message for the reader is the reader itself, the origin or the first acknowledging server, and is the reader or among the peers it selects |
| `MessageNetwork.HolderServes` | src/modules/peer_network/peer_network.service.ts:601-661 | When the holder answers all its pages, the message is among what the reader pulls, although the holder's table changes between pages |
| `MessageNetwork.RunIsLater` | src/modules/direct_message/direct_message.service.ts:699-718 | As long as nobody deleted the message and its deadline has not passed, it stays current along any run |
| `MessageNetwork.ViewIsGenuine` | src/modules/direct_message/direct_message.service.ts:570-614 | What a server shows to a pull carries the content sent under its id |
| `MessageNetwork.PulledIsCopy` | src/modules/direct_message/direct_message.service.ts:781-886 | What a server stores of a pulled payload is a genuine copy with the expiry of the send time |
| `MessageNetwork.HandlerBegins` | src/modules/direct_message/direct_message.service.ts:183-216 | The network step that starts a send writes the row the handler writes |
| `MessageNetwork.HandlerAsks` | src/modules/peer_network/peer_network.service.ts:411-449 | Asking all targets leaves the origin's queue alone and ends with exactly those acknowledged that stored the row |
| `MessageNetwork.HandlerSettles` | src/modules/direct_message/direct_message.service.ts:230-256 | The quorum step accepts under the condition of the handler's contract and otherwise removes the origin's row |
| `ReplicaSelection.SelectReplicaPeerIdsForUser` | src/modules/peer_network/peer_network.service.ts:362-396 | The scan of the ranked peers returns exactly the eligible peers with fewer than k eligible peers before them, in ranking order, for any overlap and order of the three lookups, and nothing for a count of zero or less |
| `ReplicaSelection.GetClosestPeerIdsForKey` | src/modules/peer_network/peer_network.service.ts:3776-3811 | The ranked list holds every candidate once, nearest first |
| `ReplicaSelection.SelectionIsNearest` | src/modules/peer_network/peer_network.service.ts:362-396 | No eligible peer that was left out is nearer in XOR distance than a selected one |
| `ReplicaSelection.SelectionIsUsable` | src/modules/peer_network/peer_network.service.ts:379-395 | The selection is distinct, holds only listed peers and no empty, unknown or local id, has as many members as k and the eligible peers allow, and misses nobody while there is room |
| `ReplicaSelection.WriterChoiceReachesReader` | src/modules/peer_network/peer_network.service.ts:362-396 | A peer the writer picks is picked by the reader, unless it is the reader itself or the writer has taken a place in the reader's list |
| `ReplicaSelection.SelectionsDifferByOne` | src/modules/peer_network/peer_network.service.ts:362-396 | The lists two servers select for one key differ in at most one element |
| `ReplicaSelection.ScanIsFirst` | src/modules/peer_network/peer_network.service.ts:379-395 | Filtering a ranked list from the front up to k survivors leaves the first k of the wanted set |
| `XorDistance.CreateXorDistanceHex` | src/modules/peer_network/peer_network.service.ts:3883-3894 | The byte loop writes the hexadecimal text of the XOR of both hashes, the shorter one extended with zero bytes |
| `XorDistance.HexOrderIsNumeric` | src/modules/peer_network/peer_network.service.ts:3862-3894 | For equally long byte strings the lexicographic order of the hexadecimal texts is the big-endian numeric order, and the text determines the bytes |
| `XorDistance.HexRankingIsXorRanking` | src/modules/peer_network/peer_network.service.ts:3862-3881 | Ranking hashes by the distance text is ranking them by XOR distance |
| `XorDistance.DistancesAreDistinct` | src/modules/peer_network/peer_network.service.ts:3883-3894 | Distinct hashes have distinct distances to one key |
| `DirectMessages.DirectMessageService.HandleChatMessageSend` | src/modules/direct_message/direct_message.service.ts:70-336 | When each outcome occurs, and the exact new queue for each: accepted exactly when the message is signed, both keys are known, enough replicas were selected and at least the configured quorum of them stored the row; a missed quorum removes the origin's row |
| `DirectMessages.ReplicateDirectMessageToPeers` | src/modules/peer_network/peer_network.service.ts:398-471 | Acknowledged and failed targets split the distinct valid targets by their answers; the quorum verdict is exact |
| `DirectMessages.QuorumNeverLowered` | src/modules/peer_network/peer_network.service.ts:451-456 | With k distinct valid peers selected and the configured bounds, taking the minimum with the target count leaves the configured quorum as it is |
| `DirectMessages.ReplicaCounts` | src/config/inter_server_dm.config.ts:20-30 | Whatever the environment says, 1 <= quorum <= count; values within the bounds are taken as they are |
| `DirectMessages.Delete` | src/modules/direct_message/direct_message.service.ts:616-697 | A delete request is confirmed exactly when no row with that id is left, which is when there was none or the source is a holder (or none is named) and the recipient is the row's; a refused one changes nothing; no other row is touched |
| `DirectMessages.DirectMessageService.HandleInterServerReplicateRequest` | src/modules/direct_message/direct_message.service.ts:469-568 | A verified copy is stored under its id with the message, the request's origin or else its sender, exactly the valid holders, and an expiry counted from the send time; an unverified one changes nothing, and no other row changes |
| `DirectMessages.DirectMessageService.HandleInterServerPullRequest` | src/modules/direct_message/direct_message.service.ts:570-614 | One page of the user's unexpired rows after the cursor, each with its message, origin and valid holders, and the cursor for the next |
| `DirectMessages.DirectMessageService.HandleInterServerDeleteRequest` | src/modules/direct_message/direct_message.service.ts:616-697 | Queue and answer as the delete rule says |
| `DirectMessages.DirectMessageService.HandleChatMessagePersisted` | src/modules/direct_message/direct_message.service.ts:338-424 | The recipient's confirmation removes its own row only, and names the origin and, without repetition, every valid replica |
| `DirectMessages.DirectMessageService.DeleteExpiredMessages` | src/modules/direct_message/direct_message.service.ts:699-718 | A row stays exactly when it was there and expires later, and it stays as it was |
| `DirectMessages.NormalizePeerIdList` | src/modules/direct_message/direct_message.service.ts:766-779 | No repetition, no empty and no unknown id |
| `MessagePull.PulledIds` | src/modules/peer_network/peer_network.service.ts:601-661 | No id is returned twice, and the ids are exactly the non-empty ones some target served, whether or not that target answered to the end |
| `MessagePull.PulledFromEarliest` | src/modules/peer_network/peer_network.service.ts:601-661 | Every returned row is the one served by the earliest target that served its id |
| `MessagePull.PulledComplete` | src/modules/peer_network/peer_network.service.ts:601-661 | A row that some fully answering target showed at each of its page requests is returned |
| `MessagePull.PullPendingMessagesFromReplicas` | src/modules/peer_network/peer_network.service.ts:601-661 | The loop over targets and pages computes the merge the other rows speak about; pages before a failed request are kept |
| `MessagePull.KeptMessages` | src/modules/direct_message/direct_message.service.ts:781-886 | Every signed pulled message is stored with the message, the origin and exactly the valid replicas that were handed out, each once, marked as a copy and expiring a retention period after its send time; rows of other ids are untouched |
| `MessagePull.SynchronizeUserQueueFromReplicas` | src/modules/direct_message/direct_message.service.ts:781-886 | Afterwards every signed pulled message is in the queue in that form, and no other row has changed |
| `MessagePull.HoldersAreTold` | src/modules/direct_message/direct_message.service.ts:338-424 | From replication over pull and synchronization to the recipient's confirmation the holders stay the same: the confirmation names the origin and exactly the valid replicas the replica had been told of, each once |
| `MessagePull.HandleChatSync` | src/modules/direct_message/direct_message.service.ts:426-463 | After synchronizing, exactly the user's unexpired rows are replayed, each once, in send order |
| `DeleteRetry.NoDeleteIsLost` | src/modules/peer_network/peer_network.service.ts:663-684 | After any orderly run, with lost answers and foreign changes in between, each delete that was passed is in exactly one of: first contact out, queued with attempts to spare, confirmed, given up; its target was contacted at most 1 + max times, and exactly that often when given up |
| `DeleteRetry.ConfirmedWasClear` | src/modules/peer_network/peer_network.service.ts:3663-3711 | For every confirmed delete there is the event that confirmed it: an answer that came back, before which that request was not confirmed and after which it was, and at that moment its target held no such row |
| `DeleteRetry.PassedAgain` | src/modules/peer_network/peer_network.service.ts:3713-3727 | Passing a delete again keeps it in one place exactly when it was not queued or the new contact failed too |
| `DeleteRetry.ConfirmedAndQueued` | src/modules/peer_network/peer_network.service.ts:3713-3727 | Otherwise it can be confirmed and queued at once |
| `DeleteRetry.OverlappingRetries` | src/modules/peer_network/peer_network.service.ts:3729-3774 | Two retry runs that took the same item and hear back in turn keep it in one place exactly when they heard the same or the first only put the item back |
| `DeleteRetry.OverlapConfirmsAndQueues` | src/modules/peer_network/peer_network.service.ts:3729-3774 | A run from the start in which two overlapping retry runs leave a delete confirmed and queued |
| `DeleteRetry.KeyNamesOneDelete` | src/modules/peer_network/peer_network.service.ts:3718-3720 | Queue keys name one message and one target when message ids hold no colon |
| `DeleteRetryRuns.PassAllSettles` | src/modules/peer_network/peer_network.service.ts:663-684 | Passing one message's delete to its targets at once leaves each confirmed, or queued with no attempt spent and a full interval to wait, in whatever order the answers come, and nothing else changed |
| `DeleteRetryRuns.RetryAllAdvances` | src/modules/peer_network/peer_network.service.ts:3729-3774 | One run of the loop, in any order of the map: a due item is confirmed, given up, or has one more attempt and a full interval to wait; any other item is untouched |
| `DeleteRetryRuns.OneMessageKeysDiffer` | src/modules/peer_network/peer_network.service.ts:664-669 | The deletes of one message never share a queue key |
| `DeleteRetryRuns.DeleteRetryService.SendTargetedDmDelete` | src/modules/peer_network/peer_network.service.ts:663-684 | The service's queue follows the state machine over the origin and replicas, each asked once, all first contacts going out before any answer, the answers in any order |
| `DeleteRetryRuns.DeleteRetryService.ProcessRetryQueue` | src/modules/peer_network/peer_network.service.ts:3729-3774 | The loop over the queue follows the specification of one run |
| `DeleteRetryRuns.DeleteRetryService.RetryEntry` | src/modules/peer_network/peer_network.service.ts:3737-3772 | A due item leaves the queue exactly when the target answers and holds no such row or lets it be deleted, or the attempts are used up; otherwise it has one more attempt and a full interval to wait; an item that is not due is not contacted |
| `DeleteRetry.Contact` | src/modules/peer_network/peer_network.service.ts:3663-3711 | A contact succeeds exactly when its answer arrives and the target holds no such row or lets it be deleted; it removes at most that row, also when its answer is lost |
| `Paging.ScanUnchanging` | src/modules/peer_network/sync/services/startup_sync.service.ts:338-397 | On an unchanging table of n rows the page loop ends by itself; it has then fetched the whole table in key order exactly when the empty key does not end a full page before the end, and made n / limit + 1 requests exactly when the empty key ends no full page |
| `Paging.EndsPageIsMultiple` | src/modules/peer_network/sync/services/table_sync_runner.service.ts:83-86 | The empty key ends a full page exactly when its place, counted from one, is a multiple of the page size |
| `Paging.ScanComplete` | src/modules/peer_network/sync/services/startup_sync.service.ts:338-397 | With non-empty keys, a row every answered request could see is fetched, whatever else changes between requests |
| `Paging.ScanAscending` | src/modules/peer_network/sync/services/table_sync_runner.service.ts:72-93 | Fetched keys strictly increase, so no row is fetched twice |
| `Paging.ScanSound` | src/modules/peer_network/sync/services/table_sync_runner.service.ts:144-236 | Every fetched row was in an answered request's view with that content |
| `Paging.EmptyKeyEndsScan` | src/modules/peer_network/sync/services/table_sync_runner.service.ts:83-86 | A concrete table with an empty key whose second row is never fetched |
| `Paging.ClampLimit` | src/modules/peer_network/sync/services/table_sync_runner.service.ts:73 | The page size is bounded to 1..most and left alone within |
| `StartupSync.StartupSyncService.SyncTable` | src/modules/peer_network/sync/services/startup_sync.service.ts:318-408 | The loop fetches what the scan says and hands over exactly one row per fetched row in key order. If validators holding more than half of the weight that answered for a key vote for a hash, and the source or one of them has the row with it, the row handed over has that hash; a row that is not the source's is some validator's. The weak-consensus queue holds exactly the rows without a strict majority from at least two vote batches |
| `StartupSync.StartupSyncService.SyncPage` | src/modules/peer_network/sync/services/startup_sync.service.ts:362-383 | One page keeps this whatever pages of this or other tables came before |
| `StartupSync.StartupSyncService.ResolveRowsFromConsensus` | src/modules/peer_network/sync/services/startup_sync.service.ts:464-520 | Exactly one row per source row, in order: the source's own when it carries the winning hash or nobody supplies that, otherwise the first one supplied with it; the queue gains exactly the rows that are not strong |
| `StartupSync.StartupSyncService.ResolveRow` | src/modules/peer_network/sync/services/startup_sync.service.ts:478-516 | The row is the winner of its vote, and is queued exactly for a weak vote or when no asked peer supplies the winning hash |
| `StartupSync.FlaggedIffNotStrong` | src/modules/peer_network/sync/services/startup_sync.service.ts:478-516 | The rows so queued are exactly those without a strict majority from at least two batches |
| `StartupSync.FetchRowFromSupporters` | src/modules/peer_network/sync/services/startup_sync.service.ts:522-570 | The reply of the first asked peer whose row has the expected hash, exactly when some asked peer has one |
| `StartupSync.CollectVotes` | src/modules/peer_network/sync/services/startup_sync.service.ts:410-462 | The votes are exactly those of the validators that answered, in the order asked, each with its own id, its own answers and its own weight |
| `StartupSync.WeightedMajorityIsApplied` | src/modules/peer_network/sync/services/startup_sync.service.ts:362-383 | What the votes decide, said about the validators' own weights: whatever a majority of the answering weight backs is applied, wherever it can be had |
| `StartupSync.WeightsReachVotes` | src/modules/peer_network/sync/services/startup_sync.service.ts:434-462 | The weight that the votes give a hash is the sum of the discovered weights of the validators that voted for it |
| `StartupSync.RowIsGiven` | src/modules/peer_network/sync/services/startup_sync.service.ts:478-516 | A row that is applied is the source's or what some validator answered when asked for it |
| `StartupSync.StartupSyncService.EnqueueWeakConsensusRow` | src/modules/peer_network/sync/services/startup_sync.service.ts:572-581 | Only that entry is added |
| `StartupSync.QueueKeyInjective` | src/modules/peer_network/sync/services/startup_sync.service.ts:572-581 | A queue key names one table and one row |
| `Votes.ResolveRowConsensus` | src/modules/peer_network/sync/services/vote_verification.service.ts:28-77 | The loop picks a hash of maximal weight, the least one on ties, with its supporters in voting order; weak exactly without a strict majority or with at most one batch |
| `Votes.ChooseHashes` | src/modules/peer_network/sync/services/vote_verification.service.ts:19-26 | One result per row, each as promised |
| `Votes.WeightsSumToResponding` | src/modules/peer_network/sync/services/vote_verification.service.ts:36-50 | The weights of all hashes add up to the responding weight |
| `Votes.MajorityWins` | src/modules/peer_network/sync/services/vote_verification.service.ts:60-76 | A hash with more than half of the responding weight is chosen whatever the others vote |
| `Votes.NotWeakMeansMajority` | src/modules/peer_network/sync/services/vote_verification.service.ts:68-76 | A row is not weak exactly when there are two batches and some hash has a strict majority |
| `Votes.OneVoiceSuffices` | src/modules/peer_network/sync/services/vote_verification.service.ts:68-76 | One voter plus a batch silent on the row is enough for it not to be weak: batches are counted, not voices |
| `Votes.ConsensusIgnoresOrder` | src/modules/peer_network/sync/services/vote_verification.service.ts:28-77 | Chosen hash, weak flag and the supporters as a collection do not depend on the order of the votes |
| `ValidatorDiscovery.DiscoverValidators` | src/modules/peer_network/sync/services/validator_discovery.service.ts:23-80 | The validators are the first places of the ranking; each weighs its aggregate's mean, or 50 without one, rounded into 1..100 |
| `ValidatorDiscovery.HeaviestChosen` | src/modules/peer_network/sync/services/validator_discovery.service.ts:59-79 | As many known servers as there are places, heaviest first and ties by id; whoever is left out weighs less than every chosen one, or the same with a later id; the order of the rows does not matter |
| `ValidatorDiscovery.Weight` | src/modules/peer_network/sync/services/validator_discovery.service.ts:63 | Weights lie in 1..100 and round the mean score within that range |
| `SyncRuns.RunsCoalesce` | src/modules/peer_network/sync/services/startup_sync.service.ts:98-139 | In every interleaving at most one execution is in flight, executions never exceed requests, and the queue flag is cleared only right before an execution starts |
| `SyncRuns.NoRequestLost` | src/modules/peer_network/sync/services/startup_sync.service.ts:98-139 | Without a throw, once idle every request was followed by an execution |
| `SyncRuns.IdleLosesIff` | src/modules/peer_network/sync/services/startup_sync.service.ts:98-139 | For every run that ends idle: a request is left waiting exactly when it arrived during an execution that threw and no request came later |
| `SyncRuns.ThrowLosesWhatArrived` | src/modules/peer_network/sync/services/startup_sync.service.ts:115-130 | An execution that throws leaves requests waiting exactly when one arrived while it ran |
| `SyncRuns.NormalEndServesAll` | src/modules/peer_network/sync/services/startup_sync.service.ts:115-121 | A normal end leaves nobody waiting |
| `SyncRuns.WaitingIsQueued` | src/modules/peer_network/sync/services/startup_sync.service.ts:98-139 | A waiting request always has the queue flag set |
| `SyncRuns.ThrowLosesRequest` | src/modules/peer_network/sync/services/startup_sync.service.ts:98-139 | A concrete run in which a throw loses a request |
| `SyncRuns.StartupSyncRuns.RunSync` | src/modules/peer_network/sync/services/startup_sync.service.ts:98-120 | The fields follow the state machine when a request arrives |
| `AggregateSync.GreatestRemains` | src/modules/peer_network/sync/services/table_sync_runner.service.ts:548-584 | After any sequence of honest envelopes a target holds a received or own row with the greatest update time |
| `AggregateSync.SameSetSameTable` | src/modules/peer_network/sync/services/table_sync_runner.service.ts:548-584 | Nodes applying the same set of envelopes, in any order and multiplicity, agree, given one content per target and instant |
| `AggregateSync.NeverLowered` | src/modules/peer_network/sync/services/table_sync_runner.service.ts:548-584 | Applying never lowers a target's update time and drops no target |
| `AggregateSync.RoundTrip` | src/modules/peer_network/sync/services/table_sync_runner.service.ts:308-337 | A row written from an honest envelope encodes to that envelope again, hash included |
| `AggregateSync.VoteBacksOwnContent` | src/modules/peer_network/sync/services/table_sync_runner.service.ts:95-121 | A server's vote backs an envelope exactly when it holds the row the envelope was made from |
| `AggregateSync.AppliedIsBacked` | src/modules/peer_network/sync/services/table_sync_runner.service.ts:95-121 | After applying an envelope the server votes for it as long as only older rows follow |
| `AggregateSync.TableSyncRunner.HandleFetchRequest` | src/modules/peer_network/sync/services/table_sync_runner.service.ts:72-93 | One page of honest envelopes, each under its own key |
| `AggregateSync.TableSyncRunner.HandleVerifyRequest` | src/modules/peer_network/sync/services/table_sync_runner.service.ts:95-121 | One vote per asked key: the hash of the own row, or none |
| `AggregateSync.TableSyncRunner.ApplyRows` | src/modules/peer_network/sync/services/table_sync_runner.service.ts:134-138 | Rows are applied in order; rows of other tables leave the aggregates alone |
| `AggregateSync.TableSyncRunner.ApplyServerScoreAggregate` | src/modules/peer_network/sync/services/table_sync_runner.service.ts:548-584 | A strictly newer own row is kept; otherwise the row filed under the envelope's key carries what the envelope carries; no other row changes |
| `RealtimeLinks.RoomsAndConnectionsAgree` | src/modules/realtime/services/realtime_room.service.ts:168-239 | In every interleaving of connects, authentications, room syncs, control messages and disconnects, split at their awaits: the two room maps are exact inverses without empty sets, the session index is the exact inverse of the authenticated sockets, and every session in rooms has a live socket |
| `RealtimeLinks.StepKeepsInv` | src/modules/realtime/realtime.gateway.ts:81-155 | Each piece of a handler keeps these agreements |
| `RealtimeLinks.StepDoes` | src/modules/realtime/services/realtime_room.service.ts:136-239 | What each piece of a handler does to sockets, sessions and rooms, at every node of every run: which session is in which rooms afterwards, which socket is listed where, and that everything else is as it was; a session leaves all its rooms exactly with its last socket |
| `RealtimeLinks.MarkKeepsExactIff` | src/modules/realtime/services/realtime_connection.service.ts:36-63 | Marking a socket authenticated keeps the index exact exactly when it was not authenticated for another session |
| `RealtimeLinks.SecondAuthenticationLeaks` | src/modules/realtime/services/realtime_connection.service.ts:36-63 | Otherwise a dead client stays in the index after disconnecting |
| `RealtimeLinks.SyncSetsExactly` | src/modules/realtime/services/realtime_room.service.ts:192-198 | A sync puts a live session into exactly the given rooms and a session without a socket into none |
| `RealtimeServices.RealtimeConnectionService.MarkAuthenticated` | src/modules/realtime/services/realtime_connection.service.ts:36-63 | A known socket is authenticated for the session and listed under it, keeping its socket id; no other socket or session is touched; an unknown one changes nothing |
| `RealtimeServices.RealtimeConnectionService.RemoveClient` | src/modules/realtime/services/realtime_connection.service.ts:151-177 | The socket is gone from both maps and from no other session; the removed state is returned |
| `RealtimeServices.RealtimeRoomService.ClearLocalMemberships` | src/modules/realtime/services/realtime_room.service.ts:136-158 | The loop takes the session out of all its rooms, drops emptied rooms and changes nobody else's |
| `RealtimeServices.RealtimeRoomService.SyncLocalRooms` | src/modules/realtime/services/realtime_room.service.ts:192-198 | Afterwards both maps say that a session with a socket is in exactly the given rooms, one without in none, and every other session where it was |
| `RealtimeServices.RealtimeRoomService.HandleRoomControlReplace` | src/modules/realtime/services/realtime_room.service.ts:168-190 | With a local socket the session is afterwards in exactly the rooms of the message, by both maps, and every other session where it was; without one nothing changes |
| `RealtimeServices.RealtimeRoomService.HandleRoomControlJoin` | src/modules/realtime/services/realtime_room.service.ts:168-190 | With a local socket and a room name exactly this membership is added; otherwise nothing changes |
| `RealtimeServices.RealtimeRoomService.HandleRoomControlLeave` | src/modules/realtime/services/realtime_room.service.ts:168-190 | With a local socket and a room name exactly this membership is taken away; otherwise nothing changes |
| `RealtimeServices.RealtimeGateway.HandleDisconnect` | src/modules/realtime/realtime.gateway.ts:81-92 | The socket is forgotten; its session leaves all its rooms exactly when this was its last socket; nothing else changed |
| `RealtimeServices.RealtimeGateway.AuthConnectSession` | src/modules/realtime/realtime.gateway.ts:125-136 | The composite step up to the next await: the socket is authenticated and listed, and rooms are as they were |
| `Sessions.AnswerIsExact` | src/modules/realtime/services/realtime_session.service.ts:128-158 | After any run over several nodes with records expiring at any time, the query returns exactly the user's active sessions |
| `Sessions.OwnerNeverChanges` | src/modules/realtime/services/realtime_session.service.ts:21-69 | A session id keeps its owner for ever, and every active record is in its owner's index |
| `Sessions.QueryChangesNoAnswer` | src/modules/realtime/services/realtime_session.service.ts:141-157 | The pruning of a query changes no answer now or after any further run |
| `Sessions.LateRemovalIsSafeIff` | src/modules/realtime/services/realtime_session.service.ts:149-155 | The removal at the end of a query cut at its awaits keeps the index complete, and the answer exact, exactly when none of the ids it takes for stale has become active again |
| `Sessions.RestoredSessionIsLost` | src/modules/realtime/services/realtime_session.service.ts:128-157 | A run in which a session restored between a query's reads and its removal is active and no query finds it |
| `Sessions.PiecesMakeQuery` | src/modules/realtime/services/realtime_session.service.ts:128-157 | With nothing in between, the pieces of a query are the whole query |
| `Sessions.PruneKeepsActive` | src/modules/realtime/services/realtime_session.service.ts:141-157 | Pruning removes no active id of any user |
| `Sessions.GraceDecides` | src/modules/realtime/services/realtime_session.service.ts:21-126 | A session that was closed can be resumed exactly by its own user and exactly within the grace period, whatever happens to other sessions meanwhile, and is not active until then |
| `Sessions.RealtimeSessionService.CreateOrRestoreSession` | src/modules/realtime/services/realtime_session.service.ts:21-69 | Restores exactly when the record is the user's and not past its deadline, otherwise opens the new id; in both cases the record is this user's, this node's, active and good for the grace period, it is listed under the user, and nothing else changed |
| `Sessions.RealtimeSessionService.MarkSessionDisconnected` | src/modules/realtime/services/realtime_session.service.ts:104-126 | The record stays, inactive and good for the grace period, and is no longer listed; another node's active session is left alone; nothing else changed |
| `Sessions.RealtimeSessionService.TouchSession` | src/modules/realtime/services/realtime_session.service.ts:82-102 | A known session is good for another grace period and, if active, listed; an unknown one changes nothing |
| `Sessions.RealtimeSessionService.GetActiveSessionIds` | src/modules/realtime/services/realtime_session.service.ts:128-158 | Exactly the listed ids whose record is the user's and active; the others are no longer listed under the user, and nothing else changed |
| `Delivery.DeliveryTerminates` | src/modules/realtime/services/realtime_delivery.service.ts:153-190 | In every interleaving: the stored attempt equals the number of timer firings and stays within 0..max, first and retry sends carry strictly increasing attempts, at most max + 1 of them, and at most max + 1 firings occur |
| `Delivery.ContentIsDelivered` | src/modules/realtime/services/realtime_delivery.service.ts:41-56 | In every run, what is stored for a key and every first and retry send of it carries the body of the event that delivered it, stamped with that event's time; a key that was not delivered is neither stored nor sent |
| `Delivery.LeavesOnlyByAckOrExhaustion` | src/modules/realtime/services/realtime_delivery.service.ts:107-151 | When timers are less than a grace period late, a stored envelope leaves only by its acknowledgement or by exhaustion; its hash never expires |
| `Delivery.PendingIsTimed` | src/modules/realtime/services/realtime_delivery.service.ts:127-139 | Every stored envelope has a timer due at least a grace period before its hash expires |
| `Delivery.GoneStaysGone` | src/modules/realtime/services/realtime_delivery.service.ts:153-190 | With whole handlers as steps, an envelope that is gone is never stored again |
| `DeliveryRaces.GoneComesBackIff` | src/modules/realtime/services/realtime_delivery.service.ts:153-190 | With the timeout handler cut at its first await and any number of them under way: an envelope that is gone, as after its acknowledgement, is stored again exactly when a handler had read it with retries left and gets to write |
| `DeliveryRaces.SplitContentIsDelivered` | src/modules/realtime/services/realtime_delivery.service.ts:153-190 | The same with timeout handlers cut at their first await, also for what the handlers have read |
| `DeliveryRaces.AcknowledgementIsOverwritten` | src/modules/realtime/services/realtime_delivery.service.ts:153-179 | A run from the start in which an acknowledged envelope is stored again |
| `DeliveryRaces.PiecesMakeTimeout` | src/modules/realtime/services/realtime_delivery.service.ts:153-190 | With nothing in between, the two pieces are the whole handler |
| `DeliveryService.RealtimeDeliveryService.HandleRetryTimeout` | src/modules/realtime/services/realtime_delivery.service.ts:153-190 | With an envelope and retries left, the same envelope with the next attempt is stored for another session lifetime, sent if there is a socket, and due again after the backoff of that attempt; otherwise the envelope and its timer are gone; no other envelope changes |
| `DeliveryService.RealtimeDeliveryService.DeliverToSession` | src/modules/realtime/services/realtime_delivery.service.ts:41-56 | With a socket the envelope is stored, sent and due in two seconds; without one nothing changes |
| `DeliveryService.RealtimeDeliveryService.Acknowledge` | src/modules/realtime/services/realtime_delivery.service.ts:58-68 | The envelope and its timer are gone, all others stay; the answer says whether there was one |
| `DeliveryService.RealtimeDeliveryService.ReplayPendingForSession` | src/modules/realtime/services/realtime_delivery.service.ts:70-90 | Exactly the stored envelopes are sent again, each once, as stored and oldest first, and each waits once more as its attempt says; other timers and all envelopes are as they were, and the hash lives for another session lifetime |
| `ScoreReports.RunKeepsOne` | src/modules/peer_network/peer_network.service.ts:2779-2861 | Over every run of arriving reports, expiry and time, a pair has at most one unexpired report |
| `ScoreReports.NeverGoesBack` | src/modules/peer_network/peer_network.service.ts:2806-2821 | What is observed of a pair never goes back while it is shown without a gap |
| `ScoreReports.ArrivalStores` | src/modules/peer_network/peer_network.service.ts:2779-2861 | An arriving report is dropped exactly when an unexpired one of its pair is newer; otherwise it is stored as it is, the unexpired older ones of its pair are gone and all others are as they were |
| `ScoreReports.LateWriteKeepsOneIff` | src/modules/peer_network/peer_network.service.ts:2823-2861 | A write decided on an older table keeps one report per pair exactly when the decision still stands or the report is expired on arrival |
| `ScoreReports.CrossedPersistsLeaveTwo` | src/modules/peer_network/peer_network.service.ts:2786-2861 | Two persists that both look before either writes can leave two unexpired reports |
| `ScoreAggregates.ComputeCandidateAggregates` | src/modules/peer_network/peer_network.service.ts:2918-3009 | When no two pairs share a map key: exactly the targets asked for with a fresh report have an entry; over each reporter's newest report that is unexpired and within the age limit, the mean times the count is the sum of the stored scores, the count is their number and the latest time is one of theirs and their maximum. It is exact only in that case |
| `ScoreAggregates.FirstIsNewestIff` | src/modules/peer_network/peer_network.service.ts:2949-2957 | The first report per map key is each reporter's newest one exactly when the keys tell all pairs apart |
| `ScoreAggregates.ColonHidesReport` | src/modules/peer_network/peer_network.service.ts:2951-2957 | Two concrete reports of which one hides the other because ids contain a colon |
| `ScoreAggregates.PlainIdsDistinguish` | src/modules/peer_network/peer_network.service.ts:2951-2957 | Reporter ids without a colon keep all pairs apart |
| `ScoreAggregates.OneTargetDistinguishes` | src/modules/peer_network/peer_network.service.ts:2932-2938 | So does asking for a single target, whatever the ids |
| `ScoreAggregates.MeanWithinRange` | src/modules/peer_network/peer_network.service.ts:2990-2997 | The mean lies within 0..100 |
| `ScoreAggregates.CountsReporters` | src/modules/peer_network/peer_network.service.ts:2959-2987 | A target has an entry exactly when it has a fresh report, and each reporter counts once |
| `ScoreAggregates.RestrictedSame` | src/modules/peer_network/peer_network.service.ts:2932-2938 | Restricting the query to some targets gives each the same entry as computing all |
| `ScoreAggregates.NothingPassedOver` | src/modules/peer_network/peer_network.service.ts:2849-2861 | With one report per pair no fresh report is passed over |
| `ScoreAggregates.LatestReports` | src/modules/peer_network/peer_network.service.ts:2949-2957 | The first loop keeps one report per map key, none older than another of that key |
| `ScoreAggregates.TallyByTarget` | src/modules/peer_network/peer_network.service.ts:2959-2987 | The second loop: sum, count and maximum per target |
| `ScoreAggregates.ScoreReportService.PersistServerScoreReport` | src/modules/peer_network/peer_network.service.ts:2779-2870 | The report is stored exactly when no newer unexpired one of its pair exists, replacing the older unexpired ones and touching no other; then the target's stored aggregate summarises its fresh reports |
| `ScoreAggregates.ScoreReportService.RecomputeScoreAggregateForTarget` | src/modules/peer_network/peer_network.service.ts:2872-2916 | The target's stored aggregate is the mean, count and latest time of its fresh reports as of now, or gone without one, whatever the ids look like; other targets are untouched |
| `ScoreAggregates.ScoreReportService.DeleteExpiredServerScoreReports` | src/modules/peer_network/peer_network.service.ts:3011-3026 | Exactly the unexpired reports are left, as they were |
| `KeepAlive.ExactIffFixable` | src/modules/peer_network/peer_network.service.ts:1513-1615 | After a run the tagged peers and roles are the desired ones exactly when every wanted peer has its role under one tag or can be parsed, and every tagged unwanted peer has an id; other tags never change, and a wanted peer that cannot be parsed keeps what it has |
| `KeepAlive.UnparsableIsMissed` | src/modules/peer_network/peer_network.service.ts:1542-1546 | A store and desired map with an unparsable peer that stays untagged |
| `KeepAlive.SecondTagIsKept` | src/modules/peer_network/peer_network.service.ts:1521-1540 | A peer with both tags keeps both when wanted as a bootstrap peer |
| `KeepAlive.ParsableIsEnough` | src/modules/peer_network/peer_network.service.ts:1539-1576 | With one tag per peer and parsable ids it is exact, and one tag per peer is kept |
| `KeepAlive.SecondRunDoesNothing` | src/modules/peer_network/peer_network.service.ts:1539-1615 | A second run with the same desired peers applies and removes nothing and changes nothing |
| `KeepAlive.KeepAliveService.ReconcileKeepAliveTags` | src/modules/peer_network/peer_network.service.ts:1487-1625 | The two loops bring the store in line with the desired peers; the counts are the numbers of peers changed |
| `KeepAlive.KeepAliveService.BuildDesiredKeepAlivePeers` | src/modules/peer_network/peer_network.service.ts:1771-1797 | The bootstrap peers, and the ranked first of all others as core peers |
| `KeepAlive.SelectCoreKeepAlivePeerIds` | src/modules/peer_network/peer_network.service.ts:1799-1911 | The first core_count candidates of the ranking, whatever order the peers are listed in |
| `KeepAlive.CoreIsBest` | src/modules/peer_network/peer_network.service.ts:1771-1797 | A core peer outranks every known peer that was passed over: by mean score, then number of reports, then being connected, then the latest contact, then id; there are exactly core_count as long as someone was passed over, and never more |
| `KeepAlive.RolesAreExact` | src/modules/peer_network/peer_network.service.ts:1771-1797 | Bootstrap peers are exactly the configured ones with a real id of another server, core peers are known and not among them, and there is no third kind |
| `KeepAlive.RankingOutranks` | src/modules/peer_network/peer_network.service.ts:1868-1908 | The sort ranks one peer before another exactly when it is better at the first criterion in which they differ |
| `KeepAlive.DesiredIsUnique` | src/modules/peer_network/peer_network.service.ts:1799-1911 | The desired peers depend on the facts alone |

## Left out

- libp2p streams and dialling, WebSocket frames, Redis pub/sub, framework wiring, tracing and logging: foreign calls; they appear as answers, failures and lost acknowledgements.
- Ed25519 and SHA-256: signature verification and hashes are uninterpreted functions.
- Delete gossip: no service publishes it.
- Apply rules of the tables other than score aggregates: they compare timestamps set by the database itself, so no last-writer-wins law holds for them.
- Presence records, heartbeat and pong counting, redialling of keep-alive peers, user profiles, request validation, environment parsing: only easy members.
- Calendar arithmetic of expiry dates: a fixed retention length; the score report's `createdAt` tie-break is left out because a pair has one report per observation time.
- Trimming and lower-casing of ids: ids are taken as already trimmed.
- The choice and retries of the manifest source, and the time limit around a table's sync: when it runs out the code goes on to the next table while the timed-out one keeps running beside it; pages of several tables then alternate, which the contract of a page allows, but two pages at work at the same time are not modelled.
- Switches that turn sync off: with sync off a request does nothing.
- Numeric settings are taken as whole numbers; a negative retry limit is not modelled.
- MessageNetwork.SynchronizedReaderHolds: assumes that both servers see the same peer set and configuration, that message ids are fresh, and that direct messages arriving by table sync are genuine copies; the code relies on the same but does not enforce it.
- Delivery.DeliveryTerminates: each handler is one step; what happens between the halves of a timeout handler is stated in `delivery_races`.
- DeleteRetry.NoDeleteIsLost: assumes that retry runs do not overlap and that a delete is not passed while it is under way; both conditions are shown to be needed.
- Sessions.AnswerIsExact: each call is one step; a query cut at its awaits has lemmas of its own, other calls are not cut.
- Sessions.RealtimeSessionService.GetActiveSessionIds: relies on Redis never keeping an empty set.
- ScoreReports.RunKeepsOne: a persist is one step; what happens when two of them cross is stated by two lemmas of their own. Writes to the report table by database sync are not modelled.
- ScoreAggregates.ComputeCandidateAggregates: returns the entries by target; the order of the code's result list is not modelled, since its users look entries up or rank them again.
- The numeric values libp2p stores with keep-alive tags: only which tags a peer carries is modelled.
- KeepAlive.KeepAliveService.ReconcileKeepAliveTags: nothing else changes the peer store during a run; the peer store being unavailable is not modelled.
- AggregateSync.TableSyncRunner.ApplyRows: an envelope of the aggregate table whose payload has another table's fields is skipped.
- RealtimeLinks.RoomsAndConnectionsAgree: each socket is authenticated at most once at the moment it is marked; two authentications of one socket awaiting at the same time are covered by the leak lemma.
