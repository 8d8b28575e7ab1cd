# Verified model of the VeilKnit daemon's caches, queues and publication protocols

The daemon keeps bounded in-memory structures that must agree with one another
(a message hub, a peer discovery cache, sessions, leases) and publishes state in
several writes that may be interrupted or read half-way (blobs on disk, a
directory and a recovery backup in the DHT).  This project states what those
structures keep and what those protocols guarantee, over every run.

| file | part of the daemon |
|---|---|
| `MessageHub.dfy` | message hub: queues, arrival order, window and count as views of one list |
| `MessageDelivery.dfy`, `MessageLiveness.dfy` | publisher and subscriber as interleaved steps; delivery in every run and under every fair schedule |
| `MessageAcknowledged.dfy` | a drained subscriber has emptied its queue |
| `MessageFlood.dfy` | a message delivered twice behind heavy traffic |
| `DiscoverySets.dfy`, `DiscoveryAssociations.dfy`, `DiscoverySpec.dfy` | two-tier peer sets, associations, the cache's operations and capacity passes |
| `DiscoveryPaging.dfy`, `DiscoveryRuns.dfy`, `DiscoveryCache.dfy` | result pages, runs of the cache, the cache as updated in place |
| `DiscoveryRotation.dfy`, `DiscoverySameSecond.dfy` | rotation over runs, and a repeat within one second |
| `DiscoveryTombstones.dfy` | how long a record lasts, and AppInfo that arrives late |
| `PrivateStorage.dfy`, `PrivateCache.dfy`, `PrivateVault.dfy` | chunked blobs, cache pruning, the vault with its crash points |
| `Directory.dfy` | two-record directory publication |
| `Recovery.dfy` | commit-marker upload, download and wipe |
| `IdentitySessions.dfy`, `Identity.dfy` | challenges, sessions, and the bytes that are hashed and signed |
| `IdentityAccounts.dfy` | which credential lets an application in, and for how long |
| `ActivityLeases.dfy` | activity leases and the walk cooldown |
| `Basics.dfy`, `Encoding.dfy`, `Sorting.dfy` | shared vocabulary |

Each stateful component is a class whose methods follow the code and are proved
against functions or relations on a value (`Now()`); theorems about runs are
lemmas over those.  `history` fields hold the state after every single write:
their entries are the moments at which a crash can strike or a reader can look.
Hash tables are iterated in any order; where the code sorts such a listing, ties
may fall either way, and the theorems hold for each.

## Findings

Where the code does less than its design promises, the model follows the code: a
lemma exhibits the case, and another says when the promise holds.

- A key can slide out of the hub's window while its message is still queued; the
  message is then accepted again and written twice (`DeliveredTwice`).  Over whole
  runs the window keeps keys distinct exactly as long as no publication pushes the
  key of a pending message out of it, and then nothing is written twice
  (`CoveredThroughoutIff`, `FreeSlidesWriteOnce`).
- The DHT layer turns the value `0`, and any spelling of "null" between white
  space, into "no value".  A recovery chunk with those bytes is lost: a backup
  whose ciphertext is one byte longer than a whole number of chunks is unreadable
  whenever that byte is `0` (`RoundTripIff`, `LostBackup`).
- Lease changes between the two locked sections of a tick can defeat the walk
  cooldown (`RetakeDefeatsCooldown`); `ChangesBetweenSectionsIff` and
  `RunCoolingIff` say exactly which.  With the sections together the cooldown
  holds for any clock, also one that steps back.
- Directory readers mix versions exactly when the publisher writes a different
  record under a generation its pointer already carries (`MixedIff`).  That
  happens when memory lags behind the pointer, after a pointer write that took
  effect but was reported as failed, or when the counter is saturated
  (`ReusesIff`), and never otherwise (`LevelNeverReuses`).
- Values lack the blobs' crash safety: after a crash inside an overwrite the key
  is readable exactly when old and new value have the same length
  (`CrashedOverwriteIff`).
- Calls within one second can repeat a peer before another had its turn
  (`SameSecondRepeats`); `RepeatsBeforeIff` says exactly when.
- A record that keeps an older AppInfo out can be lost long before its 180 days: in
  a full cache one newly observed peer evicts the oldest unreferenced record
  (`PeerCutTakesIff`, `OneRecordGoes`), and blocking a peer drops its record.  An
  older AppInfo then restores the memberships (`OlderInfoRestores`);
  `OlderInfoTakenIff` says exactly when one is taken over.
- Several defensive branches can never be taken: the hub's reset of a count
  without markers, the recovery chunk-count guard, the last archive top-up of a
  page, the skipped result for a peer without a record, the capacity pass inside
  pruning, and four of the checks that finish an authentication.

## Model

| member | source | states |
|---|---|---|
| `HubSpec.JoinedInjective` | Windows/Source/VeilKnitDaemon_src/src/api/local.rs:5452-5457 | two messages are stored under one key text exactly when they agree in application, sender and message id, given that the first two contain no separator |
| `HubSpec.PublishKeepsCaps` | Windows/Source/VeilKnitDaemon_src/src/api/local.rs:1646-1685 | publishing into a hub within both caps stays within both, always keeps the new message last, and evicts an older one exactly when a cap is reached |
| `HubSpec.VictimIsOldest` | Windows/Source/VeilKnitDaemon_src/src/api/local.rs:1651-1685 | what a full hub evicts is the oldest of its application, and the oldest of all when only the global cap is reached |
| `HubSpec.PublishTakesOne` | Windows/Source/VeilKnitDaemon_src/src/api/local.rs:1646-1685 | publishing appends the message and takes out the victim, if any; everyone else keeps their order |
| `HubSpec.AcknowledgeKeepsCaps` | Windows/Source/VeilKnitDaemon_src/src/api/local.rs:1708-1724 | acknowledging keeps both caps |
| `HubSpec.AcknowledgeTakesOne` | Windows/Source/VeilKnitDaemon_src/src/api/local.rs:1708-1724 | acknowledging a pending key takes out the oldest message with it and leaves every other message in its order |
| `HubSpec.AcknowledgedQueues` | Windows/Source/VeilKnitDaemon_src/src/api/local.rs:1708-1724 | the key is pending once less, every other key as often as before, the queues of other applications are the same, and with distinct keys the key is pending no more |
| `HubSpec.OldestIsHead` | Windows/Source/VeilKnitDaemon_src/src/api/local.rs:1651-1666 | the first message of an application in global order is the head of its queue, and removing it there leaves the tail of the queue |
| `HubSpec.PositionInQueue` | Windows/Source/VeilKnitDaemon_src/src/api/local.rs:1708-1724 | the first message with a key is found at corresponding places in the global order and in its application's queue |
| `MessageHub.MarkerOfPosition` | Windows/Source/VeilKnitDaemon_src/src/api/local.rs:5459-5470 | removing the first marker with a key removes the marker of the first message with that key, even when the key is pending twice |
| `MessageHub.MirrorDrop` | Windows/Source/VeilKnitDaemon_src/src/api/local.rs:1651-1685 | queues, arrival order and count stay three views of one list when a message is removed from each where each finds it |
| `MessageHub.MirrorAppend` | Windows/Source/VeilKnitDaemon_src/src/api/local.rs:1646-1649 | the same for an arrival |
| `MessageHub.CountIsSum` | Windows/Source/VeilKnitDaemon_src/src/api/local.rs:1601-1607 | while the three views agree, the running count is the sum of the queue lengths |
| `MessageHub.AppMessageHub.Remember` | Windows/Source/VeilKnitDaemon_src/src/api/local.rs:1636-1644 | the window keeps its set and its order in step, distinct and at most 32,768 long |
| `MessageHub.AppMessageHub.TrimApp` | Windows/Source/VeilKnitDaemon_src/src/api/local.rs:1651-1666 | the per-application loop removes exactly the application's oldest message when it is over its cap, keeping the mirror |
| `MessageHub.AppMessageHub.TrimGlobal` | Windows/Source/VeilKnitDaemon_src/src/api/local.rs:1668-1685 | the global loop removes exactly the oldest message when the hub is over its cap; its fallback for a count without markers is dead code |
| `MessageHub.AppMessageHub.EvictOldest` | Windows/Source/VeilKnitDaemon_src/src/api/local.rs:1669-1684 | one round takes the oldest message out of all three structures |
| `MessageHub.AppMessageHub.Enqueue` | Windows/Source/VeilKnitDaemon_src/src/api/local.rs:1630-1687 | the locked half of `publish` refines the list specification and keeps mirror, window and caps |
| `MessageHub.AppMessageHub.Acknowledge` | Windows/Source/VeilKnitDaemon_src/src/api/local.rs:1708-1724 | the key is pending once less, every other message stays in its order, and the mirror holds |
| `MessageHub.AppMessageHub.Snapshot` | Windows/Source/VeilKnitDaemon_src/src/api/local.rs:1690-1706 | a snapshot is the application's pending messages in arrival order |
| `MessageDelivery.StepSafe` | Windows/Source/VeilKnitDaemon_src/src/api/local.rs:2900-2947 | every step of publisher and subscriber keeps: an accepted message is delivered, evicted or still pending, and a pending one is delivered or on its way unless lag is being handled |
| `MessageDelivery.WrittenAsAccepted` | Windows/Source/VeilKnitDaemon_src/src/api/local.rs:2914-2943 | over every run the subscriber is sent only messages the hub accepted for its application, each with the payload it was accepted with |
| `MessageDelivery.EvictedIff` | Windows/Source/VeilKnitDaemon_src/src/api/local.rs:1651-1685 | the keys recorded as evicted are exactly those of the application of which the publication drops a copy |
| `MessageDelivery.NothingLost` | Windows/Source/VeilKnitDaemon_src/src/api/local.rs:1630-1724 | in every run that ends drained, each accepted message was written, itself unless another was accepted under its key, or evicted by a cap since its key was last accepted |
| `MessageAcknowledged.DrainedQueueIsEmpty` | Windows/Source/VeilKnitDaemon_src/src/api/local.rs:2914-2947 | in every run that ends drained, every pending copy of every key has been acknowledged: the queue of the application is empty |
| `MessageDelivery.WrittenOnceIffSnapshotDistinct` | Windows/Source/VeilKnitDaemon_src/src/api/local.rs:2914-2943 | in every run nothing is written twice exactly when the first snapshot held distinct keys |
| `MessageDelivery.OwnStepOwesLess` | Windows/Source/VeilKnitDaemon_src/src/api/local.rs:2914-2947 | every owed broadcast and every step of the subscriber, whichever is taken, leaves less to do and changes nothing accepted, evicted or written |
| `MessageDelivery.StuckIffQuiescent` | Windows/Source/VeilKnitDaemon_src/src/api/local.rs:2914-2947 | no such step is possible exactly when everything is broadcast, received, written and acknowledged |
| `MessageDelivery.EveryScheduleDrains` | Windows/Source/VeilKnitDaemon_src/src/api/local.rs:2914-2947 | however those steps are scheduled, they end, and they end there |
| `MessageDelivery.DrainEnds` | Windows/Source/VeilKnitDaemon_src/src/api/local.rs:2921-2947 | such a drain exists from every safe state |
| `MessageDelivery.DeliveredWhenQuiet` | Windows/Source/VeilKnitDaemon_src/src/api/local.rs:1630-1724 | after any run, once nobody publishes any more, each accepted message not evicted since is written, itself unless another was accepted under its key, under any schedule of what is then owed, and at one position if the first snapshot held distinct keys |
| `MessageLiveness.StepNoFurther` | Windows/Source/VeilKnitDaemon_src/src/api/local.rs:2900-2947 | no step of anyone, publishers and other subscribers included, takes a message that is neither written nor evicted further from being written; the step its stage waits for brings it closer |
| `MessageLiveness.EventuallySettled` | Windows/Source/VeilKnitDaemon_src/src/api/local.rs:2900-2947 | in every fair schedule of all steps, however much is published and however often the channel lags, an accepted message is in the end written, itself unless another was accepted under its key, or evicted by a cap |
| `MessageLiveness.ExactlyOnce` | Windows/Source/VeilKnitDaemon_src/src/api/local.rs:1630-1724 | the same from the initial state for a message accepted at any moment; at no moment is anything written that was not accepted for the application, nor anything twice if the first snapshot held distinct keys |
| `PendingTwice.PublishDistinctIff` | Windows/Source/VeilKnitDaemon_src/src/api/local.rs:1633-1685 | a publication leaves pending keys distinct exactly when its key is not among the surviving messages |
| `PendingTwice.WindowKeepsDistinct` | Windows/Source/VeilKnitDaemon_src/src/api/local.rs:1636-1644 | while the window covers the queue keys stay distinct, and it keeps covering it exactly when the key sliding out of a full window is not pending |
| `PendingTwice.CoveredThroughoutIff` | Windows/Source/VeilKnitDaemon_src/src/api/local.rs:1636-1649 | over a whole run the window covers the queue, and pending keys stay distinct, exactly when no publication pushes the key of a pending message out of it |
| `PendingTwice.FreeSlidesWriteOnce` | Windows/Source/VeilKnitDaemon_src/src/api/local.rs:1630-1724 | in every run without such a publication nothing is pending twice and nothing is written twice |
| `MessageFlood.DeliveredTwice` | Windows/Source/VeilKnitDaemon_src/src/api/local.rs:1636-1649 | for every message and every 32,768 messages of other applications with distinct keys, published, broadcast and acknowledged behind it: the message is accepted again, is pending twice and is written twice |
| `MessageFlood.TrafficExists` | Windows/Source/VeilKnitDaemon_src/src/api/local.rs:5208-5218 | such traffic exists for every message, with ids that are the hexadecimal form of 32 bytes |
| `PeerSets.ObservedKeeps` | Windows/Source/VeilKnitDaemon_src/src/app/discovery.rs:578-631 | observing a peer keeps tier capacities and uniqueness, makes it a member, brings in nobody else and loses at most one member, only when both tiers are full |
| `PeerSets.ObservedIsFresh` | Windows/Source/VeilKnitDaemon_src/src/app/discovery.rs:578-631 | an observed peer is on record as verified no earlier than now; a new one enters the recent tier as never handed out |
| `PeerSets.ArchivedPeers` | Windows/Source/VeilKnitDaemon_src/src/app/discovery.rs:633-651 | the archive draw costs at most one place, none while there is room; a full archive takes the displaced member exactly when the hash falls on one of its 1,024 places |
| `PeerSets.DisplacedIsMostUsed` | Windows/Source/VeilKnitDaemon_src/src/app/discovery.rs:615-629 | a newcomer to a full recent tier takes the place of the member handed out latest, then most often, then seen first earliest, and of nobody else; a member never handed out stays while some other was |
| `PeerSets.ObservedRest` | Windows/Source/VeilKnitDaemon_src/src/app/discovery.rs:578-631 | a member stays in its tier and its verification time only moves forward; every other membership is unchanged; the observation counter counts newcomers |
| `PeerSets.MostWornIndex` | Windows/Source/VeilKnitDaemon_src/src/app/discovery.rs:615-627 | the displaced index is the last maximum of return time, return count and reversed first-seen time |
| `PeerSets.ObserveMembership` | Windows/Source/VeilKnitDaemon_src/src/app/discovery.rs:578-631 | the in-place update refines the specification |
| `Associations.SiftKeeps` | Windows/Source/VeilKnitDaemon_src/src/app/discovery.rs:675-682 | a retain pass over all tiers keeps every set well formed and leaves exactly the entries it keeps |
| `Associations.TriplesUnique` | Windows/Source/VeilKnitDaemon_src/src/app/discovery.rs:709-731 | no two associations share application, tier and peer |
| `Associations.TotalAssociations` | Windows/Source/VeilKnitDaemon_src/src/app/discovery.rs:703-707 | the summed lengths are the number of distinct associations |
| `DiscoverySpec.FreshEntries` | Windows/Source/VeilKnitDaemon_src/src/app/discovery.rs:662-686 | pruning leaves exactly the associations verified since the cutoff in applications requested since the cutoff |
| `DiscoverySpec.PrunedInv` | Windows/Source/VeilKnitDaemon_src/src/app/discovery.rs:662-700 | pruning keeps the whole invariant, so its own capacity pass never removes anything |
| `DiscoverySpec.WithdrawnKeeps` | Windows/Source/VeilKnitDaemon_src/src/app/discovery.rs:236-249 | memberships a peer no longer advertises go, and nothing else changes |
| `DiscoverySpec.AdvertisingKeeps` | Windows/Source/VeilKnitDaemon_src/src/app/discovery.rs:272-304 | recording an advertising peer keeps ids unique and issued, every membership backed and every application interesting, and adds at most one record |
| `DiscoverySpec.GlobalCutExact` | Windows/Source/VeilKnitDaemon_src/src/app/discovery.rs:702-750 | over the cap the association pass leaves exactly 24,576, and nothing removed was verified later than anything kept |
| `DiscoverySpec.CapsCooperate` | Windows/Source/VeilKnitDaemon_src/src/app/discovery.rs:752-800 | with the associations within their cap the peer pass evicts only unreferenced records, drops no membership and leaves min(records, 24,576) |
| `DiscoverySpec.TombstonesSuffice` | Windows/Source/VeilKnitDaemon_src/src/app/discovery.rs:757-781 | there are always enough unreferenced records to evict |
| `DiscoverySpec.DroppedEntries` | Windows/Source/VeilKnitDaemon_src/src/app/discovery.rs:551-576 | removing peers removes exactly their associations |
| `DiscoverySpec.ObservedInv` | Windows/Source/VeilKnitDaemon_src/src/app/discovery.rs:207-312 | every observation keeps the cache invariant, whatever the capacity passes choose among ties |
| `DiscoveryRuns.DirectReadIsAuthoritative` | Windows/Source/VeilKnitDaemon_src/src/app/discovery.rs:207-312 | after a direct read that is not stale the peer is a member of advertised applications of interest only, and of each of them, verified no earlier than at the read, unless the global cut took that association |
| `DiscoveryRuns.DirectReadIsRecorded` | Windows/Source/VeilKnitDaemon_src/src/app/discovery.rs:254-298 | its record, while kept, has the time of the first read, the later of the two verification times and the time of this AppInfo; no other record changes; a peer that advertises nothing of interest gets none |
| `DiscoveryRuns.OthersStay` | Windows/Source/VeilKnitDaemon_src/src/app/discovery.rs:578-631 | another peer loses an association only to the global cut or by displacement from an advertised application whose two tiers are full |
| `DiscoveryRuns.RunInv` | Windows/Source/VeilKnitDaemon_src/src/app/discovery.rs:194-312 | every reachable cache: tier and global capacities, a peer once per application, unique issued ids, no dangling membership, no application nobody asked for |
| `DiscoveryRuns.ListedInv` | Windows/Source/VeilKnitDaemon_src/src/app/discovery.rs:343-438 | handing out a page changes no association |
| `DiscoveryRuns.InfoNeverDecreases` | Windows/Source/VeilKnitDaemon_src/src/app/discovery.rs:224-298 | over any run neither the AppInfo time nor the verification time of a record goes back while the record lives |
| `DiscoveryTombstones.RecordSurvivesIff` | Windows/Source/VeilKnitDaemon_src/src/app/discovery.rs:662-700 | pruning drops exactly the records not verified for 180 days that have no association left, and changes no other |
| `DiscoveryTombstones.StepInterestIff` | Windows/Source/VeilKnitDaemon_src/src/app/discovery.rs:194-203 | after any step an application is of interest exactly when the step registers it, or it was and is not pruned more than 180 days after it was last registered |
| `DiscoveryTombstones.PeerCutTakesIff` | Windows/Source/VeilKnitDaemon_src/src/app/discovery.rs:752-800 | a cache one record over its cap may evict a record exactly when it is unreferenced and no unreferenced record was verified earlier |
| `DiscoveryTombstones.OneRecordGoes` | Windows/Source/VeilKnitDaemon_src/src/app/discovery.rs:207-312 | an observation evicts one record when the cache is full of records and the peer is new and advertises something of interest, and none otherwise |
| `DiscoveryTombstones.StepKeepsIff` | Windows/Source/VeilKnitDaemon_src/src/app/discovery.rs:194-576 | a step keeps a record, under its id, exactly when the record is not removed, does not expire and is not what the peer cut takes |
| `DiscoveryTombstones.RecordLastsIff` | Windows/Source/VeilKnitDaemon_src/src/app/discovery.rs:194-576 | over any run a record lasts exactly as long as no step loses it |
| `DiscoveryTombstones.ReadRecordLasts` | Windows/Source/VeilKnitDaemon_src/src/app/discovery.rs:254-298 | over any run a peer read directly keeps its record for 180 days from the read unless it is removed or evicted |
| `DiscoveryTombstones.OlderInfoAddsNothing` | Windows/Source/VeilKnitDaemon_src/src/app/discovery.rs:218-235 | an AppInfo older than one a lasting record knows adds and restores nothing: the observation only prunes |
| `DiscoveryTombstones.OlderInfoTakenIff` | Windows/Source/VeilKnitDaemon_src/src/app/discovery.rs:218-235 | over any run an AppInfo that advertises something of interest is taken over exactly when every record that ever knew a newer one was removed, expired or was evicted since |
| `DiscoveryTombstones.OlderInfoRestores` | Windows/Source/VeilKnitDaemon_src/src/app/discovery.rs:752-800 | in any full cache with room for an association whose least recently verified record is unreferenced, a new peer that joins an application nobody joined yet may evict that record at any age, and an older AppInfo of its peer is then taken over with its application, unless the association cap takes that |
| `Paging.PageShape` | Windows/Source/VeilKnitDaemon_src/src/app/discovery.rs:366-394 | a page is full whenever there are peers to fill it; four fifths of it, rounded up, are recent as far as there are any, and more only when the archive is used up |
| `Paging.Select` | Windows/Source/VeilKnitDaemon_src/src/app/discovery.rs:366-394 | the selected positions are distinct, a prefix of each tier, min(limit, recent + archive) of them, and the last archive top-up adds nothing |
| `Paging.StampedKeeps` | Windows/Source/VeilKnitDaemon_src/src/app/discovery.rs:371-414 | sorting and stamping keep every peer of a tier, once |
| `Paging.PageCounts` | Windows/Source/VeilKnitDaemon_src/src/app/discovery.rs:396-414 | a page of n counts n handouts in the tier, dates them, and changes neither identity nor verification of anyone |
| `DiscoveryRotation.EveryoneElseFirst` | Windows/Source/VeilKnitDaemon_src/src/app/discovery.rs:343-438 | in every run of the cache, while nobody of a tier joins, leaves or expires and the clock does not step back, a peer does not come again before every peer whose stored return time was earlier than the first call |
| `DiscoveryRotation.RepeatsBeforeIff` | Windows/Source/VeilKnitDaemon_src/src/app/discovery.rs:343-438 | exactly when a page takes a peer again and leaves one not handed out since: both carry the time of the first call, and count, first-seen time and id favour the repeated one |
| `DiscoveryRotation.StepReturns` | Windows/Source/VeilKnitDaemon_src/src/app/discovery.rs:194-438 | any step of the cache gives a member that stays its own time if it was handed out and leaves its return time otherwise |
| `DiscoveryRotation.ObservedTraces` | Windows/Source/VeilKnitDaemon_src/src/app/discovery.rs:578-651 | observing a peer leaves the return time of everyone who stays in a tier |
| `Rotation.PriorityIff` | Windows/Source/VeilKnitDaemon_src/src/app/discovery.rs:653-660 | some page size takes one member and not another exactly when the first has the smaller return priority |
| `Rotation.UniqueOrder` | Windows/Source/VeilKnitDaemon_src/src/app/discovery.rs:653-660 | the return priority leaves no ties within a tier, so a sorted tier is unique |
| `DiscoverySameSecond.SameSecondRepeats` | Windows/Source/VeilKnitDaemon_src/src/app/discovery.rs:653-660 | a run from the empty cache, all within one second: a peer is listed twice, a second one is discovered and listed, and the next page takes the newcomer again and not the first |
| `DiscoveryPage.TakePage` | Windows/Source/VeilKnitDaemon_src/src/app/discovery.rs:396-432 | every selected membership is stamped once and gives its result: none lacks a record |
| `DiscoveryCache.RemoveByTriple` | Windows/Source/VeilKnitDaemon_src/src/app/discovery.rs:733-745 | removing by (application, tier, peer) removes exactly the listed associations |
| `DiscoveryCache.OldestEntries` | Windows/Source/VeilKnitDaemon_src/src/app/discovery.rs:712-737 | sorting and taking the first `total - 24,576` is a cut by verification time |
| `DiscoveryCache.PeersToEvict` | Windows/Source/VeilKnitDaemon_src/src/app/discovery.rs:757-785 | sorting by (referenced, verified) and taking the first is a cut in that order |
| `DiscoveryCache.AppDiscoveryCache.RegisterInterest` | Windows/Source/VeilKnitDaemon_src/src/app/discovery.rs:194-203 | records the interest; newly active exactly when pruning would leave none |
| `DiscoveryCache.AppDiscoveryCache.PruneExpired` | Windows/Source/VeilKnitDaemon_src/src/app/discovery.rs:662-700 | from a valid cache exactly the fresh interests, the fresh associations and the records fresh or still referenced remain; the capacity pass inside removes nothing |
| `DiscoveryCache.AppDiscoveryCache.EnforceGlobalCapacity` | Windows/Source/VeilKnitDaemon_src/src/app/discovery.rs:702-750 | removes exactly total - 24,576 least recently verified associations, and the applications this empties |
| `DiscoveryCache.AppDiscoveryCache.EnforcePeerCapacity` | Windows/Source/VeilKnitDaemon_src/src/app/discovery.rs:752-800 | in any state, removes exactly peers - 24,576 records, unreferenced before referenced and least recently verified first, with their memberships |
| `DiscoveryCache.AppDiscoveryCache.JoinAll` | Windows/Source/VeilKnitDaemon_src/src/app/discovery.rs:300-304 | each advertised application observes the peer once, whatever the order of the loop |
| `DiscoveryCache.AppDiscoveryCache.ObserveDirectAppSet` | Windows/Source/VeilKnitDaemon_src/src/app/discovery.rs:207-312 | the operation refines its specification and keeps the invariant |
| `DiscoveryCache.AppDiscoveryCache.ListPeers` | Windows/Source/VeilKnitDaemon_src/src/app/discovery.rs:343-438 | the page: as many results as asked for, at least one and at most 1,000, as far as there are peers; its positions, the result of each from the record of its own peer, and the state left behind |
| `DiscoveryCache.AppDiscoveryCache.RemovePeers` | Windows/Source/VeilKnitDaemon_src/src/app/discovery.rs:551-576 | the named peers, their memberships and emptied applications go, and nothing else |
| `StorageSpec.RangeRefines` | Windows/Source/VeilKnitDaemon_src/src/private_app_storage.rs:546-592 | over a stored blob the chunk loop yields exactly the requested slice of the concatenated appends |
| `StorageSpec.CollectRange` | Windows/Source/VeilKnitDaemon_src/src/private_app_storage.rs:569-590 | the loop returns the bytes of the range, or the error of the first bad chunk |
| `StorageSpec.Trimmed` | Windows/Source/VeilKnitDaemon_src/src/private_app_storage.rs:442-445 | trimming leaves no white space at either end, and an empty text exactly of white space alone |
| `StorageSpec.PresentableIff` | Windows/Source/VeilKnitDaemon_src/src/private_app_storage.rs:790-793 | a content type or key is accepted exactly when it is white space around a part that fits and holds no control character |
| `StorageSpec.ExpiryIff` | Windows/Source/VeilKnitDaemon_src/src/private_app_storage.rs:797-810 | persistent and cache entries never expire; the others need a lifetime between an hour and a day and expire exactly when it is over |
| `StorageSpec.CrashedOverwriteIff` | Windows/Source/VeilKnitDaemon_src/src/private_app_storage.rs:324-356 | a value overwritten by a crashed put is readable exactly when the new bytes are as many as the manifest records |
| `PrivateVault.EveryCrashState` | Windows/Source/VeilKnitDaemon_src/src/private_app_storage.rs:466-528 | every state a crash can leave is consistent, and blobs only grow from one to the next |
| `PrivateVault.CrashStateReads` | Windows/Source/VeilKnitDaemon_src/src/private_app_storage.rs:484-496 | in every crash state each listed chunk exists with its recorded plaintext and any range read over that disk is the exact slice, whatever files lie beside it |
| `PrivateVault.ContentsGrow` | Windows/Source/VeilKnitDaemon_src/src/private_app_storage.rs:466-497 | a blob that stays named only ever gains bytes at its end |
| `PrivateVault.Vault.constructor` | Windows/Source/VeilKnitDaemon_src/src/private_app_storage.rs:706-716 | a vault opens on any state a crash left |
| `PrivateVault.Vault.BeginBlob` | Windows/Source/VeilKnitDaemon_src/src/private_app_storage.rs:435-464 | a new blob is empty and unfinished, with its content type trimmed, its retention and its expiry; the exact condition of success, length and control characters included |
| `PrivateVault.Vault.AppendBlob` | Windows/Source/VeilKnitDaemon_src/src/private_app_storage.rs:466-497 | chunk file first, manifest second: the blob grows by exactly the bytes and stays unfinished, or nothing changes, and value files never do; the exact condition of success |
| `PrivateVault.Vault.FinishBlob` | Windows/Source/VeilKnitDaemon_src/src/private_app_storage.rs:499-514 | the blob is complete and the cache pruned; the exact condition of success |
| `PrivateVault.Vault.AbortBlob` | Windows/Source/VeilKnitDaemon_src/src/private_app_storage.rs:516-532 | the blob leaves the manifest before at most 128 of its files go |
| `PrivateVault.Vault.ReadBlobRange` | Windows/Source/VeilKnitDaemon_src/src/private_app_storage.rs:546-592 | every request gets the answer the plain byte string would give, or the error its guard names; the corrupt branches are never taken; only the access time may change |
| `PrivateVault.Vault.PutValue` | Windows/Source/VeilKnitDaemon_src/src/private_app_storage.rs:324-356 | file first, manifest second, then the cache; the whole new entry, and a value that survives pruning reads back at every later time until it expires |
| `PrivateVault.Vault.GetValue` | Windows/Source/VeilKnitDaemon_src/src/private_app_storage.rs:358-384 | the stored bytes of an unexpired value, nothing for an expired or unknown one, an error for a damaged file; only the access time may change |
| `PrivateVault.Vault.DeleteValue` | Windows/Source/VeilKnitDaemon_src/src/private_app_storage.rs:399-410 | inaccessible before its file goes; the one file and no other |
| `PrivateVault.Vault.PruneCacheLocked` | Windows/Source/VeilKnitDaemon_src/src/private_app_storage.rs:726-761 | the pruned manifest is on disk before any file goes, and no file of a remaining entry is touched |
| `PrivateVault.Vault.RemoveBlobDirBounded` | Windows/Source/VeilKnitDaemon_src/src/private_app_storage.rs:846-860 | at most the budget of one unnamed blob's files go, and the budget left is what was not used |
| `PrivateVault.Vault.PrepareShutdown` | Windows/Source/VeilKnitDaemon_src/src/private_app_storage.rs:638-657 | one manifest write removes exactly the entries marked delete-on-shutdown, changes no other and touches no file; the count it reports |
| `PrivateVault.Vault.Cleanup` | Windows/Source/VeilKnitDaemon_src/src/private_app_storage.rs:659-683 | nothing expired and no unfinished upload a day old is left; everything else outside the cache is, unchanged; the cache is pruned; no orphaned value file is left, and every file still named keeps its bytes |
| `PrivateVault.Vault.RemoveOrphans` | Windows/Source/VeilKnitDaemon_src/src/private_app_storage.rs:763-787 | every unnamed value file and min(orphans, 128) chunk files go; each file the manifest names keeps its bytes, and so does each chunk of a named blob |
| `CachePruning.Prune` | Windows/Source/VeilKnitDaemon_src/src/private_app_storage.rs:726-750 | ends at or below the limit by the shortest prefix in order of last access; the running byte count equals the recomputed sum |
| `CachePruning.OthersStay` | Windows/Source/VeilKnitDaemon_src/src/private_app_storage.rs:729-737 | values outside the cache, blobs outside it and unfinished uploads stay as they are |
| `CachePruning.LruIsPruned` | Windows/Source/VeilKnitDaemon_src/src/private_app_storage.rs:726-761 | only cache entries go, the least recently accessed first, until what is left fits, and with the last of them it did not |
| `CachePruning.CacheBytesIsUse` | Windows/Source/VeilKnitDaemon_src/src/private_app_storage.rs:727-728 | what is counted is the bytes of the cache values plus those of the finished cache blobs |
| `CachePruning.RunningStep` | Windows/Source/VeilKnitDaemon_src/src/private_app_storage.rs:741-750 | the subtraction never saturates and the evicted entry is still there |
| `DirectorySpec.ReaderGetsCommitted` | Windows/Source/VeilKnitDaemon_src/src/app/directory.rs:415-457 | a reader of pointer then record that finds equal generations holds what was committed under that generation, in every run of failed, ambiguous, retried and interrupted publications that reuses no generation |
| `DirectorySpec.MixedIff` | Windows/Source/VeilKnitDaemon_src/src/app/directory.rs:226-239 | two such readers of one generation hold different records exactly when the publisher wrote a different record under a generation its pointer already carried |
| `DirectorySpec.ReusesIff` | Windows/Source/VeilKnitDaemon_src/src/app/directory.rs:226-239 | a publication does that exactly when memory lags behind the pointer, or the counter is at its end, and its record differs from the one readers may hold |
| `DirectorySpec.LevelNeverReuses` | Windows/Source/VeilKnitDaemon_src/src/app/directory.rs:226-239 | with memory level with the pointer and the counter not at its end, no publication does |
| `DirectorySpec.AmbiguousRetryReuses` | Windows/Source/VeilKnitDaemon_src/src/app/directory.rs:231-239 | after a pointer write that took effect but was reported as failed, the retry reuses the generation exactly when its record differs |
| `DirectorySpec.AmbiguousRunMixes` | Windows/Source/VeilKnitDaemon_src/src/app/directory.rs:226-239 | from a fresh directory, one such write retried at another second leads to two readers of one generation that hold different records |
| `DirectorySpec.PlainIsLevel` | Windows/Source/VeilKnitDaemon_src/src/app/directory.rs:200-361 | runs in which failed pointer writes have no effect and the counter does not run out never reuse a generation |
| `DirectorySpec.RunInv` | Windows/Source/VeilKnitDaemon_src/src/app/directory.rs:200-361 | memory, pointer and committed history stay in step in every run that reuses no generation |
| `DirectorySpec.CommittedStays` | Windows/Source/VeilKnitDaemon_src/src/app/directory.rs:226-239 | a committed generation never changes meaning |
| `DirectorySpec.ReadableIff` | Windows/Source/VeilKnitDaemon_src/src/app/directory.rs:226-239 | at rest a reader can resolve exactly when no record write waits for its pointer |
| `Directory.ResolvesIff` | Windows/Source/VeilKnitDaemon_src/src/app/directory.rs:415-457 | a reader gets an answer exactly when pointer and record agree and neither is dated more than two minutes ahead |
| `Directory.ResolveGetsCommitted` | Windows/Source/VeilKnitDaemon_src/src/app/directory.rs:415-457 | a resolved root, or its absence, is what the peer committed under the generation answered |
| `Directory.AppDirectoryManager.Load` | Windows/Source/VeilKnitDaemon_src/src/app/directory.rs:79-185 | adopts the record, keeps its roots durable, publishes its generation |
| `Directory.AppDirectoryManager.Publish` | Windows/Source/VeilKnitDaemon_src/src/app/directory.rs:226-239 | record, then pointer, then memory; the state after each write that fails or is reported as failed |
| `Directory.AppDirectoryManager.SyncPublicApps` | Windows/Source/VeilKnitDaemon_src/src/app/directory.rs:200-240 | on success the committed directory lists exactly the active durable roots, with the time of an unchanged entry kept, and a reader can resolve each; on failure memory and pointer stay |
| `Directory.AppDirectoryManager.SetOwnAppRoot` | Windows/Source/VeilKnitDaemon_src/src/app/directory.rs:242-317 | exactly the one entry changes and readers resolve it; unchanged roots are not republished |
| `Directory.AppDirectoryManager.ClearOwnAppRoot` | Windows/Source/VeilKnitDaemon_src/src/app/directory.rs:319-363 | exactly the one entry goes, and readers learn that there is none |
| `RecoverySpec.ChunkCount` | Windows/Source/VeilKnitDaemon_src/src/recovery.rs:68-104 | every accepted backup needs 1 to 63 chunks, so the later guard never fires |
| `RecoverySpec.RoundTripIff` | Windows/Source/VeilKnitDaemon_src/src/recovery.rs:153-206 | a committed upload downloads to the same bytes exactly when each chunk is a value the DHT layer can hold |
| `RecoverySpec.SurvivesIff` | Windows/Source/VeilKnitDaemon_src/src/dht_module/mod.rs:1665-1686 | which bytes come back from the DHT layer as written |
| `RecoverySpec.SpaceLengthIff` | Windows/Source/VeilKnitDaemon_src/src/dht_module/mod.rs:1665-1677 | the bytes of a character are trimmed as white space, all of them, exactly when the character is |
| `RecoverySpec.NullTextIff` | Windows/Source/VeilKnitDaemon_src/src/dht_module/mod.rs:1665-1677 | the bytes taken for "no value" are exactly the word null, in any mix of cases, between white space |
| `RecoverySpec.RestoredIff` | Windows/Source/VeilKnitDaemon_src/src/recovery.rs:153-206 | a download succeeds exactly when the manifest is of this version for 1 to 63 pages, every page can be read, and they hold the promised length with the promised hash that opens |
| `RecoverySpec.LostBackup` | Windows/Source/VeilKnitDaemon_src/src/recovery.rs:100-123 | whatever the cipher, a ciphertext one byte longer than whole chunks whose last byte is `0` is uploaded correctly and reported missing on download |
| `RecoverySpec.LostBackupsExist` | Windows/Source/VeilKnitDaemon_src/src/recovery.rs:100-123 | sound ciphers with such ciphertexts exist: a backup of 12,273 bytes |
| `RecoverySpec.NeverAnotherBackup` | Windows/Source/VeilKnitDaemon_src/src/recovery.rs:159-206 | under the committed manifest a download fails or restores the original, whatever pages it saw, and never gets as far as failing to decrypt |
| `RecoverySpec.SplitJoin` | Windows/Source/VeilKnitDaemon_src/src/recovery.rs:100-112 | chunks are non-empty, at most 12,288 bytes, as many as needed, and join to the whole |
| `Recovery.AnyReader` | Windows/Source/VeilKnitDaemon_src/src/recovery.rs:153-248 | the same for reads at any moments of an upload, a wipe or both |
| `Recovery.RecoveryRecord.Upload` | Windows/Source/VeilKnitDaemon_src/src/recovery.rs:58-151 | commits exactly when every write succeeds; the manifest is never visible before its pages |
| `Recovery.RecoveryRecord.Wipe` | Windows/Source/VeilKnitDaemon_src/src/recovery.rs:228-248 | once the first write succeeds no manifest is readable; done exactly when every write succeeded |
| `Recovery.Download` | Windows/Source/VeilKnitDaemon_src/src/recovery.rs:153-208 | the outcome for every manifest and every set of pages, page errors in order |
| `SessionSpec.RunInv` | Windows/Source/VeilKnitDaemon_src/src/app/identity.rs:473-885 | from any saved store, in every reachable state each challenge and session belongs to an enabled registered application, carries its current generation and asks for no more than granted |
| `SessionSpec.AnsweredOnce` | Windows/Source/VeilKnitDaemon_src/src/app/identity.rs:770-781 | a challenge is used up by its first answer, right or wrong |
| `SessionSpec.ProofBindsChallenge` | Windows/Source/VeilKnitDaemon_src/src/app/identity.rs:982-1010 | a collision-free keyed hash ties a proof to one challenge |
| `SessionSpec.FinishInv` | Windows/Source/VeilKnitDaemon_src/src/app/identity.rs:759-858 | finishing keeps the invariant |
| `IdentityAccounts.AccountsInForce` | Windows/Source/VeilKnitDaemon_src/src/app/identity.rs:504-676 | in every reachable state each registration is what the registrations, rotations and settings so far amount to |
| `IdentityAccounts.BeginIff` | Windows/Source/VeilKnitDaemon_src/src/app/identity.rs:694-757 | a challenge is issued exactly when the account in force is enabled and grants what is asked for and fewer than 4,096 challenges are unexpired |
| `IdentityAccounts.IssueDisplacesNone` | Windows/Source/VeilKnitDaemon_src/src/app/identity.rs:733-752 | in every run, until the 64-bit counter is used up, issuing a challenge leaves every unexpired one answerable |
| `IdentityAccounts.ChallengeLastsIff` | Windows/Source/VeilKnitDaemon_src/src/app/identity.rs:694-757 | an issued challenge can be answered for exactly thirty seconds |
| `IdentityAccounts.AnswerIff` | Windows/Source/VeilKnitDaemon_src/src/app/identity.rs:759-858 | in every reachable state an answer to a pending challenge opens a session exactly when it names its application, proves the secret in force, the store can be written and there is room; and which error it gets otherwise |
| `IdentityAccounts.RotationTakesEffect` | Windows/Source/VeilKnitDaemon_src/src/app/identity.rs:583-618 | over any run, from a rotation to the next one, challenges are answered with the new secret, and a proof by the replaced one is invalid if the hash tells them apart |
| `IdentityAccounts.RotateBeginFinish` | Windows/Source/VeilKnitDaemon_src/src/app/identity.rs:583-858 | the same for rotating, beginning and finishing in a row from any state |
| `IdentityAccounts.SessionLastsIff` | Windows/Source/VeilKnitDaemon_src/src/app/identity.rs:832-885 | a session is good for exactly twelve hours if nothing ends it before |
| `IdentityAccounts.SignsOutExactly` | Windows/Source/VeilKnitDaemon_src/src/app/identity.rs:583-676 | rotating, disabling and regranting end everything begun or open of that application and nothing of any other |
| `IdentityAccounts.UseRecordedIff` | Windows/Source/VeilKnitDaemon_src/src/app/identity.rs:798-807 | the time of last use moves exactly on a right proof, also if no session comes of it |
| `IdentitySessions.IdentityManager.constructor` | Windows/Source/VeilKnitDaemon_src/src/app/identity.rs:473-502 | a manager starts on a saved store with nothing pending and nobody in |
| `IdentitySessions.IdentityManager.RegisterApp` | Windows/Source/VeilKnitDaemon_src/src/app/identity.rs:534-581 | a new registration starts enabled at generation 1; an existing one is refused |
| `IdentitySessions.IdentityManager.RotateAppCredential` | Windows/Source/VeilKnitDaemon_src/src/app/identity.rs:583-618 | the new secret is stored, the generation advances and the challenges and sessions of the application go |
| `IdentitySessions.IdentityManager.SetAppEnabled` | Windows/Source/VeilKnitDaemon_src/src/app/identity.rs:620-655 | the flag is stored; disabling drops the challenges and sessions of the application |
| `IdentitySessions.IdentityManager.SetAppCapabilities` | Windows/Source/VeilKnitDaemon_src/src/app/identity.rs:657-676 | the grant is stored and the challenges and sessions of the application go |
| `IdentitySessions.IdentityManager.BeginAppAuth` | Windows/Source/VeilKnitDaemon_src/src/app/identity.rs:694-757 | the exact condition of success and the challenge issued |
| `IdentitySessions.IdentityManager.CheckAnswer` | Windows/Source/VeilKnitDaemon_src/src/app/identity.rs:770-815 | the expired, unknown, disabled and rotated checks never fail |
| `IdentitySessions.IdentityManager.FinishAppAuth` | Windows/Source/VeilKnitDaemon_src/src/app/identity.rs:759-858 | the outcome of every answer and the state it leaves |
| `IdentitySessions.IdentityManager.AuthenticateSession` | Windows/Source/VeilKnitDaemon_src/src/app/identity.rs:860-885 | returns exactly the unexpired session of the token, still covered by its registration |
| `IdentitySessions.IdentityManager.RevokeSession` | Windows/Source/VeilKnitDaemon_src/src/app/identity.rs:887-900 | removes exactly that session |
| `IdentitySessions.IdentityManager.RevokeAllAppSessions` | Windows/Source/VeilKnitDaemon_src/src/app/identity.rs:902-927 | removes exactly that application's sessions |
| `IdentitySessions.IdentityManager.CleanupExpired` | Windows/Source/VeilKnitDaemon_src/src/app/identity.rs:1020-1027 | keeps exactly the unexpired challenges and sessions |
| `ProofInput.EncodeInjective` | Windows/Source/VeilKnitDaemon_src/src/app/identity.rs:982-1002 | distinct challenges never give the same bytes |
| `ProofInput.BuildInput` | Windows/Source/VeilKnitDaemon_src/src/app/identity.rs:982-1002 | the appended bytes are the encoding |
| `SignatureMessage.MessageInjective` | Windows/Source/VeilKnitDaemon_src/src/app/services.rs:701-719 | every accepted (domain, payload) pair has its own message |
| `SignatureMessage.Build` | Windows/Source/VeilKnitDaemon_src/src/app/services.rs:711-719 | the appended bytes are the message |
| `ActivitySpec.WalksAreSpaced` | Windows/Source/VeilKnitDaemon_src/src/api/local.rs:2166-2261 | two walks for one application are at least the second level's 20, 45 or 120 seconds apart, in any undisturbed sequence of operations and clock readings |
| `ActivitySpec.RunCoolingIff` | Windows/Source/VeilKnitDaemon_src/src/api/local.rs:2166-2261 | in every run every cooldown holds throughout exactly when no lease change lands where it defeats one |
| `ActivitySpec.ChangesBetweenSectionsIff` | Windows/Source/VeilKnitDaemon_src/src/api/local.rs:2213-2261 | exactly which sequences of lease changes between a tick's two locked sections keep the cooldown: the lease ends released, or the schedule of the tick or a change since the last release holds the next run back |
| `ActivitySpec.TickCoolingIff` | Windows/Source/VeilKnitDaemon_src/src/api/local.rs:2213-2261 | a whole tick keeps every cooldown exactly when it starts no walk or its changes keep the cooldown of each application it starts |
| `ActivitySpec.AtomicTicksUndisturbed` | Windows/Source/VeilKnitDaemon_src/src/api/local.rs:2213-2261 | with nothing between the sections every run is undisturbed |
| `ActivitySpec.RetakeDefeatsCooldown` | Windows/Source/VeilKnitDaemon_src/src/api/local.rs:2166-2261 | a run from the empty hub in which releasing and retaking a lease between the sections lets the next walk start five seconds later |
| `ActivitySpec.StartIsRecorded` | Windows/Source/VeilKnitDaemon_src/src/api/local.rs:2205-2261 | the recorded start time never moves behind a start |
| `ActivitySpec.LeaseDueIff` | Windows/Source/VeilKnitDaemon_src/src/api/local.rs:2166-2203 | after leasing, renewing or changing the level an application is due exactly while the lease lasts, not before the schedule it had and not before 20, 45 or 120 seconds since its last walk |
| `ActivitySpec.SelectedAgainIff` | Windows/Source/VeilKnitDaemon_src/src/api/local.rs:2213-2229 | a tick that selects an application, whether its walk starts or not, selects it again exactly from its interval on and until the lease ends |
| `ActivitySpec.UnselectedStay` | Windows/Source/VeilKnitDaemon_src/src/api/local.rs:2213-2229 | a tick leaves any other lease alone, or drops it if it ended |
| `ActivitySpec.NextWalkIff` | Windows/Source/VeilKnitDaemon_src/src/api/local.rs:2166-2261 | in any run of renewals, other applications and earlier ticks, the next walk of an application is selected by the first tick at or after its interval |
| `ActivityLeases.HigherIsFaster` | Windows/Source/VeilKnitDaemon_src/src/api/local.rs:2236-2243 | the higher of two levels is the one that walks more often |
| `ActivityLeases.AppActivityHub.SetLease` | Windows/Source/VeilKnitDaemon_src/src/api/local.rs:2166-2203 | the call refines its specification, touches the one lease and answers its expiry, thirty seconds to ten minutes ahead |
| `ActivityLeases.AppActivityHub.Select` | Windows/Source/VeilKnitDaemon_src/src/api/local.rs:2214-2229 | the first section returns the due leases and reschedules exactly those |
| `ActivityLeases.AppActivityHub.Finish` | Windows/Source/VeilKnitDaemon_src/src/api/local.rs:2229-2261 | the second section: a walk starts exactly when something is due and the walker takes it, at the highest due level |
| `ActivityLeases.AppActivityHub.Tick` | Windows/Source/VeilKnitDaemon_src/src/api/local.rs:2213-2261 | both sections with nothing in between; the walk starts under the conditions of the code, at the highest due level |

## Left out

- Several subscribers or sessions for one application: one subscriber is followed, other applications acknowledge in between.
- Canonical application names (trimming and lower-casing): names are compared as already canonical. Record keys are their text.
- The `changed` results, the `generation` counters and the persistence of the discovery cache; `next_peer_id` is unbounded, so it never wraps.
- The discovery cache is followed from its empty state or any state with the invariant; a persisted state that breaks the invariant is not repaired by the code and not modelled.
- The cached application root of a membership, `search_seeds` and `app_summaries` beyond their pruning step.
- The name fingerprint and the statistics of archive sampling: the hash draw is an arbitrary function of application, peer and observation count.
- Cryptography: sealing opens to what was sealed, under exactly the data it was sealed with; hashes are assumed collision-free only where a lemma or the vault's constructor says so; ids and tokens are fresh parameters.
- JSON and bincode encodings, record-key parsing and file paths: treated as round trips.
- Storage: `renew_value`, `renew_blob`, listings, `usage`, the catalogue of applications, and `manifest.updated_at`. Failing disk writes and failing deletions; the crash points cover every prefix of an operation.
- Storage limits on 32-bit widths: a blob has at most 2^32 chunks, as the code's conversion demands.
- Directory: sorted entry lists (entries are a map), the byte limit of a manifest other than as a failing write, finding and validating an existing package, rebuilding an invalid manifest, and the queue of pending lookups.
- Recovery: the recovery code, the local state file, and the wipe of a previous record after an upload.
- Identity: core modules, display names, reputation handles, and the number `revoke_all_app_sessions` reports. A failed save is reported after memory has changed, as in the code.
- Activity: hop counts, relevant nodes and the status of a running walk, which enter a tick as parameters.
- Request dispatch, capability checks per request, registration requests and the operation backlog: single-branch facts.
- Bench, console, GUI, bridge, mailbox, gossip, handshake and walker bodies are not part of this model.
- DirectReadIsRecorded: speaks of the record only while it is kept, because the peer pass may evict the record of a peer that lost all its associations to the global cut.
- OlderInfoAddsNothing: asks that no step has lost the record that knew the newer AppInfo; OlderInfoTakenIff says exactly what happens otherwise.
- OlderInfoTakenIff: asks that the peer has a record after the step, because the peer pass may evict it in the same step, and that the AppInfo names an application of interest.
- ReaderGetsCommitted: asks that no generation was reused; MixedIff shows that readers do mix otherwise.
- ExactlyOnce: asks for a schedule in which the subscriber again and again moves or has nothing to do, and the broadcast of the key comes; that a scheduler is fair is not modelled.
- NothingLost: of several messages accepted under one key, with different payloads, it promises that one of them is written; the code compares keys only.
- WalksAreSpaced: asks that no lease change landed where it defeats a cooldown. The reverse does not hold, since a lease can expire before the early run it was given; RunCoolingIff is exact for the schedules.
- EveryoneElseFirst: asks that the other peer's stored return time is earlier than the call; RepeatsBeforeIff covers equal times. A peer that expires and is observed again in one step counts as leaving the tier.
- NextWalkIff: asks that the ticks before have no lease change between their sections and that the lease is held throughout; a tick whose walk the walker refuses postpones the next one by a whole interval (SelectedAgainIff).
- PutValue: promises the new value's readability only while pruning leaves the key, because a value larger than the cache limit is evicted at once.
- JoinedInjective: asks that application name and sender contain no separator; the hub itself does not check this, and keys are compared by their three parts.
