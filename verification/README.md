# A model of the pair pool, the fragmenters and the raw injector

This project models the parts of SNISPF-HJ-GO that decide: which IP/SNI pairs are in use and which are quarantined, how
a connection's first bytes are cut up, how a decoy ClientHello is built, parsed and injected, and how a tolerant JSON
file is cleaned before it is decoded. Objects that the program updates in place are classes here, their methods proved
against specification functions; what the program promises is then proved about those functions, for all inputs and all
runs. `dafny verify dfyconfig.toml` checks everything.

| files | what they model |
|---|---|
| `PairHealth`, `Pairs` | the counters and loss averages of one IP/SNI pair |
| `ExplorerModel`, `ExplorerRuns`, `ExplorerLaws` | the explorer as a state machine: table, queue, two name lists, two quarantines, two origin ledgers; what every step and run keeps |
| `LossRanking`, `Orders`, `Sequences`, `WeightedChoice` | the loops that rank, sort, filter and draw |
| `Explorer` | the explorer object, each method a run of steps of that machine |
| `StepLaws` | what each of those steps does, name by name |
| `Leak`, `Revival` | how a live pair comes to carry a name in no list, and how discovery comes to revive a quarantined name |
| `ActivePool`, `ServiceLaws` | pairs in service and draining, and the refresh |
| `Discovery`, `Manager` | discovery of names on one axis, and discovery on both axes together with the pool, the health loop and the relays |
| `HealthLoop` | the health loop by itself, and the cooldown over all its refreshes |
| `LastGood` | snapshot and restore |
| `Bytes`, `TlsRecords` | bytes, and what a receiver reads from a stream of TLS records (section 5.1 of RFC 8446) |
| `MaskRuns`, `RecordOrder`, `MaskStack`, `FinalMask`, `MaskSettings` | the fragment loop and its runs, when it keeps records in order, what a stack of layers puts on the wire, its settings |
| `Checksum`, `RawFrame` | the Internet checksum and the fake frame |
| `RawInject`, `RawInjector` | reading sniffed packets, one registration's history, the injector over all interleavings |
| `ClientHello`, `DecoyHello`, `DecoyOffer`, `Fragment` | the ClientHello as laid out, parsed, built, read by a server and fragmented |
| `ReadConfig`, `ReadSyntax` | comment stripping and trailing commas, and what they mean for the pieces of a text |

The IP and the SNI axis of the pool and of discovery are mirror images in the source; here one member with an axis
parameter stands for both. Probe outcomes, random picks, map order and which trial partner is drawn are arbitrary.
Averages and weights are real numbers, times are integers. Each public operation of the pool is one atomic step.

## What the proofs show beyond the happy path

Where the code does not do what its comments or names promise, the exact condition is proved:

- Quarantine trimming forgets a name that the other axis may still remember; recycling then revives a live pair under a
  name that no list holds (`TrimExact`, `TrimThenRecycleLeaks`, `LeakIsReachable`).
- The recycle gate cannot reject a fresh trial of 22 probes or fewer at the default thresholds, and it makes 4 to 6
  (`GateExact`, `DefaultGateIsOpen`).
- A snapshot never records the quarantine, although restore reads it (`QuarantineIsNotSaved`), and a restored pair is
  stable at once because its probe counters are not saved (`RestoredIsStable`), where internal/pool/lastgood.go:331
  calls it unverified. A warm start restores into the explorer of the configured pairs, so configured names come back
  from quarantine and each of them is listed once more than it was saved (`WarmStartIsJoint`, `ConfiguredNamesPileUp`);
  `RestoreExact` and `RestoredOnceExactly` give the conditions.
- A pair that drained before and is back in service keeps its old start of draining and its force-closed mark
  (`FlagsAreHistory`), so its next drain is cut short (`NextDrainIsShort`); two refreshes can put a force-closed pair in
  service (`ServesClosed`).
- Injecting a quarantined name revives it if and only if discovery does not know it any more and some partner is not
  quarantined (`Inject`). A trimmed name is still known (`InternalRunKeepsCover`), but one that the cap pushed out is not
  (`RevivalIsReachable`, for every cap), nor are some names after a warm start (`WarmStartMisses`). With nothing
  missed at first, and as long as no cap pushes a name out, every quarantined name stays known and none is revived
  (`Follow`).
- Initialize overwrites the pool. A refresh can come first, as scan rounds and failed relays ask for one while the first
  pairs are still being probed (main.go:456-479); `InitializeExact` says when every choice then keeps the pool's
  invariant, and `RefreshFirst` gives a run after which one does not.
- An injection at the cap forgets the oldest dynamic name even if a pair of it is in service, which costs the pool its
  invariant: `InjectInto` gives the condition, `PushOutHeld` a run.
- At the drain cap the oldest pair is force-closed but stays listed, so the cap does not bound the list
  (`StartDraining`); a refresh fills at most half the free candidates (`FillSlots`).
- The fragment loops end if and only if the last length range or the maxSplit range starts at 1 or more
  (`TerminationExact`), and delay ranges written upside down may reorder records (`UpsideDownSwaps`): `OrderExact` says
  for which settings they do.
- The name in a decoy ClientHello has one zero byte too many in front of it, so the parser of the same file recovers it
  only when it is empty (`NameIsMisread`, `DecoyIsParsed`).
- `tls_record_frag` is faithful if and only if the data is exactly one record or does not look like a handshake record at
  all and so passes unchanged (`TwoRecordsAreTheSame`); beyond 131075 bytes lengths wrap (`TwoRecordsAreRead`) and other
  data can pass too (`WrappedHeadersAreEmpty`).
- The sniffer judges payload by the captured length: a padded ACK is missed (`PaddedAckIsMissed`), and a bare packet
  from 8.0.0.0/16 is read as an Ethernet frame (`OffsetIsExact`).
- Trailing-comma removal is idempotent if and only if no comma has a trailing comma behind it (`DropIsIdempotentExactly`).

## Model

| member | source | states |
|---|---|---|
| `PairHealth.EmaBound` | internal/pool/pool.go:166-188 | After n events the loss average is at most 1 - 0.99^n, and equals it only when every event was a loss. |
| `PairHealth.EmaMoves` | internal/pool/pool.go:166-202 | From 0 on, the average moves a hundredth of the way to 1 with every loss and to 0 with every success. |
| `PairHealth.RateIsExact` | internal/pool/pool.go:118-138 | The combined rate by numbers: nothing before the third probe, the probe average after it, and seven parts packets to three parts probes once more than ten packets were sent. |
| `PairHealth.AfterIsFaithful` | internal/pool/pool.go:166-202 | Counters and averages after any sequence of probes and packets, from the outcomes alone; alive is decided by the probe count and the probe average of the moment, it is no latch. |
| `PairHealth.CombinedBound` | internal/pool/pool.go:133-138 | Whatever the events, the combined loss rate is at most 1 - 0.99^m, m being the larger of the two counts. |
| `PairHealth.FreshPairsSurvive` | internal/pool/pool.go:133-188 | With the default thresholds no pair is marked dead before 161 probes, and none counts as weak before 23 probes or 23 real packets. |
| `PairHealth.BoundsAreReached` | internal/pool/pool.go:133-188 | Both bounds are sharp: 161 lost probes kill, 23 lost probes make weak. |
| `PairHealth.YoungPairsServe` | internal/pool/pool.go:133-188 | At the default thresholds a pair with at most 22 probes and 22 packets is alive with a rate under 0.20, whatever happened to it. |
| `PairHealth.LostPairsAreWeak` | internal/pool/pool.go:133-188 | After n lost probes and nothing else it is weak if and only if n is at least 23. |
| `PairHealth.AllLost` | internal/pool/pool.go:166-188 | The health after n lost probes and nothing else, exactly. |
| `PairHealth.GateExact` | internal/pool/pool.go:1060-1064 | Some outcome of n probes makes the recycle gate reject a fresh trial if and only if n losses would. |
| `PairHealth.DefaultGateIsOpen` | internal/pool/pool.go:601-607 | At the default thresholds the gate rejects no trial of 22 or fewer probes, and so none of the 4 to 6 probes it makes by default: a quarantined name whose every probe fails is recycled. |
| `Pairs.PairStats.RecordProbe` | internal/pool/pool.go:166-188 | By field: one probe more, one received more and the latency added if it succeeded, the average a hundredth of the way to its outcome; from the third probe on dead at the threshold, and alive again below it once any probe was received. |
| `Pairs.PairStats.RecordRealPacket` | internal/pool/pool.go:190-202 | One packet more, one lost more if it was lost, the average a hundredth of the way to its outcome; nothing else changes. |
| `Pairs.PairStats.StartDraining` | internal/pool/pool.go:204-211 | The start of draining is set once and kept. |
| `Pairs.PairStats.ForceClose` | internal/pool/pool.go:213-224 | Leaves service and marks the pair; the signal is closed if it was not marked before, and so never twice. |
| `Pairs.FlagsAreHistory` | internal/pool/pool.go:204-232 | Start of draining and force-closed mark from the whole life of a pair: the start is that of its first drain, and it is closed, in service or not, exactly if some event of any past drain closed it. |
| `Pairs.NextDrainIsShort` | internal/pool/pool.go:204-232 | The first timeout check of a new drain closes the pair exactly if it was closed already or its first drain ever began a timeout ago. |
| `Pairs.JoinedFacts` | internal/pool/pool.go:1413-1432 | When pairs start draining one after the other, every pair keeps its start, a newcomer its own or now; whichever gets closed for room was, among the first m of the final list with m at least the cap and all the old ones among them, one that had drained longest. |
| `Pairs.PairStats.ScoreIsExact` | internal/pool/pool.go:140-157 | The score by numbers: three parts loss, one part latency up to 1500 ms, one part probe loss; 0.5 unprobed, infinite dead. |
| `Orders.InsertionSort` | internal/pool/pool.go:1767-1787 | The in-place insertion sort leaves a permutation of the array in which no element is less than an earlier one, for every weak order. |
| `Explorer.TopOf` | internal/pool/pool.go:1759-1765 | The ranking by score and the cut behind it: min(n, how many there are) distinct keys, best first, and nobody left out is better than anybody taken; a dead pair ranks behind every other. |
| `Explorer.TopMeans` | internal/pool/pool.go:1759-1765 | In numbers: a chosen score is finite if one left out or chosen after it is, and then no greater. |
| `Orders.StringOrder` | internal/pool/pool.go:326-332 | Byte-wise string comparison is such an order. |
| `Orders.ComesFirst` | internal/pool/pool.go:326-332 | Behind their common beginning the string that ends comes first, else the one with the smaller character. |
| `LossRanking.CollectLosses` | internal/pool/pool.go:733-744 | There is a list for a name exactly if some counted pair carries it, every loss is in it as often as such a pair has that loss, and its mean is the mean loss of the name, in whatever order the map was walked. |
| `LossRanking.Choose` | internal/pool/pool.go:745-759 | The chosen name has a mean loss that no other name exceeds and that reaches the threshold; none is chosen exactly when no mean does. |
| `LossRanking.TotalRemove` | internal/pool/pool.go:1789-1798 | The total of a set of losses does not depend on the order they are added in. |
| `LossRanking.MeanIsBetween` | internal/pool/pool.go:733-759 | A mean that reaches the threshold has a loss that does, one that does not has a loss below it. |
| `WeightedChoice.SlicesPartition` | internal/pool/pool.go:1836-1846 | The slices of the items are disjoint, none is empty, and together they are exactly [0, total): every r there picks one item and every item can be picked. |
| `WeightedChoice.PickIndex` | internal/pool/pool.go:1837-1846 | The loop finds the item whose slice contains r. |
| `WeightedChoice.LessLossMoreWeight` | internal/pool/pool.go:1818-1835 | The slice of the lower loss is the longer one, and equal losses have equal slices. |
| `WeightedChoice.UrnIsExact` | internal/pool/pool.go:1818-1835 | The slice of item i starts at the sum of the inverse losses before it and is 1 / (loss + 0.01) long. |
| `WeightedChoice.WeightedChoices` | internal/pool/pool.go:1818-1853 | Distinct members of the input, exactly min(n, ceil(L/2)) of them since the bound is evaluated again on the shrinking slice; each is the owner, by weight 1 / (loss + 0.01) among those left, of a draw below the total weight left. |
| `ExplorerRuns.EvictKeeps` | internal/pool/pool.go:761-796 | Evicting a name keeps the joint invariant up to the names forgotten so far. |
| `ExplorerRuns.SweepKeeps` | internal/pool/pool.go:873-929 | An orphan sweep keeps it. |
| `ExplorerRuns.RestoreKeeps` | internal/pool/pool.go:1066-1086 | Restoring a quarantined name with its remembered partners keeps it. |
| `ExplorerRuns.TrimKeeps` | internal/pool/pool.go:990-1009 | Trimming the quarantine keeps it up to the trimmed names. |
| `ExplorerRuns.AttemptKeeps` | internal/pool/pool.go:1035-1043 | Stamping a recycle attempt keeps it. |
| `ExplorerRuns.AddKeeps` | internal/pool/pool.go:434-449 | Adding a pair keeps it when the pair is known already or neither name is quarantined. |
| `ExplorerRuns.EnrolKeeps` | internal/pool/pool.go:457-491 | Enrolling a list of such pairs keeps it and leaves the quarantines and the queue alone. |
| `ExplorerRuns.DropNameKeeps` | internal/pool/pool.go:530-553 | Forgetting a name keeps it up to that name. |
| `ExplorerRuns.StepKeeps` | internal/pool/pool.go:434-1190 | Every enabled step keeps the joint invariant, up to what that step forgets. |
| `ExplorerRuns.RunKeeps` | internal/pool/pool.go:434-1190 | So does every run: only names forgotten on the way can be out of place. |
| `ExplorerLaws.InitialIsJoint` | internal/pool/pool.go:287-324 | A new explorer satisfies the joint invariant and queues every pair. |
| `ExplorerLaws.EveryRunIsJoint` | internal/pool/pool.go:287-1190 | After every run from the constructor no live pair has a quarantined name, every live name is listed, no name is listed and quarantined, remembered partners are known - up to forgotten names, and outright when nothing was trimmed or forgotten; and no list repeats a name. |
| `ExplorerLaws.RunKeepsLists` | internal/pool/pool.go:434-1190 | No run makes a list repeat a name if none was repeated before. |
| `ExplorerLaws.TrimExact` | internal/pool/pool.go:990-1009 | A trim keeps the joint invariant if and only if nothing on the other axis remembers a dropped name. |
| `ExplorerLaws.ForgetExact` | internal/discovery/ipdiscovery.go:215-222 | A forgetting by discovery keeps it if and only if the name was not listed just once or nothing on the other axis remembers it. |
| `ExplorerLaws.AddExact` | internal/pool/pool.go:434-449 | Adding a pair keeps the invariant, whatever has been forgotten before, if and only if the pair is there already or neither name is quarantined. |
| `ExplorerLaws.PrioritizeExact` | internal/pool/pool.go:457-491 | Prioritizing pairs keeps the invariant, whatever has been forgotten before, if and only if each named pair is there already or free of quarantined names. |
| `ExplorerLaws.TrimThenRecycleLeaks` | internal/pool/pool.go:990-1086 | Trimming a remembered partner and then recycling the name brings back a live pair under a name that is in no list. |
| `Leaks.LeakIsReachable` | internal/pool/pool.go:732-1190 | For every cap such a state is reached from any full configuration of cap + 2 IPs and two SNIs, on a clock that never runs backwards: evict an SNI and all IPs but one, trim to the cap, which drops the oldest, try the SNI when its cooldown is over, restore it; the pair of the last IP with the other SNI is spared throughout. |
| `ExplorerLaws.StepConserves` | internal/pool/pool.go:732-1190 | Every step of eviction, sweep and recycling conserves the union of active and quarantined names of both axes. |
| `ExplorerLaws.RunConserves` | internal/pool/pool.go:732-1190 | Over any run of such steps that union is exactly the same set. |
| `ExplorerLaws.SweepsAgree` | internal/pool/pool.go:873-987 | After both sweeps each list names live pairs only, and every live name but forgotten ones is listed. |
| `ExplorerLaws.StepKeepsQueue` | internal/pool/pool.go:434-729 | No step makes a duplicate-free queue contain a pair twice. |
| `ExplorerLaws.RunKeepsQueue` | internal/pool/pool.go:434-729 | Over every run the queue stays duplicate-free and inside the table. |
| `ExplorerLaws.InitialQueueExact` | internal/pool/pool.go:287-324 | The initial queue is duplicate-free if and only if the configuration repeats no pair. |
| `ExplorerLaws.HandedOutOnce` | internal/pool/pool.go:678-729 | Between two reshuffles, for a pair that stays in the table and is in no prioritized front, occurrences queued at the start are the hand-outs plus what still waits. |
| `ExplorerLaws.FrontFacts` | internal/pool/pool.go:457-491 | The prioritized front holds each named pair once. |
| `ExplorerLaws.AttemptsAreSpaced` | internal/pool/pool.go:1010-1049 | With a monotone clock two re-probes of one name are at least the cooldown apart, also if it left the quarantine and came back in between. |
| `StepLaws.EvictMeans` | internal/pool/pool.go:761-796 | Name by name: the pairs of the evicted name leave table and queue, it leaves its list, its new entry holds just its partners, its origin and the time; nothing else changes. |
| `StepLaws.SweepMeans` | internal/pool/pool.go:873-987 | Exactly the listed names without a pair that are not quarantined go there, remembering nobody, never tried, with the ledger's origin or static; keys of the queue go with them, everything else stays. |
| `StepLaws.RestoreMeans` | internal/pool/pool.go:1066-1086 | The name leaves the quarantine and is listed, once; it has a pair with each of its partners that is not quarantined, and those it did not have wait behind the old queue, each once. |
| `StepLaws.AttemptMeans` | internal/pool/pool.go:1035-1043 | An attempt changes the time and the count of that one entry. |
| `StepLaws.AddMeans` | internal/pool/pool.go:434-449 | A new pair is queued last and its unlisted names are listed last; a known one changes nothing. |
| `StepLaws.PrioritizeMeans` | internal/pool/pool.go:457-491 | The named pairs, all of them stored now, stand in front; the rest of the queue follows in its order. |
| `StepLaws.ForgetMeans` | internal/discovery/ipdiscovery.go:215-222 | Forgetting takes the pairs of a name out of table and queue, one listing and the ledger entry; quarantines stay. |
| `StepLaws.WithoutConcat` | internal/pool/pool.go:505-527 | Filtering keeps the order: it goes through front and rest separately. |
| `Explorer.CombinationExplorer.constructor` | internal/pool/pool.go:287-324 | A valid explorer in an initial state, nothing forgotten; every pair is alive, unprobed and static on both axes, and so is every listed name in the ledger. |
| `Explorer.Enrol` | internal/pool/pool.go:302-311 | One fresh unused pair per configured key, and the names that the keys carry. |
| `Explorer.CombinationExplorer.LookupOrigin` | internal/pool/pool.go:363-392 | The ledger first, else some live pair, else the quarantine, else dynamic. |
| `Explorer.CombinationExplorer.AddUnexploredPair` | internal/pool/pool.go:434-449 | The addition, whatever the names; a known pair changes nothing. The invariant holds afterwards if and only if the pair was known or neither name is quarantined. |
| `Explorer.CombinationExplorer.PrioritizePairs` | internal/pool/pool.go:457-491 | The named pairs in front in their order, the rest of the queue behind them in its order; counts the named ones. The invariant holds afterwards if and only if each of them was stored or free of quarantined names. |
| `Explorer.CombinationExplorer.RemoveAllPairsFor` | internal/pool/pool.go:494-527 | Every pair that carries the name leaves table and queue, nothing else does. |
| `Explorer.CombinationExplorer.RemoveBookkeeping` | internal/pool/pool.go:530-553 | The first listing and the ledger entry of the name go. |
| `Explorer.CombinationExplorer.QuarantineOrphaned` | internal/pool/pool.go:873-987 | One Sweep step of the axis, with the number of list entries swept. |
| `Explorer.CombinationExplorer.SweepBoth` | internal/pool/pool.go:1400-1402 | A run of two sweeps after which lists and table agree. |
| `Explorer.CombinationExplorer.Banish` | internal/pool/pool.go:761-796 | One Evict step that remembers the partners in the order they were met. |
| `Explorer.CombinationExplorer.EvictWeakest` | internal/pool/pool.go:732-871 | The choice is the weakest eligible unprotected name at or above the threshold: some probed pair of it with the right origin reaches the threshold, and if none is chosen every such unprotected name has one that does not. Its pairs go, and the step is followed by a sweep of the other axis. |
| `Explorer.CombinationExplorer.ProbeOne` | internal/pool/pool.go:601-652 | Some sequence of probe outcomes within the attempt bounds is recorded on the pair, on top of whatever history it has; the last data check, if there was one, marks it black-holed exactly if that attempt failed; nothing else in the table moves. |
| `Explorer.CombinationExplorer.RestorePairs` | internal/pool/pool.go:1066-1082 | The recycled name gets back exactly its pairs over partners that are not quarantined, under its own remembered origin and the partner's ledger origin; pairs that are there stay the same objects. |
| `Explorer.CombinationExplorer.TryRecycleOne` | internal/pool/pool.go:1035-1190 | Nothing if the name is gone, else a stamped attempt followed by the recovery exactly if there is a remembered partner or a listed name to try it with and the gate lets the trial pass; its pairs carry the remembered origin, static if there is none, and the partners' ledger origins; all of it steps of one run. |
| `Explorer.DropOldest` | internal/pool/pool.go:992-1009 | The trim: what stays is within the cap, no more goes than must, and everything dropped is at least as old as everything kept. |
| `Explorer.CombinationExplorer.TrimQuarantine` | internal/pool/pool.go:990-1009 | The same as one Trim step of the explorer, the dropped names recorded as forgotten. |
| `Explorer.CombinationExplorer.Candidates` | internal/pool/pool.go:1010-1023 | Distinct quarantined names of the right origin whose cooldown has run out: min(batch, how many there are) of them. |
| `Explorer.CombinationExplorer.RecycleAttempt` | internal/pool/pool.go:990-1134 | A trim to the cap, then one stamped try for each of min(batch, eligible) distinct names, eligible being those still quarantined, of the right origin, last tried a cooldown ago; the result counts those that came back. |
| `Explorer.CombinationExplorer.InitialExplore` | internal/pool/pool.go:678-691 | One Take step: the first 20 pairs of the queue leave it and each is probed at least twice; no other pair is touched. |
| `Explorer.CombinationExplorer.PeriodicExplore` | internal/pool/pool.go:694-729 | The known pairs of the 15 best scores, probed and not black-holed, and the next 10 of the queue are each probed at least twice, no others are touched, and a Reshuffle of the whole table follows exactly when the queue had run out. |
| `ActivePools.ActivePool.Initialize` | internal/pool/pool.go:1269-1282 | As many eligible pairs as there are slots, all of them if they fit, take the place of whatever was in service and are flagged; the pool invariant holds afterwards if and only if every pair that was in service is chosen again and no draining one is. |
| `ActivePools.InitializeExact` | internal/pool/pool.go:1269-1282 | Every choice it may make keeps the invariant if and only if there is no slot or no draining pair is eligible, and nothing was in service or every pair in service is eligible and the eligible pairs fit into the slots. |
| `ActivePools.ActivePool.RefreshFirst` | internal/pool/pool.go:1269-1350 | A refresh of an idle pool before Initialize, with more eligible pairs than slots: Initialize then has a choice that breaks the invariant. |
| `ActivePools.ActivePool.EnforceDrainTimeout` | internal/pool/pool.go:1288-1293 | Each draining pair is checked for its age: force-closed afterwards exactly if it was before or its drain began a timeout ago or more. |
| `ActivePools.ActivePool.DropDrained` | internal/pool/pool.go:1295-1304 | A pair leaves draining if and only if it has no active connection left. |
| `ActivePools.ActivePool.StartDraining` | internal/pool/pool.go:1413-1432 | The pair is appended in any case, its start of draining set unless it has one; at the cap one longest-draining pair, and no other, is force-closed and stays listed. |
| `ActivePools.ActivePool.MoveWeak` | internal/pool/pool.go:1306-1319 | The pairs that are alive with a rate under the loss threshold stay in service in their order, the others follow the draining pairs in theirs, with exactly the drain flags that joining one after the other gives them all: at the cap the first longest-draining pair is closed each time. |
| `ActivePools.ActivePool.FreeCandidates` | internal/pool/pool.go:1321-1338 | Exactly the eligible pairs that are not held. |
| `ActivePools.ActivePool.EligibleAre` | internal/pool/pool.go:1328-1331 | Probed, not black-holed, alive and under the loss threshold; if no stored pair is, all that are probed and not black-holed. |
| `ActivePools.ActivePool.FillSlots` | internal/pool/pool.go:1339-1346 | min(empty slots, half the free candidates rounded up) free candidates enter service. |
| `ActivePools.ActivePool.EvictCycle` | internal/pool/pool.go:1352-1384 | The configured number of evictions, or fewer once no unprotected name is weak, each with its sweep, in the order of the clock, and no other step; none removes a held pair, so the pool invariant survives. |
| `ActivePools.ActivePool.RecycleCycle` | internal/pool/pool.go:1386-1398 | A trim to the configured cap followed by recycling on the clock; just the trimmed names are forgotten, and every pair that was there is there and is the same object. |
| `ActivePools.ActivePool.RefreshService` | internal/pool/pool.go:1284-1350 | First half of a refresh: in service are the pairs of the pool that were alive with a rate under the threshold and new ones from the eligible pairs nobody holds, at most half of those rounded up; draining are the old draining pairs with connections, then the other pairs of the pool, with exactly the drain flags of an age check followed by joining one after the other; a pair that left moved by its check, all others keep their flags. |
| `ActivePools.ActivePool.EvictIfDue` | internal/pool/pool.go:1352-1384 | On a due refresh the eviction cycle of the axis, evictions and sweeps only, on any other nothing. |
| `ActivePools.ActivePool.RecycleIfDue` | internal/pool/pool.go:1386-1398 | On a due refresh a trim to the cap and a try for as many eligible names as the batch allows, on any other nothing; what is forgotten is what the trim drops, which is nothing while the quarantine is within its cap. |
| `ActivePools.ActivePool.RefreshTable` | internal/pool/pool.go:1352-1404 | Second half: both evictions, both recyclings and both sweeps, each when due, on the state and at the time the one before it left. It forgets exactly what its two trims drop. Lists and table agree up to forgotten names, so exactly, and with no name lost, if nothing was forgotten before and the trims dropped nothing, which they do only if recycling is due and a quarantine may overflow. |
| `ActivePools.ActivePool.Refresh` | internal/pool/pool.go:1284-1411 | Both halves together keep the pool invariant: no pair twice, pool within the slots, every held pair is the stored object, flags agree with membership. A held pair is in service afterwards exactly if it was, alive with its rate under the threshold, or was newly filled in; who drains and with which flags is exact, and a stored pair is the same object as before or new and unused. The table half is traced phase by phase on a clock that never runs backwards and forgets exactly what its trims drop; with nothing forgotten, whatever was evicted, recycled or orphaned, both lists agree with the table exactly and no name is lost. |
| `ActivePools.ActivePool.ServesClosed` | internal/pool/pool.go:1284-1350 | Two refreshes of a pool whose only pair is weak and without connections: it drains, is closed at its age, leaves draining and is in service again, force-closed. |
| `ServiceLaws.RefreshByHistory` | internal/pool/pool.go:1306-1319 | At the default thresholds, by what happened to the only held pair: after at most 22 probes and 22 packets it stays in service, after 23 or more lost probes and nothing else it drains. |
| `ServiceLaws.ReportByHistory` | internal/pool/pool.go:1468-1473 | A reported failure of a fresh pair that lost n probes before asks for a refresh if and only if n is at least 22. |
| `ActivePools.ActivePool.Pick` | internal/pool/pool.go:1455-1466 | From a nonempty table: a pair in service, else a known one, else any stored one. |
| `ActivePools.ActivePool.ReportFailure` | internal/pool/pool.go:1468-1473 | One lost probe on the record; there is one whole refresh, with the same trace and the same agreement of lists and table, exactly if that leaves the pair dead or at the loss threshold, and a pair in service is draining afterwards; if not, nothing else changes. |
| `ActivePools.ActivePool.Acquire` | internal/mitm/mitm.go:149-153 | A relay takes a connection, counted as open and in total: the pool invariant does not care. |
| `ActivePools.ActivePool.Release` | internal/mitm/mitm.go:158-165 | A relay gives it back; the count never becomes negative. |
| `Discoveries.InternalStepMentions` | internal/pool/pool.go:732-1190 | No step of the explorer or the pool mentions a name, as listed, quarantined, live or remembered, that was not mentioned before, and none touches the ledger: a trim included. |
| `Discoveries.InternalRunKeepsCover` | internal/discovery/ipdiscovery.go:94-115 | So over any such run discovery stays ahead: every mentioned name, a trimmed one too, stays known to it and in the ledger, but for the names it did not answer for before. |
| `Discoveries.Discovery.constructor` | internal/discovery/snidiscovery.go:228-247 | A discovery over any valid explorer: it knows the live names of its axis, has no dynamic ones, and does not answer just for the mentioned names without a live pair or an origin (the SNI side is the mirror image). |
| `Discoveries.NothingMissedAtFirst` | internal/pool/pool.go:287-324 | In a new explorer there are none of those. |
| `Discoveries.Discovery.SyncWithExplorer` | internal/discovery/ipdiscovery.go:94-115 | Exactly the known names with a listing or a ledger entry stay known, and exactly the dynamic names still listed and of dynamic origin stay dynamic, in their order. |
| `Discoveries.Discovery.EvictOldest` | internal/discovery/ipdiscovery.go:215-222 | At the cap the oldest dynamic name is forgotten here and in the explorer, quarantines and the other axis untouched; it is the only kind of name discovery stops answering for. |
| `Discoveries.Discovery.AddPairs` | internal/discovery/ipdiscovery.go:228-236 | Pairs with every partner that is not quarantined, each new one fresh, of dynamic origin and of the partner's ledger origin, the new state of the explorer being exact; on the other axis just those partners are mentioned anew. Whether the name itself is quarantined is not asked: the explorer stays valid if and only if it is not, or no pair is made. |
| `Discoveries.BringsCover` | internal/discovery/ipdiscovery.go:228-236 | The discovery of the other axis stays ahead if and only if it answers for those partners, which it does for listed ones. |
| `Discoveries.Discovery.Inject` | internal/discovery/ipdiscovery.go:207-238 | A name known after syncing changes nothing in the explorer; any other one enters, newest in the dynamic list, paired with every partner in no quarantine, and leaves the explorer in exactly the state that forgetting the name pushed out, entering the origin and adding those pairs leads to; at the cap the first dynamic name that survived syncing, and no other, is pushed out. The explorer stays valid if and only if the name is not quarantined, or still known, or every partner is quarantined; only a name discovery missed can fail that. |
| `Discoveries.Discovery.TakenForNew` | internal/discovery/ipdiscovery.go:94-115 | A quarantined name that neither its list nor the ledger has is taken for new: injecting it revives it as soon as some partner is listed. |
| `Revivals.RevivalIsReachable` | internal/discovery/ipdiscovery.go:207-238 | For every cap, from every valid discovery with two listed partners: a new name is injected, its partner is evicted, as many later names as the cap allows push it out, the partner is recycled when its cooldown is over and brings its pair back, it is evicted in its turn. Discovery is still valid, but injecting the name again would revive it. |
| `Revivals.InjectBehind` | internal/discovery/ipdiscovery.go:207-238 | One more new name: a dynamic name keeps its place in front of those that came after it, or is pushed out of discovery, list, ledger and table together, and stays out. |
| `Managers.OwnRunKeepsDiscovery` | internal/discovery/ipdiscovery.go:94-115 | Discovery's invariant survives every run that explorer and pool take on their own. |
| `Managers.OtherSurvives` | main.go:465-479 | The discovery of one axis survives an injection on the other one, the configured partners used for want of listed ones included. |
| `LastGood.WarmStartMisses` | internal/pool/pool.go:1644-1740 | What discovery misses after a warm start is exactly the names saved as listed that are neither configured nor in a saved pair, and those of saved pairs neither configured nor listed; so it is covered if and only if there are none, and of a save right after a refresh only forgotten names can be among them. |
| `Managers.Manager.constructor` | main.go:465-479 | Pool and both discoveries over one explorer, all valid together; missed are exactly the mentioned names without a live pair or an origin. |
| `Managers.Build` | internal/pool/pool.go:1644-1740 | The whole as a warm start builds it, valid, with the missed names of each axis given by configuration and document. |
| `Managers.Manager.InjectInto` | internal/discovery/ipdiscovery.go:207-238 | An injection on either axis keeps pool, explorer and both discoveries valid together if and only if it revives no quarantined name and the name pushed out at the cap carries no held pair; discovery misses at most the name pushed out in addition. A known name changes nothing in the explorer; a new one leaves it in exactly the state of pushing out, entering and pairing, and comes last among the dynamic names. |
| `Managers.Manager.PushOutHeld` | internal/discovery/ipdiscovery.go:207-238 | A run to the second case, for every cap: a refresh of an idle pool puts the pair of the oldest dynamic name in service, and the injection that follows pushes that name out and costs the pool its invariant. |
| `Managers.Manager.RefreshPool` | internal/pool/pool.go:1284-1411 | A refresh under both discoveries keeps all of them valid and every connection count right; it is one refresh of the pool, phase by phase, in which just the pairs that were alive with a rate under the threshold keep their place. |
| `Managers.Manager.Explore` | internal/pool/pool.go:1603-1612 | So does exploring, the first time or later; the first 20 pairs of the queue, later on 10, leave it and are probed, and an exhausted queue is filled with every stored pair. |
| `Managers.Manager.Dial` | internal/mitm/mitm.go:146-154 | A relay takes a pair from a nonempty table, one in service if there is any; every pair still counts as many connections as there are relays over it. |
| `Managers.Manager.HangUp` | internal/mitm/mitm.go:156-169 | A relay ends, the others stay: its connection is given back. If it failed, its pair has just a lost packet and a lost probe more, wherever it is by now, and there is one refresh exactly if these took it to the threshold, after which it does not serve; counts and invariants hold. |
| `Managers.Manager.Handle` | main.go:455-479 | One event that is not risky keeps everything valid and does what it is for: an injected name is vouched for, each other event has its own effect; the log of push-outs grows by exactly the name an injection finds first at the cap, and discovery misses at most that name in addition. |
| `Managers.Manager.Follow` | main.go:455-479 | Any script of injections on both axes, refreshes, first and later explorations, Initialize, and relays that dial, carry and hang up, in any order, up to the first push-out or event the invariant may not survive: all stay valid, every pair counts its relays, as many of which are open as the script dialled and hung up, the pool was refreshed at least as often as it asked for, every name it brought is known and in the ledger or missed, discovery misses nothing new, and every quarantined name is known and in the ledger or was missed. If nothing was missed, every quarantined name stays known and no injection revives one: only a push-out, an Initialize outside its condition or a dial of an empty table stops the script, and no push-out if the caps have room for all names there are and all that come. |
| `Managers.Manager.FollowOn` | main.go:455-479 | The same past the push-outs: what discovery misses at the end it missed before or is a name pushed out on the way, and those were dynamic at first or injected since. |
| `HealthLoops.RunHealthLoop` | internal/pool/pool.go:1603-1615 | The health loop from an idle pool, for any number of turns: it explores first and in each turn, and refreshes once in each; the pool invariant holds throughout, what it does to the explorer is one run on a clock that never runs backwards, and over all its refreshes two tries of one name are at least the cooldown apart. |
| `LastGood.Snapshot` | internal/pool/lastgood.go:196-274 | The two active lists in order, and every stored pair once with its averages, verdicts and whether it was in service. |
| `LastGood.QuarantineIsNotSaved` | internal/pool/lastgood.go:200-238 | A snapshot of an explorer that keeps its invariant records live names only and mentions no quarantined name in its lists. |
| `LastGood.PairRecordMeans` | internal/pool/lastgood.go:240-265 | A pair is recorded as dead, or else by whether it is in service, with averages, latency and verdicts; its counts are not. |
| `LastGood.NameRecordMeans` | internal/pool/lastgood.go:200-238 | A name is recorded with the ledger's origin or static, and by whether and when it was quarantined. |
| `LastGood.QuarantineIsRead` | internal/pool/lastgood.go:277-319 | A name is quarantined by a document exactly if it is marked so there: by its last such entry, without partners, last tried at the zero time, evicted when it says, or now if it gives the zero time. |
| `LastGood.LedgerIsRead` | internal/pool/lastgood.go:277-319 | Each name gets the origin of its last entry. |
| `LastGood.Restore` | internal/pool/lastgood.go:277-368 | The table gets a fresh out-of-service pair for each recorded key, with the origins of the ledger where that has its names; the lists are sorted, the recorded pairs come first in the queue. |
| `LastGood.LedgerRoundTrip` | internal/pool/lastgood.go:200-319 | The recorded origins are the ledger's, static where it said nothing. |
| `LastGood.RestartKeeps` | internal/pool/lastgood.go:196-368 | Snapshot and restore into an explorer without pairs: same keys, averages, latency and verdicts, nothing in service, sorted lists with the same names as often and the same origins, each pair queued once, joint invariant. |
| `LastGood.SecondSnapshot` | internal/pool/lastgood.go:196-368 | A second snapshot is the first but for order, time and pairs in service becoming live. |
| `LastGood.RestoredIsStable` | internal/pool/lastgood.go:320-352 | A pair recorded as probed and alive is stable at once, whatever its averages: the probe counters are not saved. |
| `LastGood.RestoredListing` | internal/pool/lastgood.go:277-368 | How often a name is listed after a restore into any explorer: as often as before, plus once for each of its records, or once if only pairs mention it. |
| `LastGood.RestoredOnceExactly` | internal/pool/lastgood.go:277-368 | So the list repeats no name if and only if neither list repeated one and the document mentions none that was listed. |
| `LastGood.RestoreExact` | internal/pool/lastgood.go:277-368 | A restore into any explorer keeps its invariant if and only if the document records no name as quarantined and mentions none that is quarantined there. |
| `LastGood.WarmStartIsJoint` | internal/pool/pool.go:1597-1737 | A new explorer for the configured pairs with the document of one that kept its invariant restored into it keeps it; all configured and recorded pairs are live and nothing is quarantined, whatever was quarantined at the save. |
| `LastGood.ConfiguredNamesPileUp` | internal/pool/pool.go:1597-1737 | Each such start lists a configured name once more than it was listed at the save, and any other name as often, so lists repeat names after every start with a configured name saved. |
| `LastGood.WarmStart` | internal/pool/pool.go:1597-1737 | The same as a program over the objects: the result is a valid explorer with nothing in service. |
| `LastGood.Restart` | internal/pool/lastgood.go:196-368 | Saving any valid explorer and starting over from the configuration and the document. |
| `MaskRuns.Pick` | internal/finalmask/finalmask.go:18-23 | Any value from the start to the end of the range, or its start when the end is not above it. |
| `MaskRuns.RunIsBounded` | internal/finalmask/finalmask.go:164-193 | Under terminating settings every loop run is at most as long as lengths, bytes and splits together. |
| `MaskRuns.TerminationExact` | internal/finalmask/finalmask.go:164-193 | The loop ends on every input, whatever it picks, if and only if the last length range or the maxSplit range starts at 1 or more. |
| `MaskRuns.RunStaysInside` | internal/finalmask/finalmask.go:164-193 | A run never passes the end of the data, and a positive maxSplit bounds its cuts. |
| `MaskRuns.NoEmptyCut` | internal/finalmask/finalmask.go:164-193 | Positive length ranges never cut an empty piece. |
| `MaskRuns.PiecesJoin` | internal/finalmask/finalmask.go:164-193 | The pieces of a run put together are the data it has covered, one piece per cut. |
| `MaskRuns.StreamIsIdentity` | internal/finalmask/finalmask.go:216-253 | What a stream layer emits is the bytes it was given. |
| `MaskRuns.AllHeld` | internal/finalmask/finalmask.go:187-205 | With no delay anywhere in the run every piece is held back, in order. |
| `MaskRuns.AllSent` | internal/finalmask/finalmask.go:187-205 | With some upper end not zero every piece is written at once, in order. |
| `MaskRuns.WrittenInRecords` | internal/finalmask/finalmask.go:187-205 | Whatever the delays, what is written at once and what is held back are their pieces, each in a record of its own under the header of the hello. |
| `MaskRuns.HelloIsResplit` | internal/finalmask/finalmask.go:146-207 | Whatever the delays, a tlshello layer puts on the wire the first record re-split under its own header, the pieces written at once in front of those held back, then all that followed the record. |
| `MaskRuns.HelloIsSame` | internal/finalmask/finalmask.go:146-207 | A receiver reads the same content from it, type, version, payload and the same unfinished rest, if and only if the pieces as written join to the payload. |
| `RecordOrder.RunIsSame` | internal/finalmask/finalmask.go:160-207 | A run whose layer takes all delays for zero is read as the hello was, or not, by whether a record that carries something is held back and a later one is not. |
| `RecordOrder.OvertakenDiffers` | internal/finalmask/finalmask.go:160-207 | Where that happens there is a payload, marking its own pieces, that arrives in another order. |
| `RecordOrder.SwapFails` | internal/finalmask/finalmask.go:160-207 | Settings that allow it have a run of the loop in which it happens. |
| `RecordOrder.FailSwaps` | internal/finalmask/finalmask.go:160-207 | Every run in which it happens shows in the settings. |
| `RecordOrder.OrderExact` | internal/finalmask/finalmask.go:146-207 | For every well-formed setting of a tlshello layer: every write and everything it picks reads the same for a receiver if and only if some upper end of a delay is not zero, or no round whose delay starts at 0 and can carry a byte comes before one whose delay starts above 0 and can carry one, counting bytes and splits. |
| `FinalMask.FragmentLayer.CutHello` | internal/finalmask/finalmask.go:160-196 | The loop makes a run to the end of the payload and emits and holds back exactly what that run says. |
| `FinalMask.FragmentLayer.ProcessTlsHello` | internal/finalmask/finalmask.go:146-207 | Only the first write that starts with a whole handshake record is cut; anything else passes unchanged. |
| `FinalMask.FragmentLayer.ProcessStream` | internal/finalmask/finalmask.go:209-253 | Writes within the configured window are cut by a run to their end; others pass unchanged. |
| `FinalMask.FragmentLayer.Process` | internal/finalmask/finalmask.go:124-130 | Counts the write; emits what some completed run of the loop makes of it if it is in the window of the layer or the first hello, else the write itself; and what a receiver cannot tell from it if a tlshello layer keeps the order. |
| `FinalMask.FinalMasker.Clone` | internal/finalmask/finalmask.go:302-313 | Fresh layers with the same settings in the same order, counters at zero. |
| `FinalMask.StackTracks` | internal/finalmask/finalmask.go:321-337 | One layer more on a stack that tracks its input gives a stack that does. |
| `FinalMask.SendThrough` | internal/finalmask/finalmask.go:321-337 | What the sink gets is exactly what the layers make of the write, one after the other: each emission with data is a write to the next layer, the last layer's go out, up to the first that fails. For a receiver that is the same as what was written if the tlshello layers keep the order. |
| `FinalMask.SendEmissions` | internal/finalmask/finalmask.go:321-337 | The loop over the emissions of one layer: each that has data goes through the rest of the stack, pauses do not, and it ends at the first failure. |
| `FinalMask.FinalMasker.Send` | internal/finalmask/finalmask.go:317-319 | The same for one write of the connection, the counts of the layers moved on. |
| `FinalMask.Connection` | internal/finalmask/finalmask.go:302-337 | For every stack, every sequence of writes and all picks: the chunks on the wire are what the layers make of the writes, from zero counts, and it fails exactly if the sink does. If the tlshello layers keep the order the sink reads as the writes do, and stream layers alone change no byte, whatever their delays. |
| `MaskStacks.StreamChunksAreShort` | internal/finalmask/finalmask.go:209-253 | Behind one stream layer that applies to all writes, with lengths in 1..m and no maxSplit, no chunk of any sequence of writes is longer than m or empty. |
| `MaskStacks.OneWriteIsShort` | internal/finalmask/finalmask.go:209-253 | The same for one write in the window of the layer. |
| `MaskStacks.OtherWritesAreWhole` | internal/finalmask/finalmask.go:146-253 | A write outside the window of a stream layer, or one that is not the first whole handshake record of a tlshello layer, goes out as it is. |
| `MaskStacks.CutsFollowRanges` | internal/finalmask/finalmask.go:164-193 | Piece i is as long as length range i allows, the last range standing for all further ones, or ends the data. |
| `MaskStacks.HelloRecordsAreShort` | internal/finalmask/finalmask.go:146-207 | The first hello behind one tlshello layer with lengths in 1..m goes out in records of 1 to m bytes each, with what followed it behind them. |
| `MaskStacks.LayerWaits` | internal/finalmask/finalmask.go:124-253 | A layer waits for the sum of the positive delays its rounds picked, held-back records and idle rounds included, and for nothing when it hands the write on. |
| `MaskSettings.ParsedFromIsNatural` | internal/finalmask/finalmask.go:26-41 | A parsed range starts at 0 or more; its end may be below its start. |
| `MaskSettings.RangeIsRead` | internal/finalmask/finalmask.go:26-41 | Two numbers around a dash, with any white space, are the range from the one to the other, the digits counted from the front. |
| `MaskSettings.NumberIsRead` | internal/finalmask/finalmask.go:26-41 | One number is the range of that value. |
| `MaskSettings.AtoiReads` | internal/finalmask/finalmask.go:32-40 | Digits behind at most one sign are read as that number exactly if it fits 64 bits. |
| `MaskSettings.AtoiRefuses` | internal/finalmask/finalmask.go:32-40 | Nothing else is read as a number. |
| `MaskSettings.Trims` | internal/finalmask/finalmask.go:27-33 | White space goes at both ends, and nothing else does. |
| `MaskSettings.UpsideDownSwaps` | internal/finalmask/finalmask.go:187-205 | With the delays "0" and "5-0" the layer is accepted and ends, but the two halves of a payload of two different bytes arrive swapped. |
| `MaskSettings.UpsideDownKeeps` | internal/finalmask/finalmask.go:187-205 | Delays whose upper ends are all zero keep the order where none that starts at 0 stands before one that does not, such as a lone "5-0". |
| `Checksum.NoOverflowExact` | internal/forward/rawinject_common.go:66-73 | The uint32 accumulator holds the true sum of every input of a length if and only if that length is at most 131074 bytes. |
| `Checksum.Sum16` | internal/forward/rawinject_common.go:66-78 | The folded sum of the words, odd byte high; the accumulator wraps where Go's does. |
| `Checksum.Fold` | internal/forward/rawinject_common.go:74-76 | The folding loop ends with the representative of the sum mod 65535, zero only for zero. |
| `Checksum.ChecksumFold` | internal/forward/rawinject_common.go:81-86 | The complement of it. |
| `Checksum.VerifiesMeans` | internal/forward/rawinject_common.go:80-86 | A sum folds to all ones if and only if it is a positive multiple of 65535 (section 1 of RFC 1071). |
| `Checksum.ComplementVerifies` | internal/forward/rawinject_common.go:80-91 | Adding the complement of the rest makes the whole verify. |
| `RawFrame.IpChecksum` | internal/forward/rawinject_common.go:89-91 | The complement of the folded header sum. |
| `RawFrame.TcpChecksum` | internal/forward/rawinject_common.go:94-101 | The complement of the folded sum of pseudo-header and segment (section 3.1 of RFC 9293), the sum of the segment wrapped at 2^32 as the accumulator wraps it, which up to 131074 bytes it never does. |
| `RawFrame.PseudoHeaderIs` | internal/forward/rawinject_common.go:94-101 | Its pseudo-header byte by byte: both addresses, zero, 6, the length in two bytes. |
| `RawFrame.PatchIpChecksum` | internal/forward/rawinject_unix.go:324-326 | After the patch the IP header verifies; no other byte changed. |
| `RawFrame.PatchTcpChecksum` | internal/forward/rawinject_unix.go:333-335 | After the patch the segment verifies with its pseudo-header, up to 131074 bytes; no other byte changed. |
| `RawFrame.BuildFakeFrame` | internal/forward/rawinject_unix.go:310-338 | The template's headers and the payload, only total length, ID, flags, sequence number and the two checksums changed, each to the value the receiver expects; both checksums verify. Of an IP header that claims less than 20 bytes the same is stated as far as the fields do not overlap: the ID from 4 bytes on, the header checksum from 12, the segment checksum from 4, the rest always. |
| `RawFrame.FakeEndsAtFirstByte` | internal/forward/rawinject_unix.go:331 | The fake ends exactly at ISN + 1, mod 2^32. |
| `RawFrame.FakeIsRejected` | internal/forward/rawinject_unix.go:331 | It fails the acceptability test of section 3.4 of RFC 9293 if and only if window and length together are at most 2^32. |
| `RawInjection.OffsetIsExact` | internal/forward/rawinject_unix.go:198-205 | The IP header is found in every Ethernet frame, and in a bare packet if and only if it is not from 8.0.0.0/16 with 54 bytes or more. |
| `RawInjection.ParseReads` | internal/forward/rawinject_unix.go:206-226 | Every well-formed packet whose header is found is read field by field. |
| `RawInjection.EveryPacketIsRead` | internal/forward/rawinject_unix.go:198-226 | Of all bytes: which packets are read at all, by their lengths and bytes, well-formed or not. |
| `RawInjection.EveryFieldIsRead` | internal/forward/rawinject_unix.go:198-226 | And which bytes each field of such a packet is the number of. |
| `RawInjection.LookIsExact` | internal/forward/rawinject_unix.go:206-304 | By header bytes: a SYN without ACK to the server is recorded with its sequence number; an empty ACK without FIN, SYN or RST is the handshake if it goes to the server, and a reply with its acknowledgment number if it comes from there; everything else is ignored. |
| `RawInjection.SynIsSeen` | internal/forward/rawinject_unix.go:206-248 | A SYN packet written out byte by byte, bare and in an Ethernet frame. |
| `RawInjection.LookIsSane` | internal/forward/rawinject_unix.go:207-226 | What is taken for the handshake ACK has whole headers in it, so the frame builder never reads outside it. |
| `RawInjection.PaddedAckIsMissed` | internal/forward/rawinject_unix.go:223 | An empty ACK is missed if and only if the link padded it: the captured length counts, not the IP total length. |
| `RawInjection.AfterMeans` | internal/forward/rawinject_unix.go:228-304 | The state of a registration from its history: last SYN, whether a handshake ACK was seen, and confirmed exactly when a later ACK acknowledged just the SYN known by then. |
| `RawInjectors.RunKeeps` | internal/forward/rawinject_unix.go:89-304 | Every interleaving of packets, registrations, cleanups and finishing injections keeps the injector coherent. |
| `RawInjectors.RegistrationIsItsHistory` | internal/forward/rawinject_unix.go:89-304 | In every interleaving each registration is what its own packets make of it. |
| `RawInjectors.JobsFit` | internal/forward/rawinject_unix.go:251-277 | Each injection carries the first handshake packet of its registration and the last SYN seen before it. |
| `RawInjectors.ClosedOnce` | internal/forward/rawinject_unix.go:266-270 | A finishing injection finds its channel open: no interleaving closes it twice. |
| `RawInjectors.EveryRunInjectsOnce` | internal/forward/rawinject_unix.go:89-304 | At most one injection per registration, one exactly when a handshake ACK was seen; confirmed implies it, and is characterized by the packets alone. |
| `RawInjectors.RawInjector.RegisterPort` | internal/forward/rawinject_unix.go:89-94 | A fresh registration replaces whatever the port led to; the old one keeps its state. |
| `RawInjectors.RawInjector.CleanupPort` | internal/forward/rawinject_unix.go:96-100 | The port leads nowhere; running injections are unaffected. |
| `RawInjectors.RawInjector.RecordSyn` | internal/forward/rawinject_unix.go:241-248 | The newest initial sequence number counts. |
| `RawInjectors.RawInjector.Claim` | internal/forward/rawinject_unix.go:252-258 | The first handshake ACK claims the injection. |
| `RawInjectors.RawInjector.Confirm` | internal/forward/rawinject_unix.go:291-303 | Confirmed exactly on an ACK of the known SYN plus one after the fake was sent. |
| `RawInjectors.RawInjector.HandlePacket` | internal/forward/rawinject_unix.go:193-305 | The whole packet handler as one step of the model, with the injection it starts. |
| `RawInjectors.RawInjector.FinishInjection` | internal/forward/rawinject_unix.go:262-277 | The frame sent is a fake for the captured packet, and the channel is closed once. |
| `ClientHellos.ExtensionsAreRead` | internal/tlsutil/hello.go:304-318 | The extension walk reads every list back whole, up to exactly its end. |
| `ClientHellos.HostNameIsFound` | internal/tlsutil/hello.go:310-317 | The one server_name extension is found wherever it stands among the others. |
| `ClientHellos.ParsedEncoded` | internal/tlsutil/hello.go:249-320 | Every well-formed single-record ClientHello, whatever its extensions and whatever lies behind it in the buffer, gives back exactly its random, session ID and the name of its last server_name. |
| `ClientHellos.SniIsParsed` | internal/tlsutil/hello.go:249-320 | In particular the host name laid out by section 3 of RFC 6066. |
| `ClientHellos.ParseClientHello` | internal/tlsutil/hello.go:249-320 | The cursor and the loop compute that result for all bytes, error paths and out-of-capacity panics included. |
| `ClientHellos.FieldsAreExact` | internal/tlsutil/hello.go:249-301 | Of all bytes, by position: each field is known exactly if it is whole, so a hello cut short is read as far as it goes. |
| `ClientHellos.Put24Is` | internal/tlsutil/hello.go:212-219 | Three bytes hold a number mod 2^24. |
| `ClientHellos.ParseExtensions` | internal/tlsutil/hello.go:302-318 | The loop stops for good exactly when a slice would pass the capacity, else it has seen the whole list. |
| `DecoyHellos.BuildSniExtension` | internal/tlsutil/hello.go:114-120 | One extension whose lengths are true, its body two zero bytes before the name length. |
| `DecoyHellos.BuildKeyShareExtension` | internal/tlsutil/hello.go:123-132 | One key_share extension around the given key, or the drawn one if none is given, whose nested lengths are true. |
| `DecoyHellos.BuildPaddingExtension` | internal/tlsutil/hello.go:135-143 | The padding that fills up to the target, none when its header does not fit (section 3 of RFC 7685). |
| `DecoyHellos.BuildCipherSuitesField` | internal/tlsutil/ciphers.go:184-191 | The suites in order behind their length. |
| `DecoyHellos.BuildClientHello` | internal/tlsutil/hello.go:160-221 | What is appended piece by piece is the encoding of one hello: record, handshake, block and extension lengths count what follows them. |
| `DecoyHellos.PaddedSize` | internal/tlsutil/hello.go:205-209 | The record is exactly as long as asked if it is at most targetSize - 4 unpadded, else it keeps its unpadded size. |
| `DecoyHellos.DecoyIsParsed` | internal/tlsutil/hello.go:160-320 | The parser recovers random and session ID of every decoy that fits its length field and walks its extensions to exactly their end; it recovers the name if and only if there is none. |
| `DecoyHellos.NameIsMisread` | internal/tlsutil/hello.go:116 | What the parser takes for the name instead. |
| `DecoyOffers.HelloIs` | internal/tlsutil/hello.go:160-221 | The fixed fields of a decoy, the default suites when none are asked for, 517 bytes when no size is. |
| `DecoyOffers.ExtensionsAre` | internal/tlsutil/hello.go:184-197 | Its extensions in their order: the name, nine that never change, the key share. |
| `DecoyOffers.DefaultSuitesAre` | internal/tlsutil/hello.go:15-34 | The default suites by their registered numbers. |
| `DecoyOffers.SuitesAre` | internal/tlsutil/ciphers.go:184-191 | Given suites in their order, cut down to 16 bits. |
| `DecoyOffers.GroupsAre` | internal/tlsutil/hello.go:36-49 | The groups, X25519 first. |
| `DecoyOffers.SignaturesAre` | internal/tlsutil/hello.go:51-67 | The signature schemes, ECDSA first. |
| `DecoyOffers.VersionsAre` | internal/tlsutil/hello.go:75-99 | TLS 1.3 before 1.2, HTTP/2 before 1.1, the empty extensions and the PSK mode. |
| `DecoyOffers.PointFormatsAre` | internal/tlsutil/hello.go:69-73 | The point formats, uncompressed first. |
| `DecoyOffers.KeyShareIs` | internal/tlsutil/hello.go:123-132 | One X25519 key behind its lengths. |
| `DecoyOffers.NameBodyIs` | internal/tlsutil/hello.go:114-120 | The name entry byte by byte, with the zero byte too many. |
| `DecoyOffers.PaddingIs` | internal/tlsutil/hello.go:135-143 | Padding is one extension of type 21 full of zeros, or nothing. |
| `DecoyOffers.DecoySize` | internal/tlsutil/hello.go:160-221 | A default decoy has 517 bytes for every name of up to 218 bytes, and 295 more than the name beyond. |
| `Fragments.FindSniOffset` | internal/tlsutil/fragment.go:30-65 | The first place that looks like a server_name with a printable name, (-1, 0) exactly when there is none. |
| `Fragments.ShapeIsExact` | internal/tlsutil/fragment.go:30-65 | What looks like one, byte by byte. |
| `Fragments.FragmentAtSni` | internal/tlsutil/fragment.go:67-75 | Two nonempty pieces that join to the data, cut in the middle of that name or else of the data. |
| `Fragments.CutIsInsideName` | internal/tlsutil/fragment.go:30-75 | Where nothing earlier looks like one, the real extension is found and the cut falls inside its name, unless the name is one byte at the very end. |
| `Fragments.FragmentMulti` | internal/tlsutil/fragment.go:77-90 | Chunks of one size and a rest that is no longer, joining to the data. |
| `Fragments.TlsRecordFragment` | internal/tlsutil/fragment.go:92-106 | The payload in two records of the same type and version. |
| `Fragments.TwoRecordsAreTheSame` | internal/tlsutil/fragment.go:92-106 | Of up to 131075 bytes a receiver reads the same from what is sent if and only if the data was one whole record and nothing more, or passed as it is, being shorter than 6 bytes or not starting with 0x16. |
| `Fragments.TwoRecordsAreRead` | internal/tlsutil/fragment.go:92-106 | Of data of any length: the first half is read as far as its length, which wraps at 65536, goes, and then whatever the rest of it, the second header and the second half read as. |
| `Fragments.WrappedHeadersAreEmpty` | internal/tlsutil/fragment.go:92-106 | Longer data is never one record and can still be read the same: if the lengths of both halves wrap to 0, the data starts with an empty record and its first half ends with one. |
| `Fragments.LongDataCanPass` | internal/tlsutil/fragment.go:92-106 | Such data of 131077 bytes. |
| `Fragments.FragmentClientHello` | internal/tlsutil/fragment.go:9-26 | Whatever the strategy, the pieces join to the data or are its two records; and each strategy cuts where it says: sni_split in the middle of the first name found, else of the data, half in the middle, multi every 24 bytes, tls_record_frag in the middle of the payload; short data and any other strategy leave one piece. |
| `Fragments.FragmentsAreParsed` | internal/tlsutil/fragment.go:9-106 | The parser finds in the reassembled fragments of every well-formed hello just what it finds in the hello. |
| `Fragments.FragmentData` | internal/tlsutil/fragment.go:110-145 | The cuts that the sizes ask for, negative ones counting as 0. |
| `Fragments.CutsJoin` | internal/tlsutil/fragment.go:110-145 | They join to the data, are no more than the sizes, and positive sizes cut no empty piece. |
| `Fragments.CutIs` | internal/tlsutil/fragment.go:110-145 | Each cut is as long as its size says if so much is left, and the last size takes all of it. |
| `ReadConfig.StripCommentsAndMap` | internal/config/read.go:115-190 | The loop computes stripped text, index map and flag of the scanner for every input. |
| `ReadConfig.OriginsAreTrue` | internal/config/read.go:115-190 | The index map is strictly increasing and leads from each byte that stays to where it stood. |
| `ReadConfig.NoCommentIsLeft` | internal/config/read.go:115-190 | No comment is left in a stripped text, nor does one come about. |
| `ReadConfig.StripIsIdempotent` | internal/config/read.go:115-190 | Stripping twice is stripping once, and changes nothing if and only if no comment opens. |
| `ReadConfig.StripKeepsLiterals` | internal/config/read.go:151-162 | Every string literal survives stripping byte for byte. |
| `ReadConfig.RemoveTrailingCommas` | internal/config/read.go:193-239 | The loop drops the trailing commas of the text and nothing else. |
| `ReadConfig.DropIsExact` | internal/config/read.go:193-239 | What is deleted are exactly the out-of-string commas whose next byte that is not blank is } or ], judged on the text as it was. |
| `ReadConfig.DropIsIdempotentExactly` | internal/config/read.go:220-235 | A second pass finds nothing to drop if and only if no comma had a trailing comma behind it. |
| `ReadConfig.TwoCommas` | internal/config/read.go:220-235 | Of two commas in a row before a bracket one is left. |
| `ReadConfig.PreprocessingKeepsLiterals` | internal/config/read.go:115-239 | Both passes together keep every string literal byte for byte and leave no comment. |
| `ReadSyntax.StripIsExact` | internal/config/read.go:115-190 | On texts read as pieces of literals, line comments, block comments and other bytes: stripping leaves the literals and the other bytes and nothing of the comments but the newline that ends one. |
| `ReadSyntax.EveryText` | internal/config/read.go:115-190 | Every text is such a sequence of pieces, the last one perhaps unfinished. |
| `ReadSyntax.LineCommentGoes` | internal/config/read.go:129-137 | Behind whole text, a line comment goes up to its newline, which stays, and what follows is stripped as if it stood alone. |
| `ReadSyntax.BlockCommentGoes` | internal/config/read.go:138-150 | A block comment goes with its delimiters, and what follows is stripped as if it stood alone. |
| `ReadSyntax.DropsTrailingCommas` | internal/config/read.go:193-239 | On the same pieces: a comma goes exactly if it stands outside a literal and the next byte that is not blank closes a bracket. |
| `ReadSyntax.PreprocessingIsExact` | internal/config/read.go:115-239 | Both passes in a row on such a text. |

## Left out

- Lock-level interleavings inside one pool operation (internal/pool/pool.go:773-776 touches the table before taking the
  mutex): every public operation is one atomic step.
- Floating-point rounding: loss averages, means and weights are reals; with total weight 0 impossible over the reals,
  the guard against it in the weighted choice has no counterpart.
- Probability: random draws are arbitrary choices within their range.
- Logging, the summary printers, the save hook after a refresh, the timers of the loops.
- Snapshot files on disk: loading, expiry, hashing and atomic writing; the document itself is modelled.
- Discovery's scanning, DNS and HTTP; the names it finds are arbitrary. The partner list of an injection is the list of
  the explorer, with the configured names when that is empty.
- Managers.Manager.FollowOn: stops in front of the first event the invariant may not survive, an injection outside the
  condition of Manager.InjectInto, an Initialize outside that of InitializeExact, or a dial of an empty table, from which
  the source draws out of range; what is kept after such an event is not stated.
- HealthLoops.RunHealthLoop: the source's loop never ends, the model's takes any number of turns; how long it sleeps
  between two of them is arbitrary, and refreshes that scan rounds and relays ask for in between are no part of it
  (AttemptsAreSpaced holds for them too).
- Discoveries.Discovery.Inject: requires a cap of at least 1, because with less a scan round returns before it injects
  (internal/discovery/ipdiscovery.go:138-146).
- Managers.Build: requires the configured names that an injection falls back on to be among those of the configured pairs,
  as they are when at least one IP is configured.
- ActivePools.ActivePool.Pick: requires a nonempty table, because the source draws from an empty list otherwise
  (internal/pool/pool.go:1465).
- ActivePools.ActivePool.Refresh: requires the eviction and recycling periods that the source divides by to be nonzero.
- Explorer.CombinationExplorer.Trial: its contract bounds the trial by the outcomes it draws; which outcomes a real
  network gives is not part of this model.
- Empty strings that the source uses for "none" are options here; hexadecimal rendering of parsed fields is left out.
- NewFragmentLayer and NewFinalMasker read JSON settings; settings are values here, and a layer is made only from
  settings they accept.
- FinalMask.SendThrough: delays are recorded, not waited for; after a failed write the sink takes nothing more.
- RawInjectors.RawInjector.FinishInjection: whether the send worked changes nothing but a log line, so it is no
  parameter; the interface and link address are not modelled.
- Waiting for the two channels of a registration with a timeout: only the closing is modelled.
- internal/forward/rawinject_windows.go repeats the automaton and the frame builder.
- RawFrame.BuildFakeFrame: for an IP header length of 0, 4 or 8, which the sniffer lets through, the checksum field lies
  outside the header it is computed over, so no such header verifies; for 0 the ID gives way to the sequence number and
  nothing is stated about the segment checksum.
- Fragments.TwoRecordsAreTheSame: for data of up to 131075 bytes; of longer data, where a half does not fit its length
  field, TwoRecordsAreRead says what a receiver reads, but when that is the same as the data comes down to whether it
  falls into step again, for which no simpler condition is given.
- ParseServerHello, BuildClientResponse, cipher and fingerprint tables beyond the default suites.
- JSON decoding, UTF-16 conversion and line-ending normalization before the two passes of the preprocessor.
- The relay loops, proxies, certificates, command line and configuration getters.
