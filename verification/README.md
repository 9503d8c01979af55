# yellow-pages, modelled and proved in Dafny

yellow-pages is a service registry without consensus. Independent seeds each hold a leased
registry; agents write to every seed and merge what they read, last writer wins; change
streams and blocking queries hang off monotonic indexes. This project models that core and
proves what its parts promise together.

`dafny verify dfyconfig.toml` checks everything. No file is executed.

## How it is organised

- `Model`, `Order`, `Text`, `Sets`: the domain values, the order in which instances are listed, and shared string and set facts.
- `StoreSpec`: what each registry operation does, as functions on values, and what a run is. `Store` (with `StoreRep`) is the imperative store - the two-level node map, the name index, the loops - proved to do exactly that. `StoreMeaning` says what each operation means in the fields a caller sends and sees. `StoreInvariants`, `StoreGc`, `StoreEffects`, `StoreMerge`, `Lease` and `Failure` prove properties of the operations and of whole runs.
- `Health`, `FanOut`, `Quorum`, `AntiEntropy`, `NodeRecords`: the merge algebra, the fan-out, quorum intersection, convergence between seeds, and what happens to node records meanwhile.
- `Watcher`, `WatchStream`, `AgentWatch`, `Cache`: index and wakeups, the seed's stream, the agent's delta stream with the SDK that folds it, and the read cache.
- `FilterExpr`, `DnsName`, `RateLimit`: the two parsers and the limiter.

Times and durations are integers (nanoseconds). An operation reads the clock once: its
instant is a parameter. Where Go iterates over a map, the order is arbitrary (`:|` in
methods, an `order` parameter in specifications), and every result holds for all orders.
What an operation emits is appended to the registry's `log`; an operation and its emission
are one step.

## Where the code and its documentation part

- `health.go` says the merge result is independent of the input order. It is so exactly for inputs without ties at the highest version (`OrderFreeIffUntied`; `TieDependsOnOrder` shows a tie).
- The store's change test is meant to notice every metadata change. It does exactly when the stored metadata has no empty value (`EqualMapDecides`, `StoredAsSent`; `EmptyValueSwallowed` shows the loss).
- The store's index advances with every event, but not with everything a lookup lists: a node record is overwritten without index or event: with the index standing still, an instance listed twice differs at most in node record, heartbeat time and health, and enters or leaves a listing only at the end of its grace or with its node's datacenter (`SilentChange`; `NodeRecordIsSilent` shows a changed listing).
- The watcher promises that a watch wakes on a change. The floor of one hides exactly the first change of a watcher started at zero (`ChangeRaisesIndex`, `ChangeReleasesWaiter`; `FirstChangeHidden` is a run in which the waiter parks again).
- The seed's watch stream: as long as the subscription's buffer drops no event, nothing stored is past grace at the snapshot and, if the query names a datacenter, no node changes its own, the reader is right after every event since the snapshot if and only if two things hold: no key unwanted at the snapshot has a put as the last event offered between subscription and snapshot, and no later put takes a live, wanted instance out of the query in place (`StreamRightIff`, `StreamIsExact`; `StaysPutSuffices` gives the simpler sufficient condition, `StaleStream` is a run that leaves a stale instance).
- The agent's delta stream reproduces every field of every snapshot if and only if no pass after the first changes an instance only in fields the delta does not compare (`FullyEqualIff`; `MaintenanceNotSent` shows a lost maintenance toggle).
- Anti-entropy is meant to make seeds agree. Node records are overwritten even by losing entries: in any cluster records that are equal stay equal, and for two seeds that both serve a node every complete round ends with equal records if and only if they were equal at the start (`RecordsKept`, `RecordsAgreeIff`; `RecordsSwap` is the round that swaps them).
- The cache announces that it serves a stale entry when a refresh fails. It dereferences the failed fetch instead; `LookupWithAge` models that outcome as `NilDereference` and states exactly when it happens.
- An SRV target for an instance with its own address is printed under a label the same server refuses to parse (`AddressTargetUnknown`). A node target leads back to its datacenter exactly when that is in lower case or spells the default alias (`SrvTargetRoundTrip`; `UpperDatacenterLost` shows the loss).

## Model

| member | source | states |
|---|---|---|
| Store.Memory.constructor | internal/store/store.go:144-158 | a new store is empty, resumes at the start index, and has a positive default TTL |
| Store.Memory.SizeLocked | internal/store/store.go:174-180 | summing the per-node maps counts every stored instance once |
| Store.Memory.IndexName | internal/store/store.go:593-600 | adds exactly one (name, instance) pair to the name index and leaves no empty bucket |
| Store.Memory.UnindexName | internal/store/store.go:602-611 | removes exactly that pair and drops a bucket that becomes empty |
| Store.Memory.Accepts | internal/store/store.go:203-210 | a registration is accepted if and only if it has a node id and every service a name |
| Store.Memory.Register | internal/store/store.go:202-270 | keeps the representation and all run invariants; new state and error are those of the specification, including the early return at capacity |
| Store.Memory.RegisterInstance | internal/store/store.go:225-264 | one service is created within the cap, redefined, or only refreshed |
| Store.Memory.Merge | internal/store/store.go:279-328 | keeps the invariants; new state and number applied are those of the last-writer-wins specification |
| Store.Memory.Renew | internal/store/store.go:341-366 | renews all instances of the node, or the listed ones up to the first missing one, without index movement |
| Store.Memory.Fail | internal/store/store.go:370-392 | forces an instance critical once, with one index step and one event; idempotent |
| Store.Memory.Deregister | internal/store/store.go:395-412 | removes the node and all its instances with one delete event each, in some order |
| Store.Memory.DeregisterService | internal/store/store.go:416-438 | removes one instance, and its node when it becomes empty |
| Store.Memory.SetMaintenance | internal/store/store.go:441-463 | toggles the drain flag with one index step and one event; idempotent |
| Store.Memory.ScanName | internal/store/store.go:494-502 | walking the name index collects each matching instance of the full scan exactly once |
| Store.Memory.Lookup | internal/store/store.go:468-511 | with or without a name, returns the sorted full scan filtered by name, datacenter, tags and lease |
| Store.Memory.Gc | internal/store/store.go:515-543 | the nested walk equals one sweep over all instances in some order, and returns the number removed |
| Order.SortEntries | internal/store/store.go:504-509 | orders entries by node id, then service id, keeping every entry |
| StoreMeaning.LookupMeaning | internal/store/store.go:468-560 | an entry is listed if and only if it shows a stored instance, with its node record, flags, indexes and health at that instant, that is failed or within TTL or grace, and the query's name, datacenter and tags are those of the entry |
| StoreMeaning.LookupOrder | internal/store/store.go:504-509 | listings are in order of node id, then service id, letter by letter |
| StoreMeaning.LookupIndex | internal/store/store.go:468-511 | every lookup carries the index of the last event |
| StoreMeaning.RegisterStores | internal/store/store.go:225-264 | an accepted registration sets the node record and stores the last service listed under each id with its name, address, port, tags, weights, metadata, heartbeat, generation and effective window |
| StoreMeaning.ReRegisterSilentIff | internal/store/store.go:248-264 | registering again is silent if and only if no compared field differs, and then moves only the heartbeat |
| StoreMeaning.RegisteredIsReconciled | internal/store/store.go:240-259 | a new or redefined instance leaves GC at that instant nothing to do |
| StoreMeaning.MergeKeepsHeartbeat | internal/store/store.go:272-328 | an adopted copy is stored as offered, heartbeat included, but for its window |
| StoreMeaning.RegisterAnswers | internal/store/store.go:202-270 | when a registration is invalid, accepted, or refused for capacity |
| StoreMeaning.RenewAnswers | internal/store/store.go:341-366 | a renew succeeds if and only if the node and every listed service are stored |
| StoreMeaning.OthersAnswer | internal/store/store.go:370-463 | failing, draining and deregistering succeed exactly on what is stored |
| StoreMeaning.FlagsIdempotent | internal/store/store.go:370-463 | failing or draining again changes nothing; otherwise each is one index step and one event |
| StoreMeaning.DeregisterRemoves | internal/store/store.go:395-412 | exactly the node's record and instances go, with one delete each |
| StoreMeaning.DeregisterServiceRemoves | internal/store/store.go:416-438 | exactly the instance goes, and the node's record if it was the last |
| StoreMeaning.PutIsListed | internal/store/store.go:562-576 | a put carries exactly the entry a lookup at that instant lists, and the new index |
| StoreMeaning.DeleteIsStored | internal/store/store.go:578-584 | a delete carries the record and definition that were stored, as critical |
| StoreMeaning.StepFlags | internal/store/store.go:202-543 | only SetMaintenance changes a drain flag, creation indexes never change, and new instances start without flags |
| StoreInvariants.StepGood | internal/store/store.go:202-463 | every operation keeps ids as keys, clamped leases, the cap, ordered and distinct indexes, and the replay of the log, and only appends to the log |
| StoreInvariants.EventReplay | internal/store/store.go:202-591 | after any run, folding all emitted events from nothing gives exactly the live instances with definition, maintenance flag and both indexes |
| StoreInvariants.GapFreeIndexes | internal/store/store.go:183-186 | the n-th event of a run carries start index + n; live instances have start < create <= modify <= index, and distinct modify indexes |
| StoreInvariants.VisibleChangeRaisesIndex | internal/store/store.go:183-186 | the index never falls, and strictly rises whenever an instance comes, goes, or changes its definition (up to the heartbeat time), maintenance flag or indexes |
| StoreEffects.SilentChange | internal/store/store.go:183-270 | while the index stands still no instance comes or goes, one listed at both ends differs only in node record, heartbeat time and health, and it leaves or enters a listing only by its grace or by a datacenter change of its node |
| StoreEffects.NodeRecordIsSilent | internal/store/store.go:216-222 | registering a changed node record moves no index and emits nothing, yet the listing changes |
| StoreGc.GcEffect | internal/store/store.go:515-543 | in any walk order, exactly the past-grace instances go, the rest get their current lease state, and empty nodes disappear |
| StoreGc.GcIdempotent | internal/store/store.go:515-543 | a second GC at the same instant changes nothing: no removal, index or event |
| StoreGc.GcInvisible | internal/store/store.go:465-543 | at one instant every query lists the same entries before and after GC, except for the modify index |
| StoreGc.GcSweeps | internal/store/store.go:513-543 | after GC no past-grace record, no empty node and no outdated lease state remains |
| StoreEffects.EqualMapDecides | internal/store/store.go:625-635 | the map comparison decides equality with a map if and only if that map has no empty value |
| StoreEffects.EmptyValueSwallowed | internal/store/store.go:625-635 | trading one empty value for another key is not noticed |
| StoreEffects.StoredAsSent | internal/store/store.go:225-264 | an accepted service is stored exactly as sent, except exactly when the change test misses differing metadata |
| StoreEffects.ClampBounds | internal/store/store.go:188-199 | the lease window is positive, within the bounds, and unchanged if it already was |
| Failure.SparingStep | internal/store/store.go:202-543 | no operation but a renew that reaches the key or its deregistration clears a failure; registrations, merges and GC keep it |
| Failure.FailureHoldsUntilRenewed | internal/store/store.go:368-392 | through any run without such an operation the instance stays stored and failed, is listed critical however late, survives every GC, and passes again exactly after a renew that reaches it |
| Lease.AvoidingStep | internal/store/store.go:202-543 | an operation not about a key leaves its definition and lease untouched; GC too, short of past grace |
| Lease.HarmlessStep | internal/store/store.go:225-366 | heartbeats, identical registrations and merges of copies that do not win move only the heartbeat time, and those that reach the key move it to now |
| Lease.TolerableStep | internal/store/store.go:225-366 | redefinitions and syncs that keep the lease window, the latter with losing copies or a heartbeat no older, never shorten the lease |
| Lease.LeaseSafety | internal/store/store.go:341-560 | after any run under a non-decreasing clock in which a key is refreshed at gaps within its TTL and only redefined, renewed or synced as above, every lookup lists it passing and every GC keeps it |
| Lease.ListedIffInGrace | internal/store/store.go:545-560 | a stored key is listed if and only if it is failed, within TTL, or within TTL plus grace, whether or not GC ran |
| Health.Filter | internal/health/health.go:60-68 | the loop computes the order-preserving filter |
| Health.FilterKeepsVisible | internal/health/health.go:41-68 | with OnlyPassing exactly the entries that are not drained and passing or warning are kept, each as often as before; without it all are |
| Health.FilterConcat | internal/health/health.go:60-68 | the filter works entry by entry, keeping their order |
| Health.MergeLWW | internal/health/health.go:80-107 | the map-building loop and the sort return the listing of each identity's winner |
| Health.BestIsFirstMaximal | internal/health/health.go:86-94 | the winner is the first entry of its identity that no other beats |
| Health.MergedMeaning | internal/health/health.go:70-107 | the output is strictly ordered, has exactly the input's identities, and each entry is the first version-maximal one |
| Health.NewestWins | internal/health/health.go:73-79 | a merged entry comes from the input, and none of its identity has a higher generation, or the same one and a later heartbeat |
| Health.MergeOfMerges | internal/health/health.go:80-107 | merging two merges equals merging everything, ties included; merging is idempotent |
| Health.OrderFreeIffUntied | internal/health/health.go:73-79 | the result is the same for every order of the input if and only if no identity has two different entries at its highest version |
| Health.TieDependsOnOrder | internal/health/health.go:89-93 | two different entries at one version merge differently in the two orders |
| StoreMerge.MergeAt | internal/store/store.go:279-328 | merging a list leaves each instance with the better of the stored copy and the list's winner |
| StoreMerge.MergeNeverLowers | internal/store/store.go:272-278 | a merge never loses an instance or lowers its (generation, last seen), capped or not |
| StoreMerge.TwoMergesAgree | internal/store/store.go:279-328 | merging into an empty uncapped registry keeps exactly what the read-path merge returns, up to the lease clamp |
| StoreMerge.MergeTwice | internal/store/store.go:279-328 | merging the same entries again applies nothing, moves no index and emits nothing, whatever the cap |
| FanOut.Lookup | internal/seedclient/client.go:206-241 | the merged entries and highest index of all answers, or failure when none answered |
| FanOut.OutcomeMeaning | internal/seedclient/client.go:206-241 | a read fails exactly when no seed answered; its index is the highest answered, and every entry was answered by some seed |
| FanOut.ReplyOrderIrrelevant | internal/seedclient/client.go:217-240 | the result does not depend on the order of replies when versions are not tied |
| FanOut.AnsweredSurvives | internal/seedclient/client.go:217-240 | anything some seed answered is in the result at that version or a later one |
| FanOut.Write | internal/seedclient/client.go:150-166 | the number of successes is the number of seeds that accepted, counted with multiplicity |
| Quorum.AcceptedIsStored | internal/store/store.go:202-270 | an accepted registration stores each listed service at its generation, described by every query that describes what was sent |
| Quorum.MaintainStep | internal/store/store.go:202-543 | no operation but a deregistration, a sweep, an older registration or a definition outside the query takes a stored instance below its generation or out of the query |
| Quorum.QuorumIntersection | internal/seedclient/proxy.go:154-172 | a write accepted by k of N seeds is in every later read answered by more than N - k, for any query that describes it, at that generation or newer, whatever heartbeats, failures, syncs and later registrations came between |
| AntiEntropy.SyncOnce | internal/membership/syncer.go:136-148 | a sync merges the peers' merged answer, or does nothing when no peer answered; the same function is a merge step of the round protocol |
| AntiEntropy.RoundConverges | internal/membership/syncer.go:136-148 | for any interleaving of pulls and merges, a complete round keeps every seed sound and leaves it with every instance at its highest version, invented nothing |
| AntiEntropy.ConvergedAgree | internal/membership/syncer.go:17-22 | converged seeds agree on every version, and on definitions if equal versions started equal |
| AntiEntropy.NextRoundIsQuiet | internal/membership/syncer.go:136-148 | after a complete round, in every run of the next, whichever peers answer, each merge applies 0, moves no index and emits nothing |
| NodeRecords.RecordsKept | internal/store/store.go:289-295 | if all seeds that know a node start with one record of it, they have that record at every point of every run, whichever peers answer |
| NodeRecords.RecordsAgreeIff | internal/store/store.go:289-295 | for two seeds that both serve a node, every complete round ends with equal records if and only if they were equal at the start |
| NodeRecords.RecordsSwap | internal/store/store.go:289-295 | two seeds that both pull before either merges swap their records of every node both serve |
| Watcher.Watcher.Notify | internal/watch/watcher.go:77-106 | one index step per event, the name keys, one closing of the channel, and each subscription offered exactly its matching events in order |
| Watcher.Watcher.NotifyNames | internal/watch/watcher.go:111-122 | one index step per name and one closing of the channel |
| Watcher.Watcher.Subscribe | internal/watch/watcher.go:132-145 | a fresh id with an empty buffer, nothing else changed |
| Watcher.IndexMonotone | internal/watch/watcher.go:147-165 | no batch of changes lowers any query's index |
| Watcher.ChangeRaisesIndex | internal/watch/watcher.go:156-165 | a change to what a query asks about raises its index if and only if it is not the very first change of a watcher at zero |
| Watcher.NameIndexAfter | internal/watch/watcher.go:83-96 | a name's index is that of its last change, and changes of other names leave it alone |
| Watcher.TableIndexAfter | internal/watch/watcher.go:156-165 | list queries and names never seen are on the table index, which counts every change |
| Watcher.NotifiedOffers | internal/watch/watcher.go:83-106 | a subscription with room is offered exactly the events whose name, datacenter and tags its query asks for, stamped with the watcher's index |
| Watcher.OfferedExactly | internal/watch/watcher.go:202-210 | those events, each once and in order |
| Watcher.BufferKeeps | internal/watch/watcher.go:100-105 | the buffer of 64 keeps what fits and drops the rest |
| Watcher.NoLostWakeup | internal/watch/watcher.go:171-195 | over every run of a new watcher, indexes are monotone and a waiter parked on the open channel has the current index as its own |
| Watcher.ChangeExceedsHistory | internal/watch/watcher.go:77-165 | once anything was counted, a change lifts the index above every earlier value of the run |
| Watcher.ChangeReleasesWaiter | internal/watch/watcher.go:171-195 | after a notification of its name, in every continuation short of its timeout, a parked waiter stays wakeable, never parks again and returns a higher index - if and only if it was not the first change of a watcher at zero |
| Watcher.LookReturnsCurrent | internal/watch/watcher.go:184-193 | a look returns the query's current index, above or below the client's or for a client with none, unless they are equal; a timeout returns the index parked on |
| Watcher.ReturnedWasCurrent | internal/watch/watcher.go:171-195 | over every run, whatever a waiter returns was its query's index at some moment, and exceeds no later one |
| Watcher.FirstChangeHidden | internal/watch/watcher.go:212-217 | a run in which the first change of a fresh watcher wakes a waiter that then parks again |
| WatchStream.FilteredReplay | internal/watch/watcher.go:91-95 | folding the offered events gives the matching part of folding all events |
| WatchStream.Absorbed | internal/server/service.go:130-155 | events already in the snapshot change nothing when applied to it, if and only if no key unwanted at the snapshot has a put as its last offered event |
| WatchStream.SnapshotReplay | internal/server/service.go:134-140 | the snapshot's puts fold to the matching part of the registry when nothing is past grace |
| WatchStream.RightIffCoherent | internal/watch/watcher.go:202-210 | a reader holding the right set stays right after every event if and only if every withheld event is about a key not wanted at that moment |
| WatchStream.StreamRightIff | internal/server/service.go:130-155 | subscribe, snapshot, forward: the reader is right after every event since the snapshot if and only if the events up to it are settled and the later ones coherent |
| WatchStream.InPlaceChangeLeavesStale | internal/watch/watcher.go:202-210 | an instance changed in place so that it stops matching stays with the reader |
| WatchStream.HonestCoherent | internal/store/store.go:578-584 | deletes carry the live definition, so exactly the in-place puts decide coherence |
| WatchStream.StreamIsExact | internal/server/service.go:121-156 | in every run of store, watcher and stream without drops: right after every event since the snapshot iff the log is undisturbed, and then snapshot plus sent plus queued events fold to exactly the matching live set |
| WatchStream.StaysPutSuffices | internal/server/service.go:121-156 | without an in-place change since the subscription the log is undisturbed, wherever the snapshot falls |
| WatchStream.StaleStream | internal/server/service.go:121-156 | a run for every pair of definitions of which the query selects only the first: re-registering leaves the reader with the stale instance |
| AgentWatch.EntryKeyIdentifies | internal/seedclient/proxy.go:400-400 | the textual key identifies an instance when node ids are free of NUL |
| AgentWatch.DeltaStream.OnLookup | internal/seedclient/proxy.go:358-389 | a pass sends the whole snapshot first, and afterwards exactly the puts and deletes between two snapshots |
| AgentWatch.SdkWatch.Recv | client/sdk/sdk.go:122-142 | each message updates the set, and once ready the channel holds exactly the latest set, whether or not the consumer took the one before |
| AgentWatch.SdkWatch.Take | client/sdk/sdk.go:108-117 | the consumer receives the latest undelivered set, or nothing |
| AgentWatch.SdkWatch.Emit | client/sdk/sdk.go:156-168 | the loop ends with only the new set in the one-slot channel, the consumer taking the old one or not at any point |
| AgentWatch.DeltaRoundTrip | internal/seedclient/proxy.go:341-405 | after any passes, in any map order and with any skipped, the SDK's set has the snapshot's keys and equal address, port, generation and health under each |
| AgentWatch.RoundTripByIdentity | internal/seedclient/proxy.go:341-400 | with NUL-free node ids that set holds, once each, exactly the instances of the last merged answer |
| AgentWatch.FullyEqualIff | internal/seedclient/proxy.go:341-405 | over any passes, the SDK's set equals the snapshot in all fields after every pass if and only if no later pass changes an instance only outside the compared fields |
| AgentWatch.MaintenanceNotSent | internal/seedclient/proxy.go:402-405 | two passes between which only the maintenance flag changes: nothing is sent and the reader is wrong |
| Cache.JoinConfusion | internal/seedclient/cache.go:62-64 | among NUL-free tag lists only "no tags" and "the single empty tag" share a key |
| Cache.KeyForInjective | internal/seedclient/cache.go:62-64 | for plain queries, equal keys mean equal name, datacenter and tags |
| Cache.DiffersIsSetDifference | internal/seedclient/cache.go:177-193 | on key-ordered lists the positional comparison reports a change if and only if the sets of (identity, address, port, generation, health) differ |
| Cache.Cache.Compare | internal/seedclient/cache.go:179-193 | the early-exit loop decides the positional comparison, a missing entry reading as empty |
| Cache.Cache.Fetched | internal/seedclient/cache.go:139-159 | stores the fan-out's merged answer under its key and reports the name exactly when the set of (identity, address, port, generation, health) differs; a failure changes nothing |
| Cache.Cache.LookupWithAge | internal/seedclient/cache.go:107-135 | a served read is the health-filtered answer of a fan-out for the same query less than maxAge ago; states when it fetches, fails or dereferences nil |
| Cache.Cache.Refresh | internal/seedclient/cache.go:162-175 | every cached query is refetched once, in some order; a failed one keeps its entry, and exactly the names with a different set are reported |
| FilterExpr.Tokenize | internal/consul/filter.go:191-226 | the scanning loops terminate and compute the token function |
| FilterExpr.TokensExactly | internal/consul/filter.go:191-226 | the tokens are the one way to read the text as parentheses, quoted texts, operator signs and longest words with nothing but blanks between them |
| FilterExpr.Parser.Disjunction | internal/consul/filter.go:77-92 | the loop terminates and builds the closure of a left-associated `or` chain |
| FilterExpr.Parser.Conjunction | internal/consul/filter.go:94-109 | the loop terminates and builds the closure of a left-associated `and` chain |
| FilterExpr.Parser.Negation | internal/consul/filter.go:111-121 | stacked negations and primaries, as specified |
| FilterExpr.Parser.Primary | internal/consul/filter.go:123-136 | parenthesised expressions or predicates, with the missing-parenthesis error |
| FilterExpr.Parser.Predicate | internal/consul/filter.go:139-167 | the four operators in both argument orders, and the incomplete and unsupported errors |
| FilterExpr.Parse | internal/consul/filter.go:44-57 | a closure that holds exactly of the views the parsed filter denotes, or an error, including for trailing tokens |
| FilterExpr.ParsesExactly | internal/consul/filter.go:77-167 | a text is accepted as an expression if and only if its tokens form it by the grammar: precedence, grouping to the left, keywords in any case, parentheses anywhere |
| FilterExpr.EvalDenotes | internal/consul/filter.go:88-189 | the verdict is membership in a set of views: union, intersection, complement, and for atoms what the metadata, tags or statuses of the view say, in any letter case of the selector |
| FilterExpr.PrintTokens | internal/consul/filter.go:191-226 | printed text tokenizes to its tokens |
| FilterExpr.FilterRoundTrip | internal/consul/filter.go:44-57 | printing with minimal parentheses, tokenizing and parsing returns the same expression, whose verdict on every view is what it denotes |
| DnsName.NameRoundTrip | internal/consuldns/parser.go:47-117 | every supported form under any zone, in any mix of case, parses to exactly its meaning in lower case; legacy and canonical datacenters alike |
| DnsName.LabelsMeaning | internal/consuldns/parser.go:64-117 | what any labels mean: the service form, the first special label, or nothing |
| DnsName.OnlyBelowDomain | internal/consuldns/parser.go:54-63 | only names below the domain, in any case, are read, by the labels in front of it |
| DnsName.SrvTargetRoundTrip | internal/consuldns/handler.go:244-309 | a node-form SRV target parses back to the same node up to case, and to the same effective datacenter if and only if that is in lower case or spells the default alias |
| DnsName.UpperDatacenterLost | internal/consuldns/handler.go:285-290 | a datacenter configured with a capital letter is not found again |
| DnsName.AddressTargetUnknown | internal/consuldns/handler.go:244-251 | an address-form SRV target is refused by the parser |
| RateLimit.Limiter.Allow | internal/ratelimit/ratelimit.go:50-63 | one request rolls the window if it is over, counts, and admits within the limit |
| RateLimit.WindowExact | internal/ratelimit/ratelimit.go:50-63 | within a window a key is admitted exactly until its allowance is used, whatever other keys do |
| RateLimit.WindowBound | internal/ratelimit/ratelimit.go:50-63 | a window admits exactly the first `limit` requests of each key |
| RateLimit.Unlimited | internal/ratelimit/ratelimit.go:50-53 | without a positive limit every request is admitted and nothing is counted |
| RateLimit.RateBound | internal/ratelimit/ratelimit.go:50-63 | over any trace under a non-decreasing clock, at most twice the limit in any second |
| RateLimit.RateBoundIsTight | internal/ratelimit/ratelimit.go:50-63 | twice the limit is reached, for every limit |

## Left out

- Integer widths: indexes and generations are unbounded, so 64-bit wrap-around, and saturation of time differences, are not modelled.
- Clock readings inside one operation: the store reads its clock again for each put event's health, the cache up to three times; the model uses one instant.
- Concurrent emission: the store emits after releasing its lock, so two writers may notify out of order; the model takes operation and emission as one step.
- Watcher.NoLostWakeup: WaitForChange is a protocol of looking, parking, waking and expiring steps on values, not a blocking method.
- WatchStream.StreamIsExact: the stream is a protocol on values interleaved with store steps; failed sends end it and are not modelled; for a query that names a datacenter, each node is assumed to keep its own, since node records change without events.
- AntiEntropy.RoundConverges: is about instances; node records are the subject of NodeRecords. Capped seeds and past-grace copies are excluded, and every peer answers before a seed merges.
- FanOut.Lookup: per-seed deadlines are not modelled; a reply is an answer or a failure.
- FilterExpr.FilterRoundTrip: case folding is that of ASCII letters; the Unicode folds of EqualFold and ToLower are not modelled. How a view is made from an entry's synthetic checks is not modelled.
- DnsName.SrvTargetRoundTrip: address parsing and hex rendering are a parameter; record rendering, SOA and NS answers are not modelled.
- RateLimit.Limiter.Allow: the nil limiter, which admits everything, is not modelled.
- The agent's hosted set, keep-alive, check gate and drain: bookkeeping around the operations above.
- The Consul HTTP surface, protobuf conversion, federation, tokens and access control, TLS, configuration, metrics and process lifecycle.
- Filtering by name and tags happens on each seed before the merge; no claim is made that a filtered read equals the filter of a full merge.
- The blocking Consul read takes its index after its data; no claim is made about that pairing.
