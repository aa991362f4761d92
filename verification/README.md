# Verified model of the kloudlens aggregator core

The aggregator subscribes to every agent of a cluster, merges their event envelopes, numbers them
in a durable segmented log, broadcasts them to re-export subscribers and attributes network flows
to the process that listens at the other end. This project models its stateful core in Dafny and
proves what it promises. `dafny verify dfyconfig.toml` checks all of it.

**The durable log and the resume protocol.** `WalLog` and `WalSpec` hold the log as a value: the
segments, the files behind them, and the log of everything ever written, which exists only in the
proofs. `EnvWal` is the log object with its loops and in-place updates, proved against that value;
`WalRotate` is when segments are full and what a
collection keeps, `WalRead` and `WalRun` are reading while appends, rotations and collections go on, `WalReopen`
is reopening a directory. `Resume` is the protocol as a step machine: the writer appends and broadcasts, the
collector unlinks segments, a subscriber registers, takes a snapshot, reads file by file, then
tails its channel. Every action is total, so a run is any interleaving. `ResumeInv`, `ResumeSteps`
and `ResumeReplay` prove its invariant step by step, `ResumeRuns` composes runs, `ResumeTheorems`,
`ResumeZero` and `ResumeCursor` say what subscribers get, miss and get twice, `Selection` what their
stream and filter let through.
`Numbering` is the assignment of broadcast numbers when appends fail.

**The cluster listener registry.** `Peers` and `PeersHistory` hold the registry as a value and as a
history of events, `Registry` is the object. `JoinPaths`, `JoinPlacement` and `VipJoin` are when it answers,
by which path, and what the answers may say. `Addresses` is Go's `net.SplitHostPort` on strings, `Indexes` the two indexes a join consults,
`PodIndexes`, `SliceFold`, `SliceGroups`, `ServiceIndexes` and `ServiceWatch` how they are built
from cluster state walked in any order (`Ordering` is why sorting makes the order disappear).
`Advertise` is the wire contract.

**The aggregator around them.** `Writer` says what the writer puts out as a function of what it
takes in, `Attribution` follows an advertise and an exchange through it to the edge; `FanIn` is the object with its channel and counters; `Channels` is the set of live
subscribers; `Fleet` the running endpoints; `CursorSpec` and `CursorStore` the resume cursors.

Modelling choices. Integers are unbounded. One append, one directory listing and one
write-and-rename are atomic; which of them fails is a parameter. Clock readings are parameters and
do not step back. A segment file's path is the number in its name. A goroutine's step between two
points where another can intervene is one action or one method; a `Valid()` that every method keeps
then holds in every interleaving. Loops over Go maps pick keys in arbitrary order. JSON and
protobuf decoding has already happened: objects that do not decode are absent from the state.

Where the code and its comments disagree, the code is modelled:

- A full subscriber channel only counts a drop; the stream is not closed
  (comment at internal/aggregator/aggregator.go:130-133, code at 240-250).
- A cursor is saved before its envelope is queued, and the envelope may then be dropped
  (internal/aggregator/aggregator.go:620-627).
- The wildcard lookup does not sweep (comment at internal/aggregator/clusterpeers/registry.go:428).

Properties that hold only under a condition, with the condition proved exact:

- Resuming without repetition: exactly for cursors not past the last broadcast at registration, save
  the number of an envelope appended and not yet broadcast that the subscriber filters out
  (`ResumeCursor.RepeatsIffCursorAhead`).
- Nothing broadcast since registration is lost under cursor 0: exactly when the replay sent nothing,
  or nothing selected past the registration was collected before the snapshot
  (`ResumeZero.ZeroCursorLosesIff`; `ResumeZero.SilentLoss` is a run that loses one).
- Broadcast numbers strictly increase: exactly for affordable runs of append outcomes
  (`Numbering.RunIncreasesIff`, `FanIn.Aggregator.NumbersIncreaseIff`).
- The TTL pass keeps a suffix: exactly when no unexpired segment precedes an expired one
  (`WalSpec.YoungIsSuffixIff`).
- Numbering continues over a reopen: exactly when the last assigned number is still on disk
  (`WalReopen.NumberingContinuesIff`); segment ages are in order exactly when the files' modification
  times are (`WalReopen.ReopenedIsAgedIff`).
- A join never contradicts the pod index, and folding an address is idempotent: exactly for hosts
  without a colon (`JoinPlacement.NeverContradictsIffNoColon`, `PodIndexes.IdempotentIffNoColon`).
- A flushed cursor map reads back the same: exactly when it is well keyed (`CursorSpec.RoundTripIff`).
- No run is orphaned: exactly when seed names are distinct (`Fleet.Fleet.Seed`).
- The reported drop total is the true one: exactly when no subscriber half way through unregistering
  has drops and none were folded in between the load and the lock (`Channels.Subscribers.SumUnderLock`).
- The order in which cluster state is walked shows in nothing: exactly when no ClusterIP is claimed by
  two Services, slices of a Service agree on each port name, and slices that visit one IP come to the
  same pod first (`ServiceIndexes.ServicesWalkIff`, `SliceGroups.SlicesWalkIff`, `SliceFold.PodsWalkIff`).

## Model

| member | source | states |
|---|---|---|
| WalSpec.AppendKeepsLayout | internal/aggregator/envwal/envwal.go:118-152 | whatever fails, an append leaves segments ordered, disjoint, with distinct names, files equal to windows of the log extended by what reached the disk; a returned number is the stored entry's; the counter moves by at most one |
| WalSpec.AppendKeepsAge | internal/aggregator/envwal/envwal.go:118-152 | appends under a nondecreasing clock keep creation times nondecreasing |
| WalSpec.YoungIsSuffixIff | internal/aggregator/envwal/envwal.go:235-270 | the TTL pass retains a suffix of the segments if and only if no unexpired one precedes an expired one |
| WalSpec.FitIsLongestFitting | internal/aggregator/envwal/envwal.go:235-270 | the byte cap keeps the longest suffix that fits, or the active segment alone |
| WalSpec.CollectKeepsLayout | internal/aggregator/envwal/envwal.go:235-270 | GC keeps the layout and a suffix with the active segment, all others unexpired, fitting the cap or alone; the overflow counter rises by the number of byte-cap victims |
| WalSpec.RetainedIsSuffixOfLog | internal/aggregator/envwal/envwal.go:235-270 | the retained files hold exactly the written entries from the oldest segment's start on |
| WalRotate.RotatesIff | internal/aggregator/envwal/envwal.go:118-152 | a stored record adds its size to the active segment, and a next segment, empty, created now and named after the next number, is opened exactly when that brings the active one to the segment size; a rotation that fails leaves the log unwritable |
| WalRotate.AlwaysHasRoom | internal/aggregator/envwal/envwal.go:118-152 | in every run the active segment is smaller than the segment size or the log is unwritable |
| WalRotate.BytesAreSizes | internal/aggregator/envwal/envwal.go:118-152 | in every run a retained segment's size is what it was at the start plus the sizes of the records stored in it since |
| WalRotate.KeptIff | internal/aggregator/envwal/envwal.go:235-270 | a collection keeps a segment that is not active exactly when it is no older than the TTL and it and everything after it fit the byte cap |
| WalRun.LaterAfter | internal/aggregator/envwal/envwal.go:118-152 | whatever runs of appends, rotations and collections: sealed files stay as they were, the then-active one only grows, the log only grows above the counter |
| WalRun.ReadFromIsWindow | internal/aggregator/envwal/envwal.go:171-231 | for every run of appends, rotations and collections after the snapshot and every choice of moments at which each file is opened and read to its end, a read without error hands over exactly the written entries past the cursor up to some point no earlier than the last one written at the snapshot, in order |
| WalRun.ReadFromExpires | internal/aggregator/envwal/envwal.go:171-231 | over all those runs it fails as expired if and only if the cursor precedes the oldest segment or the name of a segment ending past the cursor is gone when it is opened |
| WalRead.ReadFromExpiredIff | internal/aggregator/envwal/envwal.go:171-231 | it fails as expired if and only if the cursor precedes the oldest segment or a segment it still needs is gone; a nonzero cursor with a trimmed entry past it always fails |
| WalReopen.SortByStart | internal/aggregator/envwal/envwal.go:322-371 | rebuilt segments are a permutation ordered by first number |
| WalReopen.Reload | internal/aggregator/envwal/envwal.go:322-371 | the scan yields exactly one segment per nonempty linked file, with its first and last number |
| WalReopen.RebuiltFromRows | internal/aggregator/envwal/envwal.go:322-371 | every rebuilt segment has its listing row's size and modification time and its file's first and last number, and every nonempty file has one |
| WalReopen.ReopenKeepsRetained | internal/aggregator/envwal/envwal.go:87-114 | reopening a directory any run left gives the layout for exactly the retained entries, and the counter is the largest stored number, 0 if none |
| WalReopen.NumberingContinuesIff | internal/aggregator/envwal/envwal.go:322-371 | numbering continues exactly when the last assigned number is on disk; no retained number is ever reused |
| WalReopen.ReopenedIsAgedIff | internal/aggregator/envwal/envwal.go:322-371 | segment ages are in order after a reopen exactly when the modification times of the nonempty files are in the order of their names and none is in the future |
| EnvWal.Compact | internal/aggregator/envwal/envwal.go:235-270 | the in-place compaction computes the TTL pass and unlinks exactly the files dropped |
| EnvWal.TrimOldest | internal/aggregator/envwal/envwal.go:235-270 | the trimming loop computes the byte cap and unlinks exactly the files dropped |
| EnvWal.Wal.constructor | internal/aggregator/envwal/envwal.go:87-114 | opening what a run left behind gives a writable log with that run's retained entries and an empty active segment created now, below the segment size; its ages are in order exactly when the files' are |
| EnvWal.DefaultsAre | internal/aggregator/envwal/envwal.go:87-100 | options that are set stay, the others become 2 GiB, 32 MiB segments and two hours |
| EnvWal.Wal.OpenSegment | internal/aggregator/envwal/envwal.go:292-308 | adds an empty active segment named after the next number, or changes nothing |
| EnvWal.Wal.Rotate | internal/aggregator/envwal/envwal.go:284-290 | closes the active file and opens the next; a failure leaves the log unwritable |
| EnvWal.Wal.Append | internal/aggregator/envwal/envwal.go:118-152 | the object moves exactly as the value does, through every failure; when that rotates and what sizes it keeps is the subject of the WalRotate rows |
| EnvWal.Wal.GC | internal/aggregator/envwal/envwal.go:235-270 | the object moves exactly as the value does |
| EnvWal.Wal.ReadFrom | internal/aggregator/envwal/envwal.go:171-231 | yields the value's read of the snapshot, segment by segment |
| Envelopes.StampCursor | internal/aggregator/reexport.go:146-154 | restamping keeps the payload and the selection |
| Selection.DeliveredStream | internal/aggregator/reexport.go:156-173 | a request for intents is delivered intents only, likewise deviations, graph edges, lifecycle and audit events; any other nonempty name is delivered nothing |
| Selection.StreamIsDelivered | internal/aggregator/reexport.go:156-173 | without a filter every logged envelope of the requested stream is delivered, and every envelope for the empty name |
| Selection.DeliveredPasses | internal/aggregator/reexport.go:181-233 | what is delivered through a filter has its kind, namespace and pod in the nonempty lists and at least the least severity, when set; a raw system call matches by name or category |
| Selection.PassingIsDelivered | internal/aggregator/reexport.go:181-233 | everything of the stream that meets this is delivered |
| Selection.MoreSeverePasses | internal/aggregator/reexport.go:181-233 | passing is upward closed in severity |
| Selection.SentIsOfStream | internal/aggregator/reexport.go:60-154 | in every run, whatever fails, a subscriber is sent envelopes of its stream only, under the aggregator's id and the stream it asked for |
| ResumeReplay.StepKeeps | internal/aggregator/reexport.go:60-140 | every action of writer, collector and subscriber keeps the protocol's invariant |
| ResumeReplay.RunKeeps | internal/aggregator/reexport.go:60-140 | so does every run |
| ResumeTheorems.SentIsPrefixOfOwed | internal/aggregator/reexport.go:60-140 | for a nonzero cursor, or none: under every interleaving, without failed appends, drops or vanished segments and with a cursor not past the last broadcast at registration, what was sent is a prefix of the selected log past the cursor (past the registration without one), each once and in order, and all of it once the channel is drained; what is selected is the subject of the Selection rows |
| ResumeTheorems.SentStrictlyIncreases | internal/aggregator/reexport.go:60-118 | numbers sent strictly increase, whatever fails and whatever the cursor |
| ResumeTheorems.TailOnlyAfterFullReplay | internal/aggregator/reexport.go:120-140 | the live tail is entered only after every selected entry from the cursor (from the oldest held, for cursor 0) up to the snapshot was sent |
| ResumeZero.ZeroCursorSends | internal/aggregator/reexport.go:60-140 | for cursor 0, once the replay ends with no segment gone and while no append fails and nothing is dropped: what was sent is a prefix of the selected log from the oldest entry held at the snapshot, or from the registration when the replay sent nothing and newer entries had been collected; all of it once drained |
| ResumeZero.StartIsOldestHeld | internal/aggregator/envwal/envwal.go:171-231 | for cursor 0 the start separates exactly the entries collected by the snapshot from those held |
| ResumeZero.ZeroCursorLosesIff | internal/aggregator/reexport.go:60-140 | for cursor 0 a drained subscriber has every selected envelope since its registration exactly when its replay sent nothing or nothing selected past the registration was collected before the snapshot |
| ResumeZero.SilentLoss | internal/aggregator/reexport.go:100-107 | a run without failure, drop or error in which an envelope broadcast after registration is never sent |
| ResumeCursor.KnownCursorNeverRepeats | internal/aggregator/reexport.go:60-118 | with a cursor not past the last broadcast nothing acknowledged is sent again |
| ResumeCursor.AheadCursorRepeats | internal/aggregator/reexport.go:60-118 | with nothing in hand, a run that sends something at or below a cursor ahead of the last broadcast |
| ResumeCursor.PendingCursorRepeats | internal/aggregator/aggregator.go:437-452 | with a selected envelope appended and not yet broadcast, a run that sends a number its replay may already have sent |
| ResumeCursor.FarCursorRepeats | internal/aggregator/aggregator.go:437-452 | with a filtered-out envelope in hand, a run that repeats for any cursor further ahead |
| ResumeCursor.FilteredPendingNeverRepeats | internal/aggregator/aggregator.go:437-452 | the number in hand of a filtered-out envelope is the one cursor ahead that never sees a repeat |
| ResumeCursor.RepeatsIffCursorAhead | internal/aggregator/reexport.go:60-118 | in every state a subscriber can register in, a repeat without failure, drop or vanished segment is possible exactly when no append has failed and the cursor is past the last broadcast, and not merely the number of a filtered-out envelope in hand |
| ResumeCursor.NoCursorTails | internal/aggregator/reexport.go:77-118 | without a cursor nothing is replayed and the next selected envelope reaches the subscriber |
| Numbering.IncreasingIffAffordable | internal/aggregator/aggregator.go:434-452 | broadcast numbers strictly increase if and only if the run of append outcomes is affordable for the log counter's lead |
| Numbering.AffordableFromZero | internal/aggregator/aggregator.go:434-452 | without a lead that means: no stored append after one refused before its number was assigned |
| Numbering.LiveBehindLog | internal/aggregator/aggregator.go:434-452 | without such refusals the live counter never passes the log's and numbers strictly increase, whatever else fails |
| Numbering.StoredAreConsecutive | internal/aggregator/aggregator.go:404-429 | without failures numbers are consecutive, so an edge gets its trigger's number plus one |
| Numbering.EmitFollowsCounters | internal/aggregator/aggregator.go:434-452 | the writer's step assigns numbers as the counters do, for every fault of the log |
| Numbering.RunFollowsCounters | internal/aggregator/aggregator.go:434-452 | every run of the writer and the log assigns numbers as the outcomes of its appends say |
| Numbering.RunIncreasesIff | internal/aggregator/aggregator.go:404-452 | in every run the numbers assigned strictly increase exactly when the outcomes are affordable for what the log held at the start |
| Numbering.LiveNeverPassesLog | internal/aggregator/aggregator.go:404-452 | in every run whose appends all advance the counter, whatever fails after, the live counter stays at or below the log's and numbers strictly increase |
| Numbering.FailedRotationIsFinal | internal/aggregator/envwal/envwal.go:284-290 | after a failed rotation no append ever succeeds |
| Addresses.JoinThenSplit | internal/aggregator/discovery/podindex.go:130-151 | a plain host and port join to an address that splits back |
| Addresses.ColonHostDoesNotSplit | internal/aggregator/discovery/podindex.go:148 | a host with a colon joined without brackets does not split |
| Addresses.UnbracketedSplitsIff | internal/aggregator/discovery/podindex.go:130-134 | an address without a leading bracket splits exactly into the plain host and port it joins |
| Addresses.BracketedSplits | internal/aggregator/discovery/podindex.go:130-134 | a bracketed host splits to the host without its brackets |
| Addresses.AtoiOfItoa | internal/aggregator/discovery/service.go:91-138 | formatting a port loses nothing |
| PeersHistory.JoinIsFunctionOfHistory | internal/aggregator/clusterpeers/registry.go:289-328 | after any history under a nondecreasing clock a join equals the one computed from the events alone: per key the latest event is an observation younger than the TTL |
| PeersHistory.SweepsAreUnobservable | internal/aggregator/clusterpeers/registry.go:532-556 | histories that differ only in sweeps answer every join alike |
| PeersHistory.RemoveUndoesObserve | internal/aggregator/clusterpeers/registry.go:249-272 | removing the key an observation wrote gives the registry without that key, the registry itself if the key was new |
| PeersHistory.NoEmptyInnerKept | internal/aggregator/clusterpeers/registry.go:249-272 | no history leaves an empty inner map |
| PeersHistory.ResidencyIsBounded | internal/aggregator/clusterpeers/registry.go:513-556 | with a sweep within the last TTL every stored key was observed within twice the TTL, so size is bounded by the keys observed then |
| Registry.SweepMap | internal/aggregator/clusterpeers/registry.go:532-556 | deletes exactly the expired entries and counts the rest |
| Registry.SoleLiveWild | internal/aggregator/clusterpeers/registry.go:463-477 | in any map order, the one unexpired entry if there is exactly one |
| Registry.Registry.Observe | internal/aggregator/clusterpeers/registry.go:220-242 | the maps stay what the event history leaves |
| Registry.Registry.Remove | internal/aggregator/clusterpeers/registry.go:249-272 | the maps stay what the event history leaves |
| Registry.Registry.Stats | internal/aggregator/clusterpeers/registry.go:532-556 | a sweep in the history, with the sizes of what is left |
| Registry.Registry.FindExact | internal/aggregator/clusterpeers/registry.go:377-413 | the live exact entry whose pod the index does not contradict |
| Registry.Registry.FindWild | internal/aggregator/clusterpeers/registry.go:429-498 | the placed pod's own wildcard entry, else the sole live one of the same pod name; without a locator the sole live one |
| Registry.Registry.FindVip | internal/aggregator/clusterpeers/registry.go:342-372 | the loops compute the representative of the live backends |
| Registry.Registry.Join | internal/aggregator/clusterpeers/registry.go:289-328 | the answer is the one the events so far determine; by which path is the subject of the JoinPaths rows |
| JoinPaths.JoinAnswersBy | internal/aggregator/clusterpeers/registry.go:289-328 | a join answers directly exactly with an unrefuted live exact entry, through an endpoint, a VIP or a wildcard exactly when the paths before have nothing and that one has, and misses exactly when none of the four has anything; all in terms of what is live under which key and what the indexes say |
| JoinPaths.PlacedWildcardAnswers | internal/aggregator/clusterpeers/registry.go:429-457 | an IP placed on a pod with a live wildcard listener of its own on the port always gets an answer |
| JoinPaths.RepresentsIff | internal/aggregator/clusterpeers/registry.go:342-372 | a VIP answers with the first live backend's listener exactly when all live ones run one process and image, marked and counted when several are live |
| JoinPaths.ObservedUntilTtl | internal/aggregator/clusterpeers/registry.go:220-242 | an observation is live under its key until the TTL has passed, to the moment |
| JoinPaths.AdvertisedAnswersDirectly | internal/aggregator/clusterpeers/registry.go:289-328 | an advertised listener answers a connect to its address directly until its TTL, unless the pod index puts the IP on another pod |
| JoinPaths.NoDirectAnswerAfter | internal/aggregator/clusterpeers/registry.go:249-272 | after the TTL or a withdraw nothing answers directly there |
| JoinPaths.AdvertisedWildcardAnswers | internal/aggregator/clusterpeers/registry.go:429-457 | a pod that advertised a wildcard answers a connect to its own IP on that port until its TTL when nothing of that very address does |
| VipJoin.VipOrderIrrelevant | internal/aggregator/clusterpeers/registry.go:342-372 | reordering backends changes neither success nor process, image, Service, ambiguity and replica count |
| VipJoin.VipResolvesIff | internal/aggregator/clusterpeers/registry.go:342-372 | it succeeds exactly when some backend is live and all live ones run one process and image; the count is the number of live backends when above one |
| PodIndexes.BuildEndpoints | internal/aggregator/discovery/podindex.go:90-111 | endpoints, per-IP port lists without repetition and placements are exactly what the entries say |
| PodIndexes.BuildIdentities | internal/aggregator/discovery/podindex.go:74-85 | identities are the last usable one per IP |
| PodIndexes.PlacedByIff | internal/aggregator/discovery/podindex.go:90-111 | an IP's placement is that of the last entry that names a pod for it |
| PodIndexes.IdentifiedByIff | internal/aggregator/discovery/podindex.go:74-85 | a watched identity is the last one with both an IP and a pod |
| PodIndexes.PodEndpointIndex.Replace | internal/aggregator/discovery/podindex.go:90-111 | the whole slice-fed part is rebuilt, watched identities untouched |
| PodIndexes.PodEndpointIndex.ReplacePodIdentities | internal/aggregator/discovery/podindex.go:74-85 | only the watched identities are rebuilt |
| PodIndexes.PodEndpointIndex.PodForIP | internal/aggregator/discovery/podindex.go:162-173 | after any refreshes, the last slice refresh decides and where it is silent the last pod refresh |
| PodIndexes.PodEndpointIndex.ResolvePodAddr | internal/aggregator/discovery/podindex.go:130-151 | computes the fold on an index whose listed ports all name known endpoints |
| PodIndexes.ResolvesIff | internal/aggregator/discovery/podindex.go:130-151 | an address resolves to itself when it is a known endpoint or its port is a target of its IP, else to its IP's only target port, and to nothing when there is none or there are several |
| PodIndexes.ResolveKeepsHost | internal/aggregator/discovery/podindex.go:130-151 | for a colon-free host resolving keeps the host, is idempotent and lands on a known endpoint |
| PodIndexes.ColonHostFoldsAway | internal/aggregator/discovery/podindex.go:148 | with a colon in the host a folded address no longer resolves |
| PodIndexes.IdempotentIffNoColon | internal/aggregator/discovery/podindex.go:130-151 | resolving is idempotent over every index exactly for colon-free hosts |
| JoinPlacement.PodIdentInjective | internal/aggregator/clusterpeers/registry.go:502-504 | pod identities are injective on slash-free namespaces |
| JoinPlacement.JoinNamesPlacedPod | internal/aggregator/clusterpeers/registry.go:289-328 | for every history and index a direct, endpointslice or wildcard answer for a placed colon-free IP names that pod, or is an exact entry without a pod; the namespace agrees too save through the sole-wildcard fallback |
| JoinPlacement.ColonHostContradicts | internal/aggregator/clusterpeers/registry.go:400-413 | for every host with a colon, a history and an index with an answer of another pod |
| JoinPlacement.NeverContradictsIffNoColon | internal/aggregator/clusterpeers/registry.go:289-328 | no history and index contradict each other exactly for colon-free hosts |
| Advertise.WithdrawUndoesAdvertise | internal/aggregator/clusterpeers/advertise.go:29-75 | a withdraw of the same listener removes exactly the key its advertise wrote and leaves no empty inner map |
| Advertise.EdgeReadsBack | internal/aggregator/clusterpeers/advertise.go:82-118 | reading an edge back gives the listener's whole identity, beside the trigger's address, metadata, contributing events and severity; same-node and service-vip are marked exactly when they apply |
| Attribution.ExchangeIsAttributed | internal/aggregator/aggregator.go:404-429 | an exchange with an address taken within the TTL of an advertise of it, not disputed by the pod index, is put out followed by one edge that names the advertised process, pod, node, container and image and carries the exchange's metadata; the advertise is not put out |
| Attribution.ControlIsConsumed | internal/aggregator/aggregator.go:479-503 | advertises and withdraws, well formed or not, put out nothing |
| Attribution.OthersPassThrough | internal/aggregator/aggregator.go:510-525 | anything else, and an exchange without a peer or with one the kernel has named, is put out alone |
| Attribution.WithdrawnIsNotAnswered | internal/aggregator/aggregator.go:494-503 | once withdrawn or past its TTL an advertise attributes no exchange directly |
| SliceFold.PodEntries | internal/aggregator/discovery/service.go:483-528 | for the order the state is walked in, one entry per IP of a ready pod-backed endpoint, in order, with the union of nonzero ports in order and the pod of its first such endpoint |
| SliceFold.VisitsAre | internal/aggregator/discovery/service.go:483-528 | the endpoints folded are exactly the addresses of serving endpoints whose reference names a pod, under the reference's namespace or else the slice's, with the slice's set ports |
| SliceFold.EntriesSameIff | internal/aggregator/discovery/service.go:483-528 | two walks give the same IPs and ports, and the same entries exactly when they come to the same pod first for every IP |
| SliceFold.PodsWalkIff | internal/aggregator/discovery/service.go:483-528 | placements never depend on the walk exactly when slices that visit one IP come to the same pod first |
| SliceFold.EntriesServeVisits | internal/aggregator/discovery/podindex.go:90-111 | after the rebuild each IP serves exactly those ports, and exactly the visited IPs are placed, on a pod that claims them |
| SliceGroups.BuildSlices | internal/aggregator/discovery/service.go:427-478 | for the order the state is walked in, per Service the ready addresses, sorted and each once, and exactly the published port names, each with a port a slice publishes under it |
| SliceGroups.GroupIsServed | internal/aggregator/discovery/service.go:427-478 | a group's addresses are exactly those of serving endpoints in slices labelled with the Service |
| SliceGroups.GroupIsTargeted | internal/aggregator/discovery/service.go:427-478 | a group's ports are exactly the last set port under each name of such a slice |
| SliceGroups.GroupedUnique | internal/aggregator/discovery/service.go:427-478 | addresses never depend on the walk, nothing does when slices of a Service agree on port names |
| SliceGroups.SlicesWalkIff | internal/aggregator/discovery/service.go:427-478 | the groups never depend on the walk exactly when slices of a Service agree on each port name |
| ServiceIndexes.ClusterIPsOf | internal/aggregator/discovery/service.go:541-559 | exactly the ClusterIPs that are neither unset nor headless, each once |
| ServiceIndexes.BuildServices | internal/aggregator/discovery/service.go:398-423 | an entry for exactly the claimed ClusterIPs, of a Service that claims it |
| ServiceIndexes.NonzeroPublishes | internal/aggregator/discovery/service.go:398-423 | leaving out unset ports changes nothing about which name a set port is first published under |
| ServiceIndexes.OwnedUnique | internal/aggregator/discovery/service.go:398-423 | independent of the walk when no ClusterIP is claimed twice |
| ServiceIndexes.ServicesWalkIff | internal/aggregator/discovery/service.go:398-423 | the map never depends on the walk exactly when no ClusterIP is claimed by two Services |
| ServiceWatch.ServiceWatcher.ApplyServices | internal/aggregator/discovery/service.go:398-423 | the Service half holds the state last applied, the rest is untouched |
| ServiceWatch.ServiceWatcher.ApplySlices | internal/aggregator/discovery/service.go:427-478 | the slice half holds the state applied, and the pod index serves and places exactly what its ready pod-backed endpoints say; watched identities are untouched and decide where the slices are silent |
| ServiceWatch.PodIndexHolds | internal/aggregator/discovery/podindex.go:90-173 | fold and rebuild together: per IP exactly the nonzero ports of its ready pod-backed endpoints, exactly those addresses, a visited IP on a pod that claims it, any other IP where the pod watch puts it |
| ServiceWatch.ServiceWatcher.ResolveVIP | internal/aggregator/discovery/service.go:91-138 | the loops compute the lookup on the current index |
| Indexes.PortNamedIff | internal/aggregator/discovery/service.go:105-117 | a port has a name exactly when the first published port of that number has it, and none exactly when no port has that number |
| ServiceWatch.VipIsBacked | internal/aggregator/discovery/service.go:91-138 | a resolved VIP belongs to a Service that owns the host and publishes that very port first under a name; its backends are the addresses of serving endpoints of that Service's slices in order, each once, at the last set port one of them gives that name |
| ServiceWatch.VipResolvesIff | internal/aggregator/discovery/service.go:91-138 | with unique ClusterIPs an address owned by a Service resolves exactly when that Service publishes the port number, a slice gives its name a target and a serving address exists |
| ServiceWatch.UnclaimedDoesNotResolve | internal/aggregator/discovery/service.go:91-138 | an address no Service claims does not resolve |
| ServiceWatch.VipWalkOrderIrrelevant | internal/aggregator/discovery/service.go:91-138 | no resolution depends on the walk when ClusterIPs are unique and slices agree on port names |
| ServiceWatch.GroupIsOfService | internal/aggregator/discovery/service.go:427-478 | in slash-free namespaces a group's slices are those labelled with its Service |
| Writer.OutputsAddUp | internal/aggregator/aggregator.go:404-429 | outputs are the envelopes that are not control traffic plus an edge a hit, VIP hits are hits, hits are eligible, and no control envelope is put out |
| Writer.AnswerIgnoresSweeps | internal/aggregator/aggregator.go:510-535 | whatever sweeps ran in between, a join answers as the envelopes taken so far say |
| FanIn.Aggregator.Receive | internal/aggregator/aggregator.go:614-619 | one envelope more received and in the loop's hand |
| FanIn.Aggregator.Enqueue | internal/aggregator/aggregator.go:620-628 | queued, or counted as dropped when the channel is full |
| FanIn.Aggregator.Sweep | internal/aggregator/aggregator.go:283-285 | a background sweep leaves outputs and counters a function of what was taken |
| FanIn.Aggregator.Emit | internal/aggregator/aggregator.go:434-474 | the output gets the log's or the live number, is broadcast, and every counter moves accordingly |
| FanIn.Aggregator.Fold | internal/aggregator/aggregator.go:479-503 | the registry has seen exactly the control envelopes taken |
| FanIn.Aggregator.JoinPeer | internal/aggregator/aggregator.go:510-535 | the edge and the counters are those of the answer the envelopes taken determine |
| FanIn.Aggregator.WriteOne | internal/aggregator/aggregator.go:404-429 | the whole output stream and the join counters stay a function of the envelopes taken; an edge follows its trigger with the next number |
| FanIn.Aggregator.Conserved | internal/aggregator/aggregator.go:404-535 | in every reachable state received = dropped + queued + taken + in hand, emitted = taken - control + joins, appends + append errors = emitted, VIP joins are joins, joins + misses = eligible, no advertise or withdraw emitted |
| FanIn.Aggregator.NumbersIncreaseIff | internal/aggregator/aggregator.go:434-452 | in every reachable state the emitted numbers strictly increase exactly when what the appends came to is affordable |
| Channels.PushAll | internal/aggregator/aggregator.go:240-250 | in any order every registered channel with room gains exactly the envelope and no drop, every full one stays and counts one, and none is closed |
| Channels.RemovalGap | internal/aggregator/aggregator.go:229-238 | between removal and folding the report is lower by the subscriber's drops, and falls exactly when there are some |
| Channels.ReportCanFall | internal/aggregator/aggregator.go:229-238 | a concrete fall from 3 to 0 |
| Channels.StaleLoadFalls | internal/aggregator/aggregator.go:391-400 | a fall from 3 to 0 with nobody half unregistered: a whole unregister between the load and the lock |
| Channels.Subscribers.Register | internal/aggregator/aggregator.go:218-227 | a fresh open channel with nothing offered |
| Channels.Subscribers.Broadcast | internal/aggregator/aggregator.go:240-250 | with room the queue gains exactly the envelope, a full one counts a drop; per subscriber broadcasts = drops + queued + received, and without drops received then queued are the broadcasts in order |
| Channels.Subscribers.KeepingUpIsLossless | internal/aggregator/aggregator.go:240-250 | in every run a subscriber has every broadcast since its registration received or waiting, in order, and no drop, exactly when broadcasts were never ahead of its receipts by more than its channel holds |
| Channels.Subscribers.Receive | internal/aggregator/aggregator.go:240-250 | takes the oldest queued envelope and keeps that balance |
| Channels.Subscribers.Unregister | internal/aggregator/aggregator.go:229-238 | the channel is closed outside the registered set and no drop is lost |
| Channels.Subscribers.LoadFolded | internal/aggregator/aggregator.go:393 | the folded total is loaded before the lock |
| Channels.Subscribers.SumUnderLock | internal/aggregator/aggregator.go:394-400 | the report falls short by the drops in the gap and those folded in since the load, is exact just when there are none of either, and then no less than any earlier report |
| Channels.Subscribers.Stats | internal/aggregator/aggregator.go:391-400 | taken whole, exact just when nobody half unregistered has drops, so that between whole steps reports never fall |
| Fleet.Wanted | internal/aggregator/aggregator.go:333-337 | the last endpoint of each name |
| Fleet.CancelDeparted | internal/aggregator/aggregator.go:338-344 | in any order exactly the runs whose names are gone are cancelled and leave the map |
| Fleet.Fleet.StartEndpoint | internal/aggregator/aggregator.go:354-364 | a new uncancelled run with one loop per stream takes over the name |
| Fleet.Fleet.Seed | internal/aggregator/aggregator.go:289-292 | the uncancelled runs are exactly the active ones if and only if seed names are distinct |
| Fleet.Fleet.Reconcile | internal/aggregator/aggregator.go:333-352 | the active names become the emission's, endpoints already running keep their run, no orphan comes or goes |
| Fleet.Fleet.LoopReturns | internal/aggregator/aggregator.go:354-364 | a loop ends only under a cancelled context, so uncancelled runs keep all their loops |
| Fleet.Fleet.CloseMerge | internal/aggregator/aggregator.go:300-301 | the merge channel closes with no loop left |
| CursorSpec.KeyInjective | internal/aggregator/cursorstore.go:97 | keys are injective on NUL-free agents |
| CursorSpec.SavedIsLatestGreatest | internal/aggregator/cursorstore.go:143-167 | after any saves the stored cursor is the latest greatest one in the trailing run of saves from the last save's node |
| CursorSpec.NumberNeverFalls | internal/aggregator/cursorstore.go:143-167 | the number never falls while the node is unchanged |
| CursorSpec.RoundTripIff | internal/aggregator/cursorstore.go:203-228 | written out in any order and read back a map is the same if and only if every cursor's own stream is its key's |
| CursorSpec.SaveKeepsWellKeyed | internal/aggregator/cursorstore.go:143-167 | a save keeps that condition exactly when the cursor names the stream it is saved under |
| CursorStore.DecodeAll | internal/aggregator/cursorstore.go:99-118 | the last entry under a key wins |
| CursorSpec.DecodeIff | internal/aggregator/cursorstore.go:99-118 | under a key is the cursor of the last entry for its agent and stream |
| CursorStore.EncodeAll | internal/aggregator/cursorstore.go:203-214 | in any order one entry per key, under the agent before the first NUL |
| CursorStore.Open | internal/aggregator/cursorstore.go:76-118 | fails exactly on an unreadable or malformed file; a missing or empty one is an empty store |
| CursorStore.FileStore.Load | internal/aggregator/cursorstore.go:133-141 | the cursor the key's own history of saves leaves |
| CursorStore.FileStore.Save | internal/aggregator/cursorstore.go:143-167 | memory stays what the saves leave; a change is marked pending |
| CursorStore.FileStore.Flush | internal/aggregator/cursorstore.go:203-228 | the file becomes memory, or stays as it was on failure |
| CursorStore.FileStore.Close | internal/aggregator/cursorstore.go:241-252 | after a last flush that goes through, the file reads back as memory when memory is well keyed |
| CursorStore.ReopenedHoldsTheSame | internal/aggregator/cursorstore.go:99-118 | a store opened on a flushed, well-keyed store's file answers every load alike |

## Left out

- 64-bit wrap-around of sequence numbers and counters, and the range check of `strconv.Atoi`.
- Torn or partial writes, fsync, the newline write after a record, and rename semantics of the file system.
- Errors of reading a segment other than its absence, and errors returned by the read callback or by `Send`.
- The textual form of segment file names; a segment's path is the number in it.
- More than one re-export subscriber in the resume machine; `Channels` has any number, without the log.
- End-to-end lossless delivery from agents, which the code does not give: a full queue drops after the cursor is saved.
- Dialling, TLS, tokens, HTTP list and watch, backoff, and the decoding of JSON and protobuf.
- The wake-up channel and ticker of the cursor flusher; a flush can happen at any time.
- The pod watch's own decoding of pod objects (`applyPods`); its identities are an input.
- A Service watcher without a pod index.
- `How.String`, `flatten`, `pickPort`, `endpointReady`, `marshalJSONString`, metrics, the command line and `TrimForTest`: easy to read off the code.
- EnvWal.Wal.ReadFrom: takes what opening each file found as a parameter instead of opening files one by one; `WalRun` proves what that can be for every run of the log meanwhile, and `Resume` has the interleaving entry by entry.
- FanIn.Aggregator.Emit: takes what the append came to as a parameter and keeps broadcasts as a sequence; `Resume` has the log and a subscriber, `Channels` the subscribers.
- FanIn.Aggregator.WriteOne: is one step of the writer against receives, enqueues and sweeps; a refresh of the indexes during the step is not modelled.
