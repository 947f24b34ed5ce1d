# HyNode, verified models

HyNode is a daemon that runs proxy nodes for a panel. It polls the panel for a node configuration and a user
list, keeps a sing-box or mieru instance running for the pair, counts the traffic of each user, limits the
number of devices a user connects from, and reports both to the panel. This project models the parts in which
those promises are kept or broken, and proves what holds of them in every run.

* **The store, one caller at a time** (`Panel`, `Text`, `Decimal`, `Shards`, `DeviceLimit`, `DeviceTable`,
  `Usage`, `Store`, `Report`, `Tracker`, `Identity`). `Store.Store` is the sharded store with its maps updated in
  place; a ghost history of listings and connection attempts gives the device limit a meaning that does not
  mention address tables, time stamps or pruning. `Tracker` has the connection wrappers and the set the flusher
  sweeps, `Report` has `doReport`, `Identity` the names users are given and how they are resolved.
* **The store, interleaved** (`Sums`, `Accounting`, `Tracking`, `Conservation`, `Connections`, `Reporting`, `Runs`,
  `Closing`, `LastReport`, `Witnesses`). A state machine whose steps are single critical sections and atomic operations
  of any number of connections, flush loops and report loops, including reports the panel applies but that are seen to
  fail, and reports applied after they were given up on. `Runs` has the results about every finite run, `Closing` and
  `LastReport` what becomes of bytes at a close and at shutdown, `Witnesses` runs in which the unwelcome cases happen.
* **The two models of the store agree** (`Agreement`). On the usage counters, the steps of the state machine do what
  the methods of the class do.
* **The locks** (`Locks`). One step per lock operation, writers that queue and hold back new readers, and the
  lock sequence of every call. No run deadlocks.
* **Synchronisation with the panel** (`Poller`, `Node`, `Sync`, `Lifecycle`, `Worker`). The ETag poller, `refresh`
  and `apply` with answers, build failures and start failures as inputs, and the instances they create and close.
  `Worker.NodeWorker` runs `runNode` on fields; its methods are proved equal to the functions of `Node`.
* **The route compilers** (`Routes`, `Mieru`). Both compilers as loops and as functions, what first-match
  evaluation makes of their output, and the two back ends compared.
* **The configuration** (`Config`). The checks on node identifiers that make one report loop per node.

## What is not so

The code and what its comments or documentation say differ in these places. The models follow the code; each
difference has lemmas that show it and say exactly when the promise holds.

* The comment at `internal/state/store.go:419` calls the flush inside `Close` final. `Close` sets the flag that makes
  `flush` return at once, so that flush moves nothing (`Tracking.CloseNeverFlushes`). What is pending when `Close` wins
  the flag can still be delivered exactly if a sweep had already passed the flag of that connection, for either
  direction: `Closing.CloseDeliversIff`, `Closing.ClosedBytesStay`, `Closing.PassedFlagDelivers`; a run that loses bytes
  is in `Witnesses.ClosingLosesBytes`.
* `internal/kernel/singbox/singbox.go:445-493` gives packet connections counters, but nothing ever flushes an open
  one, so UDP traffic is never reported: `Runs.PacketBytesStay`, `Runs.PacketTrafficNeverReported`,
  `Witnesses.PacketTrafficHappens`.
* `README.md:240` says the last report keeps data from being lost. All that was ever counted is acknowledged exactly if
  every wrapper had handed over its bytes when the snapshot was taken, nothing was counted after it, and the report was
  acknowledged or had nothing to report: `LastReport.LastReportCompleteIff`, `Witnesses.LastReportFallsShort`. The
  runtime is closed only after that report: `Worker.NodeWorker.RunNode`.
* The comment at `internal/state/store.go:322-326` and `README.md:233` promise a single flush loop. Loops never end,
  and each registration that finds nothing tracked makes another: `Runs.RegistrationMakesLoopIff`, `Runs.OneLoopIff`,
  `Witnesses.TwoLoopsHappen`. No byte is added twice all the same: `Runs.TrafficConserved`.
* A report that is applied and yet seen to fail is reported again: `Runs.PanelAgreesIff` says exactly when the panel
  agrees with the store, `Witnesses.PanelCountsTwice` has a run in which it does not.
* A changed document that comes without an ETag is stored under the old tag. `Poller.RunAgreesIff` says exactly when
  the tag stops naming the stored body, and when a poll then leaves a stale one; `Poller.UntaggedChangeMisleads` has a run.
* `changed` is local to `refresh`, so an update whose apply failed is not applied again until another comes:
  `Sync.RefreshSyncsIff`. The initial retry can end in success with nothing running: `Sync.RetryCanEndEmptyHanded`.
* A panel that answers 304 to requests without a tag can make the worker meet a nil config: `Worker.NodeWorker.RunNode`
  says exactly when.
* The device limit bounds every window as long as the TTL, and no longer one: `DeviceLimit.DeviceWindowIff`.
* The secret map is replaced by whichever node applied last, so another node's UUID names stop resolving:
  `Identity.UuidNamesResolveIff`, `Identity.OtherNodesListEvicts`.

## Model

| member | source | states |
|---|---|---|
| Text.SuffixTestIsLabelSuffix | internal/kernel/mieru/mieru.go:200 | for all strings, "equal, or ends with a dot and the domain" holds exactly if the domain's labels are a suffix of the host's |
| Text.LowerIsAlphabetic | internal/kernel/mieru/mieru.go:161 | lowering takes each capital to the small letter at its place in the alphabet and leaves every other character alone |
| Text.LowerIgnoresCase | internal/kernel/singbox/singbox.go:279 | all spellings of a word by letter case are lowered to the same text |
| Text.TrimSpaceIs | internal/kernel/mieru/mieru.go:170 | trimming takes off exactly the white space around a text |
| Text.AffixesAre | internal/config/config.go:133 | prefix and suffix tests hold exactly if the rest of the text exists |
| Decimal.ParseFormat | internal/state/store.go:242-259 | the key Snapshot prints is parsed back by Commit to the same identifier, for every int64 |
| Decimal.FormatInjective | internal/state/store.go:231-242 | two users share a snapshot key exactly if they are the same user |
| Decimal.FormatParse | internal/kernel/singbox/singbox.go:438-443 | a name that parses is the printed form of what it parses to exactly if it has no plus sign, leading zero or minus zero |
| Decimal.ParseIntIff | internal/kernel/singbox/singbox.go:439 | a text parses exactly if it is a numeral of a number an int64 can hold, and then as the number its digits stand for in base ten |
| Shards.ShardIsRemainder | internal/state/store.go:86-93 | the masked identifier is the Euclidean remainder modulo 64 and a valid shard index, negatives included |
| Shards.FlatLookup | internal/state/store.go:130-132 | looking a user up in its shard is looking it up in one flat map |
| Shards.FlatUpdate | internal/state/store.go:109-115 | writing into a shard is one update of the flat map, and keeps every user in its own shard |
| Shards.EarlierShardsDisjoint | internal/state/store.go:219-236 | a loop over the shards never meets a user it has already met |
| Shards.CountIsFlatSize | internal/state/store.go:273-281 | the shard sizes add up to the number of distinct users |
| DeviceLimit.DeviceWindow | internal/state/store.go:129-148 | with every listed limit between 1 and L, no closed window of length ttl admits more than L distinct sources, over any number of nodes |
| DeviceLimit.TrailingWindowBounded | internal/state/store.go:137-147 | at no moment are more than L sources inside the trailing window |
| DeviceLimit.LongerWindowExceeds | internal/state/store.go:290-296 | for every limit and every window longer than ttl, a history in which the window holds one source more than the limit |
| DeviceLimit.DeviceWindowIff | internal/state/store.go:129-148 | the bound on a window holds in every history, for every limit, exactly if the window is no longer than ttl |
| DeviceLimit.AdmitsIff | internal/state/store.go:131-147 | the rule of admission over the recorded events alone, in terms of the last listing and the admitted attempts of the window |
| DeviceTable.PrunedTableIsWindow | internal/state/store.go:290-296 | what pruning keeps is exactly the set of sources admitted within the last ttl, though only one time per source is stored and pruning is lazy |
| DeviceTable.AttemptKeepsTracks | internal/state/store.go:138-147 | every attempt keeps a user's table in step with the history, and other users' attempts leave it so |
| DeviceTable.LatestDecidesWithin | internal/state/store.go:139-146 | the latest admission time of a source decides whether it is in the window |
| Usage.CommitIsExact | internal/state/store.go:255-271 | committing a covered snapshot debits exactly the users snapshotted, in full, in any map order, and nobody else |
| Store.ListingRefines | internal/state/store.go:108-119 | listing a user keeps the user map in step with the history: limit replaced, addresses kept, nobody removed |
| Store.AttemptRefines | internal/state/store.go:129-148 | an attempt decided by the history rule keeps the user map in step with the history |
| Store.DeviceLimitHolds | internal/state/store.go:76 | the device window bound for any store its own methods led to, over five minutes of nanoseconds |
| Store.Store.constructor | internal/state/store.go:71-83 | a new store is empty and its history too |
| Store.Store.ReplaceUsers | internal/state/store.go:95-120 | replaces the secret map wholesale, last entry winning, and lists the users in order without removing any |
| Store.Store.ListUsers | internal/state/store.go:108-119 | the whole effect of the second loop on the flat user map and the history |
| Store.Store.ListUser | internal/state/store.go:109-118 | one user's section: policy replaced, address table kept, everyone else untouched |
| Store.SecretMapIsLast | internal/state/store.go:96-105 | a secret maps to the last entry of the listing that has it |
| Store.Store.UserBySecret | internal/state/store.go:122-127 | finds the user of the last entry with that secret in the listing ReplaceUsers applied last, and nobody exactly if that listing has none |
| Store.Store.Open | internal/state/store.go:129-159 | admits exactly if the user was listed and the source is empty, the limit listed last is none, the source was admitted in the last five minutes, or fewer sources than the limit were; an admitted open is counted once |
| Store.Store.Admit | internal/state/store.go:130-148 | the section under the shard lock decides and stamps as the history rule says |
| Store.Store.Judge | internal/state/store.go:137-147 | prunes, then refuses exactly a new source of a limited user whose table is full, and stamps an admitted source |
| Store.Store.CountOpen | internal/state/store.go:150-157 | one more open connection at that user and node and nowhere else |
| Store.Store.PruneLocked | internal/state/store.go:290-296 | deletes exactly the expired addresses |
| Store.Store.NodeUsage | internal/state/store.go:298-310 | returns the counters, creating zero ones, and changes no other entry |
| Store.Store.Close | internal/state/store.go:161-168 | takes one connection off the entry and the atomic, both or neither |
| Store.Store.Add | internal/state/store.go:170-185 | adds to one entry if the user was ever listed, and otherwise changes nothing |
| Store.Store.Known | internal/state/store.go:171-178 | a user is found in its shard exactly if it was ever listed |
| Store.Store.LiveSources | internal/state/store.go:224-229 | lists each unexpired address once |
| Store.Store.ShardAlive | internal/state/store.go:222-234 | extends the report of live addresses by exactly one shard's users |
| Store.Store.CollectAlive | internal/state/store.go:218-236 | reports the live addresses of every user of the flat map, users without any left out |
| Store.Store.NodeEntries | internal/state/store.go:238-250 | the traffic and online entries are the node's nonzero counters under printed keys, no more and no less |
| Store.Store.TakeSnapshot | internal/state/store.go:210-253 | the three parts of a snapshot exactly; its read-only filter reports what pruning would keep |
| Store.Store.Commit | internal/state/store.go:255-271 | debits every entry of the snapshot once, in some order |
| Store.Store.TotalUsers | internal/state/store.go:273-281 | counts each user once |
| Report.AdditionsCover | internal/app/app.go:196-213 | whatever is added while a report is on its way, usage still covers the snapshot |
| Report.DebitKeepsCredit | internal/state/store.go:268-269 | debiting a covered snapshot never takes a counter below zero |
| Report.DoReport | internal/app/app.go:196-213 | sends exactly the node's counters; an acknowledgement debits exactly what was sent, a failure nothing, and additions meanwhile stay |
| Tracker.TrackedConn.constructor | internal/state/store.go:382-386 | a new wrapper is open and has counted nothing |
| Tracker.TrackedConn.Read | internal/state/store.go:399-406 | counts exactly the bytes read |
| Tracker.TrackedConn.Write | internal/state/store.go:408-415 | counts exactly the bytes written |
| Tracker.TrackedConn.Flush | internal/state/store.go:388-397 | hands everything pending to the store once, or nothing if closed |
| Tracker.TrackedConn.Close | internal/state/store.go:417-424 | the first Close unregisters and releases, later ones do nothing, and pending bytes stay where they are |
| Tracker.Flusher.RegisterConn | internal/state/store.go:341-349 | starts a loop exactly if nothing was tracked |
| Tracker.Flusher.UnregisterConn | internal/state/store.go:352-359 | clears the flag exactly when the set becomes empty, and stops no loop |
| Tracker.Flusher.Sweep | internal/state/store.go:327-337 | in any order, each open tracked connection with pending bytes hands over all of them once, and nothing else is added |
| Tracker.AdditionsAddUp | internal/state/store.go:388-397 | additions in any order credit each listed user the exact sum and touch no connection count |
| Tracker.PacketConn.constructor | internal/kernel/singbox/singbox.go:435 | a new packet wrapper is open and has counted nothing |
| Tracker.PacketConn.ReadPacket | internal/kernel/singbox/singbox.go:457-464 | counts exactly the bytes of the packet |
| Tracker.PacketConn.WritePacket | internal/kernel/singbox/singbox.go:466-474 | counts exactly the bytes of a packet that was sent |
| Tracker.PacketConn.Flush | internal/kernel/singbox/singbox.go:476-485 | would hand everything pending to the store once, or nothing if closed |
| Tracker.PacketConn.Close | internal/kernel/singbox/singbox.go:487-493 | releases the connection once, in the entry and the atomic; none of its bytes reach the store |
| Tracker.OpenWrapped | internal/kernel/mieru/mieru.go:138-142 | a connection is wrapped and tracked exactly if it was admitted |
| Tracker.ResolveUser | internal/kernel/singbox/singbox.go:438-443 | numeric names are identifiers, others secrets |
| Tracker.RoutedConnection | internal/kernel/singbox/singbox.go:420-427 | the connection is wrapped exactly if its user resolves and the device rule admits it |
| Tracker.Serve | internal/kernel/mieru/mieru.go:138-156 | an admitted connection is wrapped, counted and released again and leaves nothing tracked; a refused one leaves only its attempt |
| Tracker.Handle | internal/kernel/mieru/mieru.go:131-156 | Open and Close pair up, a connection over before the next sweep is charged nothing, a refused one changes no counter, and an unknown secret leaves no trace |
| Tracker.OpenedThenReleased | internal/state/store.go:150-168 | Close undoes Open's count |
| Tracking.StepKeepsStructure | internal/state/store.go:327-424 | every step keeps the tracked set, the closed flags and the exclusion of sweeps consistent, and no byte is ever dropped as an unknown user's |
| Tracking.CloseNeverFlushes | internal/state/store.go:417-424 | the flush inside Close changes nothing but where the connection stands |
| Conservation.StepConserves | internal/state/store.go:388-424 | every step keeps counted = pending + in hands + usage + committed |
| Connections.GuardHolds | internal/state/store.go:161-168 | an open connection makes its entry positive |
| Connections.StepKeepsCounters | internal/state/store.go:150-168 | every step keeps the active fields, the atomics and the flusher flag exact |
| Reporting.CommitTakesSnapshot | internal/state/store.go:255-271 | under the protocol, a commit takes off exactly the snapshot |
| Reporting.StepKeepsProtocol | internal/app/app.go:196-213 | every step keeps usage covering the outstanding snapshot and the panel's account balanced |
| Runs.ReachableIsGood | internal/state/store.go:129-424 | all the invariants hold in every reachable state |
| Runs.CountedIsTransferred | internal/state/store.go:399-415 | in every run the wrappers count exactly the bytes transferred, uploads as uploads and downloads as downloads |
| Runs.TrafficConserved | internal/state/store.go:388-424 | in every run, bytes transferred = bytes counted = pending in wrappers + in flushers' hands + usage + committed, by direction, and none is dropped |
| Runs.PacketBytesStay | internal/kernel/singbox/singbox.go:445-493 | a packet connection keeps all it ever counted |
| Runs.PacketTrafficNeverReported | internal/kernel/singbox/singbox.go:420-493 | a user with packet connections only is never in a traffic report |
| Closing.ClosedBytesStay | internal/state/store.go:388-424 | pending bytes of a closed connection, of a direction no flush has gone past the flag for, stay in it in every continuation |
| Closing.PassedFlagDelivers | internal/state/store.go:388-397 | if a flush has gone past the flag, some continuation adds all of that direction's pending bytes to usage |
| Closing.ClosedDeliversIff | internal/state/store.go:388-424 | a closed connection's pending bytes can still be delivered exactly if there are none or a flush had gone past the flag |
| Closing.CloseDeliversIff | internal/state/store.go:417-424 | the same at the moment Close wins the flag, by what the flush loops are doing then |
| LastReport.StepCommitted | internal/app/app.go:208-212 | only a node's own commit moves its users' bytes to the committed totals, and it moves exactly its snapshot |
| LastReport.ReportStanding | internal/app/app.go:196-213 | from snapshot to answer, whatever else goes on, the snapshot is outstanding, given up, or committed in full |
| LastReport.LastReportCompleteIff | internal/app/app.go:171-180 | after the last report all traffic ever counted has been acknowledged exactly if all was handed over at its snapshot, nothing was counted after it, and it was acknowledged or had nothing to report |
| Runs.ConnectionCountersExact | internal/state/store.go:150-168 | active fields are the open connections; the atomic lags by the opens between the two counts and is never negative |
| Runs.ActiveFieldsAddUp | internal/state/store.go:150-168 | in every run the active fields of all users and nodes add up to the atomic counter plus the opens it lags by, which is all connections opened and not released |
| Runs.OnlineExact | internal/state/store.go:238-250 | a node's online entries are exactly its users with open connections, with their number |
| Runs.CloseGuardNeverFails | internal/state/store.go:161-168 | the guard in Close holds whenever a wrapper calls it |
| Runs.FlusherRegistrationExact | internal/state/store.go:327-359 | the flag is set exactly while something is tracked; loops running or about to start number the times tracking began |
| Runs.RegistrationMakesLoopIff | internal/state/store.go:341-349 | the loops running or about to start grow by one exactly if the registration finds nothing tracked |
| Runs.OneLoopIff | internal/state/store.go:322-359 | a run has made at most one loop exactly if no two of its registrations found nothing tracked |
| Witnesses.TwoLoopsHappen | internal/state/store.go:322-359 | a run with two loops |
| Witnesses.PacketTrafficHappens | internal/kernel/singbox/singbox.go:457-474 | a run in which a packet connection has counted any bytes of both directions |
| Witnesses.ClosingLosesBytes | internal/state/store.go:417-424 | a run in which a released TCP connection keeps any bytes of both directions for good |
| Witnesses.LastReportFallsShort | internal/app/app.go:171-180 | a run in which a last report that is acknowledged leaves any counted bytes of either direction unreported |
| Witnesses.PanelCountsTwice | internal/app/app.go:208-211 | a run in which the panel has the bytes of a failed report and the store will report them again |
| Witnesses.LateDeliveryHappens | internal/app/app.go:208-211 | a run in which a report is applied after it was given up on |
| Witnesses.LateCountHappens | internal/state/store.go:399-424 | a run in which a released connection counts any further bytes |
| Runs.SweepsExclude | internal/state/store.go:327-337 | no two loops are ever inside a sweep |
| Runs.ReportingExact | internal/app/app.go:196-213 | acknowledged + remaining = added, neither negative; the panel exceeds the committed total by exactly the applied reports that failed or are not yet committed |
| Runs.CommitNeverTruncates | internal/state/store.go:255-271 | in every run each commit takes its snapshot off in full |
| Runs.PanelAgreesIff | internal/app/app.go:208-212 | between reports, the panel agrees with the store about a user and direction exactly if every failed report that was applied had no bytes of them |
| Agreement.OpenAgrees | internal/state/store.go:150-154 | the step that enters usage does to the counters what the class's Open does |
| Agreement.CloseAgrees | internal/state/store.go:161-168 | the step that releases does what the class's Close does |
| Agreement.AddAgrees | internal/state/store.go:180-184 | the step that posts a flusher's bytes does what the class's Add does |
| Agreement.SnapshotAgrees | internal/state/store.go:238-249 | both models snapshot the same users with the same bytes |
| Agreement.OnlineAgrees | internal/state/store.go:246-248 | both models report the same users online with the same numbers |
| Agreement.CommitAgrees | internal/state/store.go:255-271 | the step that commits does what the class's Commit does, in whatever order it visits the entries |
| Locks.ProgramDisciplined | internal/state/store.go:95-359 | every call takes its locks in one order and gives all of them back |
| Locks.ProgramTakes | internal/state/store.go:95-359 | every call takes exactly the locks of the data it touches, for writing exactly where it writes |
| Locks.WhoGetsTheLock | internal/state/store.go:25-43 | readers share, a waiting writer is not overtaken, and it gets the lock exactly if nobody holds it |
| Locks.WaitForAcyclic | internal/state/store.go:95-359 | in every run no chain of waits returns to its start |
| Locks.NoDeadlock | internal/state/store.go:95-359 | while any goroutine is inside a call, some goroutine can go on |
| Locks.WritersExclude | internal/state/store.go:25-43 | a writer excludes every other holder of its lock |
| Poller.Get | internal/panel/client.go:82-109 | the client's code computes the tag, body and failure that the theorems are about |
| Poller.PollAgrees | internal/panel/client.go:82-109 | against a conforming panel, a poll that succeeds leaves the current body stored, one that fails changes nothing |
| Poller.TagKeptIff | internal/panel/client.go:95-108 | the tag goes on naming the stored body exactly unless a changed body came without a tag |
| Poller.TagImpliesBody | internal/panel/client.go:43-59 | a tag is only held together with a body |
| Poller.BareTagIff | internal/panel/client.go:95-101 | whatever the panel answers, a tag is held without a body exactly if no document came but a 304 that brought a tag |
| Poller.RunAgreesIff | internal/panel/client.go:82-109 | over whole runs the tag names the stored body exactly unless the last document came untagged and changed, any tagged document mends that, and a poll leaves the panel's current body exactly if it brought one or the poller was not misled |
| Poller.UntaggedChangeMisleads | internal/panel/client.go:95-98 | a conforming run with an untagged change after which a 304 leaves the wrong body |
| Sync.DirtyFlagsHonest | internal/app/app.go:74-159 | in every run, through all failure exits, a clear flag means the running instance has the current config, or users |
| Sync.ApplySyncs | internal/app/app.go:95-133 | after a refresh whose apply succeeds the running instance is the one built from the current pair |
| Sync.RunningIsAnnounced | internal/app/app.go:95-133 | in every run, while users are not dirty the store lists exactly the running instance's users, and while the config is not dirty the panel is told that instance's node type |
| Sync.HotReloadRefinesRebuild | internal/app/app.go:102-131 | in any refresh that reaches it, a reload installs the very runtime a rebuild would, since the runtime's own config is the current one |
| Sync.KindIsProtocol | internal/app/app.go:229-237 | in every run the running instance is a mieru server exactly if its config's protocol is "mieru" |
| Sync.UsersOnlyRefresh | internal/app/app.go:102-132 | a users-only refresh of a running node: sing-box starts the next instance before it closes the previous one, mieru closes first, and a reload that fails falls back to a rebuild |
| Sync.ApplySucceedsIff | internal/app/app.go:102-132 | a refresh that applies succeeds exactly if the rebuild builds and starts, or users alone are outstanding at a sing-box node and its reload does |
| Sync.FailedApplyLeaves | internal/app/app.go:115-127 | a failed apply leaves the old instance if the next could not be built and none if it did not start, and leaves what was outstanding outstanding |
| Sync.NothingNewNothingDone | internal/app/app.go:155-158 | a refresh that brings nothing new touches no instance and no input |
| Sync.UnappliedConfigForcesRebuild | internal/app/app.go:102-131 | if the last instance that started was not built from the current config, a refresh that applies does nothing but rebuild |
| Sync.ConfigDirtyExact | internal/app/app.go:129-145 | in every run the config is dirty exactly while a config document has come that no completed rebuild has taken up |
| Sync.UsersDirtyExact | internal/app/app.go:109-151 | in every run the users are dirty exactly while a user list has come that no started instance has taken up |
| Sync.InputsKnownIff | internal/app/app.go:135-154 | in every run a config is known exactly if some answer brought one, and users exactly if some answer to a users fetch did |
| Sync.RetryLeavesInputs | internal/app/app.go:161-166 | if every 304 answers a request that carried a tag, the initial retry leaves a config that is not nil and known users |
| Sync.RefreshSyncsIff | internal/app/app.go:135-159 | a refresh that succeeds leaves the node in sync exactly if it got something new or was in sync |
| Sync.RetryCanEndEmptyHanded | internal/app/app.go:155-164 | a run in which the initial retry succeeds with nothing running |
| Sync.RefreshPolls | internal/app/app.go:135-154 | the node's config and users follow the ETag poller |
| Sync.NodePolls | internal/app/app.go:135-154 | over a whole run the node is two ETag pollers, the users polled only when the config fetch worked |
| Sync.RunningIsServed | internal/app/app.go:135-159 | against a conforming panel, a refresh that succeeds with something new or in sync leaves running the very config and users the panel served, each exactly unless a 304 answered a misled poller |
| Lifecycle.ApplyHousekeeps | internal/app/app.go:95-133 | during an apply a rebuild never has two instances up, a reload at most two, and afterwards the current one is the only one not closed |
| Lifecycle.LivesAre | internal/app/app.go:120-128 | the instances kept book of as open, or up, are exactly those built, or started, and not closed since |
| Lifecycle.PeakIs | internal/app/app.go:120-128 | the peak is the bound on the instances up after each event |
| Lifecycle.CloseCountIs | internal/app/app.go:87-91 | the close count is one exactly if a single event closes the instance |
| Lifecycle.RunHousekeeps | internal/app/app.go:74-194 | the same between the refreshes of every run |
| Lifecycle.ClosedOnceIff | internal/kernel/singbox/singbox.go:91-107 | an instance is closed once if it was built and is not open, and never twice |
| Lifecycle.EveryInstanceClosedOnce | internal/app/app.go:87-91 | when the worker returns every instance has been closed exactly once |
| Worker.NodeWorker.constructor | internal/app/app.go:75-85 | a worker starts with nothing |
| Worker.NodeWorker.ReloadUsers | internal/kernel/singbox/singbox.go:77-108 | builds from the runtime's own config, starts the next instance, then closes the old one |
| Worker.NodeWorker.FullRebuild | internal/app/app.go:115-132 | builds the next instance, closes the old one, then starts the next |
| Worker.NodeWorker.DoApply | internal/app/app.go:95-133 | the closure is the apply the theorems are about |
| Worker.NodeWorker.DoRefresh | internal/app/app.go:135-159 | the closure is the refresh the theorems are about |
| Worker.NodeWorker.Retry | internal/app/app.go:267-287 | stops at the first refresh that succeeds, and only there |
| Worker.NodeWorker.Serve | internal/app/app.go:182-193 | one refresh per pull tick, one report per report tick |
| Worker.NodeWorker.OnTick | internal/app/app.go:183-192 | a pull tick refreshes, its error ignored; a report tick leaves the node as it is |
| Worker.NodeWorker.CloseRuntime | internal/app/app.go:87-91 | closes the runtime there is, if any |
| Worker.NodeWorker.PullConfig | internal/app/app.go:137-145 | the first half of the closure stores the config as the theorems have it |
| Worker.NodeWorker.PullUsers | internal/app/app.go:146-154 | the second half stores the users |
| Worker.NodeWorker.RunNode | internal/app/app.go:74-194 | however it ends, every instance it built has been closed exactly once; it reports a last time with the runtime still open; it meets a nil config exactly if its first successful refresh comes before any config document |
| Routes.ItemSpelled | internal/kernel/singbox/singbox.go:293-303 | an entry means the domain or CIDR it spells, with or without "*." and white space around it; one that spells nothing is dropped |
| Routes.SplitItems | internal/kernel/singbox/singbox.go:292-303 | the inner loop splits a match list into its domains and its CIDRs, in order |
| Routes.CompilePanelRoutes | internal/kernel/singbox/singbox.go:275-312 | the loops compute the compilation the theorems are about, errors included |
| Routes.CompilesIff | internal/kernel/singbox/singbox.go:278-291 | a list compiles exactly if every action, letter case aside, is direct, block, reject, or proxy with a tag |
| Routes.CompileErrorIsFirst | internal/kernel/singbox/singbox.go:284-291 | the error is that of the first offending route: a proxy without a tag, or an action that is none of the four |
| Routes.RouteMeaning | internal/kernel/singbox/singbox.go:292-309 | splitting a route into a domain rule and a CIDR rule and dropping blanks keeps its meaning |
| Routes.CompiledMeaning | internal/kernel/singbox/singbox.go:275-312 | first match over the compiled rules is first match over the source routes |
| Routes.CompilationPreservesMeaning | internal/kernel/singbox/singbox.go:134-158 | with custom rules prepended and direct as the final outbound, the installed rules decide as custom rules, then source routes, then direct |
| Routes.SentByAction | internal/kernel/singbox/singbox.go:278-309 | the first route with a matching item decides: proxy for the outbound it names, direct for direct, block and reject for block; unmatched goes direct |
| Routes.SentByCustom | internal/kernel/singbox/singbox.go:149-158 | the first custom rule that decides does so before any route |
| MieruRoutes.CompileRoutes | internal/kernel/mieru/mieru.go:158-189 | the loops compute the compilation the theorems are about, errors included |
| MieruRoutes.Blocked | internal/kernel/mieru/mieru.go:191-211 | the search returns true exactly if some rule matches |
| MieruRoutes.BlockRuleMeaning | internal/kernel/mieru/mieru.go:168-186 | a compiled rule matches exactly if some item of its route matches |
| MieruRoutes.BlockingExact | internal/kernel/mieru/mieru.go:158-211 | a destination is blocked exactly if some block or reject route has an item that matches it |
| MieruRoutes.DomainEntryBlocks | internal/kernel/mieru/mieru.go:169-203 | a block route with one domain, however spelled, blocks exactly the hosts whose labels end in the domain's, letter case aside; an entry that spells nothing blocks nothing |
| MieruRoutes.CidrEntryBlocks | internal/kernel/mieru/mieru.go:174-208 | one with a CIDR compiles exactly if it parses, and blocks exactly the addresses it contains |
| MieruRoutes.Spellings | internal/kernel/mieru/mieru.go:170 | the spellings of a domain: bare, after "*.", with blanks behind or before |
| MieruRoutes.AcceptsIff | internal/kernel/mieru/mieru.go:160-182 | a list is accepted exactly if every action is direct, block or reject and every CIDR of a block route parses; otherwise the error is that of the first route that offends |
| MieruRoutes.AcceptedByBoth | internal/kernel/mieru/mieru.go:161-167 | sing-box accepts every list mieru accepts |
| MieruRoutes.BackEndsCompared | internal/kernel/mieru/mieru.go:191-211 | sing-box blocks exactly what mieru blocks, unless a direct route matches before any block route does |
| Identity.InboundNames | internal/kernel/singbox/singbox.go:179-223 | one name per user in order: the UUID for socks, http and naive, the printed identifier for the eight others, and no names for a protocol that is none of these |
| Identity.NumericNamesResolve | internal/kernel/singbox/singbox.go:438-443 | names by identifier resolve to their user whatever was applied last |
| Identity.LetterNamesAreSecrets | internal/kernel/singbox/singbox.go:438-443 | a name that begins with neither digit nor sign is looked up as a secret |
| Identity.UuidNamesResolveIff | internal/kernel/singbox/singbox.go:438-443 | names by UUID resolve to their user exactly if the UUID parses as that identifier, or does not parse and is last listed for it |
| Identity.AppliedListResolves | internal/kernel/singbox/singbox.go:179-220 | for the list applied last, with distinct UUIDs that are not numbers, every inbound name resolves to its user |
| Identity.OtherNodesListEvicts | internal/state/store.go:102-105 | one node's apply makes another node's UUID names unresolvable |
| Config.Spoiled | internal/config/config.go:146-154 | an empty or repeated identifier anywhere makes the whole list unacceptable |
| Config.WorkersAre | internal/app/app.go:48-51 | a worker runs for an identifier exactly if some node has it and is not switched off; a node without the flag is on |
| Config.NumericOnesAre | internal/config/config.go:166-173 | the identifiers warned of are those that are all digits |
| Config.AcceptableIff | internal/config/config.go:131-164 | what is asked of a configuration, in its own terms: no two nodes that run share an identifier, none is empty, at least one runs |
| Config.Validate | internal/config/config.go:131-164 | accepts exactly the configurations in which every enabled node has its own nonempty identifier, so one report loop per identifier runs |

## Left out

- Store.Store.Open: asks that the time is no earlier than that of the user's earlier attempts. The source reads a monotonic clock under the shard lock, which makes it so.
- Tracker.RoutedConnection: asks the same for every user, since it does not know beforehand whom the name resolves to; so does `Tracker.Handle`.
- Tracker.Handle: all traffic is transferred between two sweeps; transfers with sweeps in between are in `Runs`.
- Report.DoReport: what connections add while the report is on its way is a list of additions applied before the answer; arbitrary interleavings are in `Runs`.
* Transport, TLS, JSON and YAML, the health server, signals and logging: only the outcome of a fetch or a report is an input.
* sing-box, mieru and protobuf internals: an instance is a record of what it was built from, and whether it builds and starts is an input.
* What `build` reads from the file system for certificates: a build is taken to depend on the configuration and the users only.
* The rate limiter behind `Wait` and the 64 KiB chunks: the limiter library is not part of this model; `Wait` appears in `Locks` for the lock it takes.
* `metrics.go`, `certificate.go`, the inbound field tables, Reality settings and port checks, intervals, retry delays and environment overrides: each is settled by reading one branch.
* CIDR text and address unmapping: which texts parse and which prefixes contain an address are parameters.
* Case mapping outside ASCII: names are lowered letter by letter in the ASCII range, and sing-box's own matching of domain suffixes is the item matcher shared by both back ends.
* 64-bit overflow of byte and connection counters: they are mathematical integers; int64 is kept for identifiers, the shard index and decimal printing.
* References held in maps (`userState`, `usageState`): the maps hold values that are written back, so an entry kept across calls would not be seen to change; the source keeps none.
* The interleaved model and the lock model are separate: in the first a critical section is one step, which the second justifies by exclusion (`Locks.WritersExclude`) but is not composed with. The interleaved model has no address tables: admission there only asks that the user was listed, and the device limit is proved on the class.
* The 100 ms drain between a reload's swap and the close of the old instance, and the context passed to Start: time between steps is not modelled.
* Custom outbounds, and custom rules beyond their order: a custom rule decides by an arbitrary function of its text.
* Several nodes in one `Worker`: each worker is modelled alone, with the users it listed last; what nodes do to each other through the store is in `Store`, `Runs` and `Identity`.
* Liveness: nothing says that a tick, a retry or a waiting goroutine eventually gets its turn.
