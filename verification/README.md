# motzworks in Dafny

motzworks scans networks and keeps an inventory of the devices it finds: it expands address specs, probes
hosts, asks collectors about them, and upserts what they report into PostgreSQL. This project models the
parts whose correctness is not visible from one function body, and proves what they promise.

* **Identity, upsert and timeline.** `Inventory` holds the data model: the tables, the two partial unique
  indexes, and the meaning of every statement; `Resolution` says in columns what a report is taken for.
  `DeviceStore` is the upsert as the program executes it, one statement after another on tables it updates,
  with rollback. `UpsertLaws` proves what one upsert keeps, `Timeline` what whole runs keep, and
  `Transactions` what survives when upserts interleave statement by statement; `StaleSnapshot` is an
  interleaving in which the timeline breaks. `SerialRefinement` shows that transactions left alone are a run
  of the one-step upsert, and that every reachable database is the row-by-row form of consistent tables.
  `DeviceDetail` proves that the detail page shows what was reported.
* **Worker pool.** `WorkerPool` is a transition system over every schedule of parent, workers and canceller.
* **Discovery.** `Discovery` expands specs, `RateLimiter` is the token bucket, `Fingerprint` and `HostMerge`
  classify and merge hosts.
* **Engine.** `Engine` processes one host against the store, ties the engine to the timeline, and accounts
  for a whole scan on every schedule of the pool.
* **Scheduler and migrations.** `Schedules` holds the schedule tables and the log of advances and scans;
  `Scheduler` and `Migrations` are state machines over time and crashes.
* **Parsers and overview.** `NixPackages` and `LinuxInterfaces` parse collector output; `SoftwareRollup` is
  the paged software overview. `Arithmetic`, `Connection`, `Sequences`, `Sorting` and `Wrappers` are shared.

A query with `LIMIT 1` and no order may return any candidate, a UUID is any id no device has, the clock and
every failure are parameters, and a connection may break before any statement, including on a commit that
has already taken effect.

## What turned out to be conditional

Some promises hold only under a condition; each condition is proved in both directions, with an instance
that fails.

* A unique index refuses an upsert exactly when serial and AD GUID belong to two different devices
  (`UniqueViolationIffSplit`; instance `SplitIdentityExample`).
* Repeating an upsert is a no-op exactly when the children were collected or the report brings no OS that
  was not stored (`UpsertIdempotentIff`; instance `RepeatedOsExample`).
* One update's events replay to the stored value of a field exactly under `Faithful`: an empty type, or a
  blank OS name or version, is written without an event (`ReplayOneUpdateIff`; instances
  `BlankKindIsNotLogged`, `BlankOsNameIsNotLogged`). So over a serial run a device's events replay in every
  state exactly when every commit about it was faithful (`TimelinesIff`). The engine never sends an empty type.
* Between interleaved transactions a device's events replay, in every state from its insertion on, exactly
  when no commit about it reports a field that moved since its snapshot, nor blanks its type
  (`InterleavedTimelinesIff`; instance `StaleSnapshotExample`). Where the device's own upserts do not overlap
  between read and commit, only blanking matters (`UndisturbedTimelinesIff`). For the engine, which always
  sends a type, the condition is on the snapshots alone (`EngineInterleavedTimelinesIff`).
* A range is finite exactly when both ends have the same zone (`RangeEndsIffSameZone`; instance
  `MixedZonesExample`). The comment on `Expand` says IPv6 ranges are unsupported; the code accepts them, and
  the model follows the code.
* The limiter stays within one extra token a second, over every number of seconds, exactly when
  `10^9 mod perSec < 10^9 div perSec` (`RateBoundIff`; instance `HugeRateOvershoots`); rates above 10^9 make
  the ticker panic (`NewLimiter`).
* The scheduler starts a scan whose advance found no row exactly when the UPDATE was answered, the entry has
  addresses, and another session dropped the target after the snapshot's statement and no later than before
  that UPDATE (`ScanWithoutAdvanceIff`; instance `ScanOfDeletedTarget`). An UPDATE that takes effect although
  its reply is lost costs the schedule its turn without a scan (`DueAfterTickIff`; instance `LostReplyExample`).
* An advance keeps advances an interval apart exactly when it changes nothing or the schedule's time has come
  again (`AdvanceKeepsGoodIff`; instance `EarlyAdvanceExample`); the scheduler asks for no other.
* A Nix store path gives its package back exactly when no dash inside the name starts a possible version
  and the version does not end in an output name (`RoundTripIff`; instances `AmbiguousNameExample`,
  `OutputLikeVersionExample`).
* A requested page size above 1000 falls back to 200: a reader who steps by the size he asks for sees every
  row exactly when that is at most 1000 or the overview has at most 200 rows (`SteppingReachesAllIff`;
  instance `OversizedLimitExample`).

Two things a reader of the code may not expect:

* The upsert of a related VM counts as collected but brings no children, so it clears those the VM had
  (`RelatedClearsChildren`; instance `RelatedClearsExample`).
* The comment on `mergeDevice` says the discovered IP is preserved; in the code, and here, it is so exactly
  when the collector brings no other valid IP (`MergeDevice`).

## Model

| member | source | states |
|---|---|---|
| DeviceStore.Store.ResolveDevice | internal/store/devices.go:113-172 | the result is some candidate of the first identity level that has any, with a snapshot of that device's scalars; on a healthy connection it fails exactly when a level it reaches has a parameter the column type rejects |
| DeviceStore.Store.DiffDevice | internal/store/devices.go:176-196 | the appended changes are `Diff`, whose events are proved to replay (`Timeline.DiffReplays`) |
| DeviceStore.Store.WriteDevice | internal/store/devices.go:54-86 | writes exactly the new or overlaid row, or nothing with the reason: a bad value or a unique index |
| DeviceStore.Store.InsertInterfaces | internal/store/devices.go:208-217 | the loop of inserts leaves exactly the reported interfaces as rows, in order, or stops at one the columns reject |
| DeviceStore.Store.InsertSoftware | internal/store/devices.go:247-255 | leaves exactly the reported software as rows, in order |
| DeviceStore.Store.InsertUsers | internal/store/devices.go:257-265 | leaves exactly the reported users as rows, in order |
| DeviceStore.Store.PutOsAndHardware | internal/store/devices.go:219-245 | the side rows are replaced by what is reported and kept when nothing is |
| DeviceStore.Store.RewriteChildren | internal/store/devices.go:201-267 | clear-then-insert equals replacing the device's rows in one step; no other device's rows move |
| DeviceStore.Store.LogChanges | internal/store/devices.go:94-102 | one event per change is appended, in order |
| DeviceStore.Store.Statements | internal/store/devices.go:46-102 | the statements of the transaction together are one specified step from the tables before |
| DeviceStore.Store.UpsertDevice | internal/store/devices.go:39-108 | success commits exactly the specified tables and returns the id and changes; failure leaves every table unchanged, or all of the commit when the connection broke on a commit that had taken effect |
| DeviceStore.Store.CreateRelationship | internal/store/devices.go:271-281 | one statement links two different devices; an existing link and a device with itself change nothing |
| Inventory.MacsOf | internal/store/devices.go:289-308 | the identifying MACs are exactly those reported that parse and are not locally administered |
| Resolution.ResolvesToIff | internal/store/devices.go:111-155 | a report is taken for a device with its serial if any device has it, else with its AD GUID, else with a universal MAC of one of its interfaces, else with its hostname up to case, else with its address, else for a new one; said in columns |
| Resolution.ResolvesToNoneIff | internal/store/devices.go:132-155 | it becomes a new device if and only if no stored device shares any of these with it |
| Resolution.ResolveFailsIff | internal/store/devices.go:132-155 | resolution fails if and only if it comes to compare a MAC that is not of six octets or an address with a zone |
| Resolution.LowerFoldsCase | internal/store/devices.go:137-137 | two hostnames are the same if and only if they differ in the case of ASCII letters only |
| Resolution.IdentityMacIff | internal/store/devices.go:300-308 | a MAC identifies a device if and only if it parses and its locally administered bit is clear |
| Resolution.MovedLeaseExample | internal/store/devices.go:132-155 | instance: a laptop that reports the address a printer has in the store is still the laptop |
| UpsertLaws.TargetExists | internal/store/devices.go:133-155 | a resolved id is a stored device, whichever level found it |
| UpsertLaws.ConflictMeansSplit | internal/store/devices.go:54-86 | a row can only collide with another device's serial or AD GUID when the report names two devices |
| UpsertLaws.UniqueViolationIffSplit | internal/store/devices.go:54-86 | an upsert violates a unique index if and only if its serial resolves to one device and its AD GUID to another; matches by MAC, hostname or IP, and inserts, never do |
| UpsertLaws.SplitIdentityExample | internal/store/devices.go:54-86 | instance: the serial of one stored device with the AD GUID of another is refused |
| UpsertLaws.UpsertKeepsConsistent | internal/store/migrations/0001_init.sql:22-23 | uniqueness and referential integrity survive every committed upsert |
| UpsertLaws.ReportedKeysAreStored | internal/store/devices.go:69-82 | every reported key and address is in the written row |
| UpsertLaws.WrittenColumns | internal/store/devices.go:54-86 | every column of the written row: a reported value, or else what was there; a known type is not made unknown; the clock columns |
| UpsertLaws.AcceptedIff | internal/store/devices.go:46-102 | the writes are accepted if and only if the address has no zone, no other device holds a reported key, and the columns hold every collected value |
| UpsertLaws.LoggedRows | internal/store/devices.go:94-102 | the log gains one row per change, about the written device and naming the scan run or NULL |
| UpsertLaws.StoredReport | internal/store/devices.go:201-267 | a collected report's interfaces, software, users, OS and hardware are in the rows one for one and column by column; a blank or a 0 is NULL |
| UpsertLaws.UnreportedSidesStay | internal/store/devices.go:219-245 | an OS or hardware record stays when the report brings none |
| UpsertLaws.KeyPromotion | internal/store/devices.go:132-151 | after a match at one level every stronger key the device carries leads to that device only (MACs when collected), and a serial or AD GUID does so after a match at any level |
| UpsertLaws.ResolvesAgain | internal/store/devices.go:132-151 | a device with serial or AD GUID resolves again to the same id, whatever the database picks |
| UpsertLaws.NothingToReportIff | internal/store/devices.go:176-196 | the same report differs from what it stored exactly when it carries an OS that was not collected and is not stored |
| UpsertLaws.ChildrenStay | internal/store/devices.go:201-267 | rewriting the children a report just wrote changes no row value |
| UpsertLaws.SecondWrite | internal/store/devices.go:69-86 | the repeated write is accepted and moves only the clock columns |
| UpsertLaws.UpsertIdempotentIff | internal/store/devices.go:39-108 | repeating an upsert resolves to the same device and succeeds; it reports nothing and moves only the clock columns if and only if the children were collected or the OS was none or stored |
| UpsertLaws.RepeatedOsExample | internal/store/devices.go:88-92 | instance: an OS reported with nothing collected is reported as a change again |
| Timeline.DiffIsDiffOver | internal/store/devices.go:183-194 | the diff is the field-by-field comparison of report and snapshot, in field order |
| Timeline.DiffReplays | internal/store/devices.go:176-196 | a diff's events are genuine and lead from the old scalars to the merged ones |
| Timeline.SnapshotReplayIff | internal/store/devices.go:157-196 | a diff against an old snapshot replays to what the overlay stores if and only if no reported field moved in between |
| Timeline.ReplayOneUpdateIff | internal/store/devices.go:66-102 | one update's events give a field's stored value if and only if the update is faithful in that field |
| Timeline.RunIsConsistent | internal/store/devices.go:39-108 | every state of every run of upserts satisfies the schema's constraints |
| Timeline.StepExtendsTimelineIff | internal/store/devices.go:66-102 | the events a commit appends about a device lead from its scalars before to those after if and only if the commit is about another device or faithful |
| Timeline.TimelinesIff | internal/store/devices.go:66-102 | over any serial run a device's events replay from its values at insertion to its stored ones, in every state, if and only if every commit about it was faithful |
| Timeline.TimelineReplays | internal/store/devices.go:66-102 | so when what is sent is faithful call by call: each old value is the value just before, old differs from new, and the replay gives the stored scalars |
| Timeline.BirthHasNoEvents | internal/store/devices.go:54-64 | an inserted device starts with an empty timeline |
| Timeline.BlankKindIsNotLogged | internal/store/devices.go:71-71 | instance: an empty type overwrites a stored one without an event |
| Timeline.BlankOsNameIsNotLogged | internal/store/devices.go:219-231 | instance: a blank OS name overwrites a stored one with NULL without an event |
| Timeline.RunGrows | internal/store/devices.go:69-92 | over any run no device disappears, no set scalar becomes NULL, no known type reverts to unknown, no OS or hardware row and no event is lost |
| Timeline.OsEventsAreStored | internal/store/devices.go:219-231 | every OS event of a collected upsert has its new value in os_info by the same commit |
| Transactions.Script | internal/store/devices.go:201-267 | the child statements are three deletes and then inserts only |
| Transactions.StepKeepsInv | internal/store/devices.go:39-108 | every statement of every open transaction keeps the invariant: uncommitted rows overlay the committed ones, writers hold different devices and keys, uncommitted child work is exactly the script so far |
| Transactions.RunInv | internal/store/devices.go:39-108 | the invariant holds in every state of every interleaving |
| Transactions.WriterMoves | internal/store/devices.go:88-108 | a transaction that has written its device row can always go on, to its next statement or its commit, unless a column rejects what was collected |
| Transactions.OneDevicePerKey | internal/store/migrations/0001_init.sql:22-23 | on every interleaving every committed state has at most one device per serial and per AD GUID |
| Transactions.ChildrenAreNeverMixed | internal/store/devices.go:88-92 | on every interleaving a device's interface, software and user rows are exactly those its last committed collecting upsert inserted |
| Transactions.NothingIsErased | internal/store/devices.go:67-80 | on every interleaving no committed scalar becomes NULL and no device, side row or event is lost |
| Transactions.CommitOverlaysCurrentRow | internal/store/devices.go:69-86 | no lost update: a commit installs the overlay of the row committed at that moment |
| Transactions.InterleavedTimelineIff | internal/store/devices.go:66-102 | a commit's events replay over the row it replaces to the row it installs if and only if no reported field moved since the snapshot and a set type is not blanked |
| Transactions.InterleavedTimelinesIff | internal/store/devices.go:66-102 | on every interleaving, from a device's insertion to any later state, its committed events replay from its row at insertion to its current row in every state if and only if every commit about it meets that condition |
| Transactions.UndisturbedIsUnmoved | internal/store/devices.go:39-108 | a commit reports nothing that moved since its snapshot when no other commit about its device falls between its read of the row and itself |
| Transactions.UndisturbedTimelinesIff | internal/store/devices.go:39-108 | when no other commit about a device falls between a transaction's read of its row and its commit, its events replay in every state if and only if no commit blanks its type, however else the transactions interleave |
| StaleSnapshot.StaleSnapshotExample | internal/store/devices.go:157-196 | instance: an interleaving of three transactions, two of which read the same row, whose last commit logs an event that is not genuine |
| SerialRefinement.HitsAreCandidates | internal/store/devices.go:133-151 | every identity query finds the same devices among single rows as in the per-device tables |
| SerialRefinement.ScriptIs | internal/store/devices.go:201-267 | statement by statement: which table is cleared, which row inserted, which side row written |
| SerialRefinement.CommitRefines | internal/store/devices.go:39-108 | a transaction whose reads and writes saw one database commits a result of the one-step upsert: same resolution, row, changes, side rows and children in order |
| SerialRefinement.SerialRunRefinesUpsert | internal/store/devices.go:39-108 | from any state and any tables it represents, so does a transaction whose statements run without another's in between |
| SerialRefinement.EveryStateHasAView | internal/store/devices.go:39-108 | on every interleaving every committed database represents some tables that satisfy the schema's constraints |
| SerialRefinement.SerialIsRun | internal/store/devices.go:39-108 | an interleaving whose transactions run one after another, rolled back or not, is a run of the one-step upsert with the calls begun, state by state |
| SerialRefinement.SerialTimelineReplays | internal/store/devices.go:66-102 | so in such an interleaving a device's committed events replay from its scalars at insertion to those of any later committed database |
| DeviceDetail.PageColumns | internal/store/queries.go:148-161 | there is a page if and only if the device is stored, and it shows the device's own columns |
| DeviceDetail.CollectedChildrenAreShown | internal/store/queries.go:191-249 | after a collected upsert the detail page lists exactly the reported children, each field where it belongs: interfaces by name with the unnamed last, software by lower-cased name, users by name |
| DeviceDetail.LastCollectedReportIsShown | internal/store/queries.go:158-249 | the page lists the children, OS and hardware of the device's last collected report, however many uncollected passes and other devices' upserts came since |
| DeviceDetail.LastReportedScalarIsShown | internal/store/queries.go:143-156 | the page shows the last reported hostname, address, serial and type, however many reports without one came since |
| DeviceDetail.OtherPagesStay | internal/store/queries.go:143-190 | no upsert touches the page of another device |
| WorkerPool.StepKeepsInv | internal/worker/pool.go:30-46 | every step of parent, worker or canceller keeps the counts of tokens and waiters, the cut, and each slot's state |
| WorkerPool.BoundedConcurrency | internal/worker/pool.go:23-27 | on every schedule at most `concurrency` (at least one) jobs run at once, and no slot is written twice |
| WorkerPool.ReturnsCleanCut | internal/worker/pool.go:30-46 | on return there is an index below which exactly the jobs ran and hold their own outcomes, and from which every slot holds the context error; each slot was written once |
| WorkerPool.AtMostOneLateLaunch | internal/worker/pool.go:31-36 | after cancellation at most one more job is launched, and only if the parent was already past its check |
| WorkerPool.OutcomesAreTheJobs | internal/worker/pool.go:37-42 | what worker i recorded is job i's outcome |
| WorkerPool.ReturnsAreOutcomes | internal/worker/pool.go:37-42 | on every schedule the returns so far that satisfy a property are as many as the recorded outcomes that do, so each job returns at most once |
| WorkerPool.SameAsSequentialMap | internal/worker/pool.go:19-47 | without cancellation every schedule ends with the array a sequential map over the jobs would build |
| WorkerPool.NeverStuck | internal/worker/pool.go:35-45 | every state that has not returned has an enabled step other than cancelling |
| WorkerPool.StepDecreasesMeasure | internal/worker/pool.go:30-46 | every step decreases a measure over jobs, tokens and waiters |
| WorkerPool.AlwaysTerminates | internal/worker/pool.go:22-47 | every schedule has at most 9 * jobs + 3 steps, and one that cannot go on has returned |
| Discovery.LimitIsPow2 | internal/discovery/discovery.go:93-96 | each family has 2^width addresses |
| Discovery.Base | internal/discovery/discovery.go:93-93 | masking gives an address of the same family whose whole block fits into the address space, up to its last address |
| Discovery.ContainsIffInBlock | internal/discovery/discovery.go:94-94 | a CIDR contains exactly the contiguous block of 2^(width-p) addresses from its masked base |
| Discovery.ContainsIffSameLeadingBits | internal/discovery/discovery.go:93-94 | a CIDR contains exactly the addresses of its family, without a zone, whose leading bits are its own, as many as its prefix is long |
| Discovery.CidrDenotes | internal/discovery/discovery.go:93-96 | it expands to two to the number of its host bits addresses, ascending, and exactly those |
| Discovery.Slash24Example | internal/discovery/discovery.go:93-96 | instance: 10.0.0.0/24 is 10.0.0.0 to 10.0.0.255 |
| Discovery.RangeAcceptedIff | internal/discovery/discovery.go:129-131 | a range is accepted if and only if its ends are of one family and in order, by value and then by zone |
| Discovery.DenoteCovers | internal/discovery/discovery.go:87-114 | the enumeration of a spec holds exactly the addresses the spec covers |
| Discovery.ExpansionIsUnion | internal/discovery/discovery.go:71-117 | the expansion holds exactly the union of what its specs cover |
| Discovery.NthNextIs | internal/discovery/discovery.go:102-107 | stepping n times leads n addresses on in the same zone, or off the end of the family |
| Discovery.RangeEndsIffSameZone | internal/discovery/discovery.go:102-133 | the loop over an accepted range meets its end if and only if both ends share a zone |
| Discovery.MixedZonesExample | internal/discovery/discovery.go:102-107 | instance: an accepted range between two zones whose loop never meets its end |
| Discovery.AddressList.Add | internal/discovery/discovery.go:74-80 | the list stays the first-occurrence deduplication of everything added |
| Discovery.AddressList.AddPrefix | internal/discovery/discovery.go:94-96 | the CIDR loop ends, also at the top of the address space, and adds the whole block in order |
| Discovery.AddressList.AddRange | internal/discovery/discovery.go:102-107 | the range loop ends and adds every address from first to last in order |
| Discovery.Expand | internal/discovery/discovery.go:71-117 | returns the distinct addresses of all specs in order of first occurrence, or the first spec that is refused or would loop for ever |
| Sequences.DistinctIsFirstOccurrences | internal/discovery/discovery.go:72-80 | the deduplication has no duplicates and keeps the order of first occurrence |
| RateLimiter.Limiter.OnTick | internal/discovery/discovery.go:193-203 | a tick extends the trace; the bucket stays what the trace makes of an empty one and within the channel's capacity |
| RateLimiter.Limiter.Wait | internal/discovery/discovery.go:208-216 | a waiter takes one token, which extends the trace, or none when its context is done |
| RateLimiter.TokensAreConserved | internal/discovery/discovery.go:189-216 | ticks = taken + in the bucket + dropped, the bucket never exceeds perSec, and any window takes at most perSec plus its ticks |
| RateLimiter.DroppedIffFull | internal/discovery/discovery.go:197-203 | a tick is dropped if and only if the bucket is full, and otherwise adds one token |
| RateLimiter.NewLimiter | internal/discovery/discovery.go:185-191 | no limiter if and only if the rate is not positive, a panic if and only if it exceeds 10^9, and else the longest interval that fits perSec times into a second |
| RateLimiter.ExtraTicksIff | internal/discovery/discovery.go:191-191 | the floor in the interval lets at most one extra tick a second fit, over any number of seconds, if and only if the remainder is below the interval |
| RateLimiter.SmallRatesAreClose | internal/discovery/discovery.go:191-191 | that holds whenever perSec squared is at most 10^9 |
| RateLimiter.HugeRateOvershoots | internal/discovery/discovery.go:191-191 | instance: at 600 million a second a billion ticks fit into the first second |
| RateLimiter.RateBound | internal/discovery/discovery.go:177-216 | for such rates every trace whose tick k never comes before k intervals takes at most s * perSec + s - 1 tokens in the first s seconds |
| RateLimiter.RateBoundIff | internal/discovery/discovery.go:177-216 | that holds for every trace and every number of seconds if and only if the remainder is below the interval |
| Fingerprint.ClassificationIsFirstRule | internal/fingerprint/fingerprint.go:19-44 | the class is that of the first rule some open port selects, so order and repetition of ports do not matter |
| Fingerprint.FirstRuleIsUnique | internal/fingerprint/fingerprint.go:22-43 | a set of ports has one first rule |
| Fingerprint.ClassToType | internal/fingerprint/fingerprint.go:48-65 | the type is never empty, and "unknown" only for the unknown class |
| Fingerprint.TypeIsFirstRule | internal/fingerprint/fingerprint.go:19-65 | the type a host is first stored with is the one its first rule leads to |
| Fingerprint.TypesAreDistinct | internal/fingerprint/fingerprint.go:48-65 | no two classes have one type |
| Fingerprint.TypesWithoutPorts | internal/fingerprint/fingerprint.go:53-60 | the types of the classes that no port leads to |
| HostMerge.MergeHosts | internal/scan/engine.go:217-245 | the address map and the order list end as one host per distinct address with that address's ports |
| HostMerge.MergedAddresses | internal/scan/engine.go:219-243 | each address comes out once, in order of first occurrence |
| HostMerge.PortsAreTheUnion | internal/scan/engine.go:222-229 | a merged host has exactly the ports some host of its address had |
| HostMerge.MergedRuleIsTheLeast | internal/scan/engine.go:84-84 | classification commutes with the merge: a merged host's rule is the least of its parts' rules |
| Engine.BuildVms | internal/collector/proxmox/parse.go:74-96 | the related devices are the named VMs in order |
| Engine.Related | internal/collector/proxmox/parse.go:85-93 | every related device has type "vm" and no OS |
| Engine.RelatedAreTheNamed | internal/collector/proxmox/parse.go:80-95 | they are exactly the VMs with a name, each once and in order, with its name and, if there are any, its figures |
| Engine.MergeDevice | internal/scan/engine.go:202-213 | the discovered address is kept if and only if the collector brings no other valid one; a collector's known type and source win over the base's; every other field is the collector's; the type is never empty |
| Engine.Answer | internal/scan/engine.go:137-155 | the answer used is that of the first collector that gathered something, and there is none exactly when none did |
| Engine.ComplaintsAreTheFailures | internal/scan/engine.go:137-147 | the complaints are those of exactly the failed collectors, in order, each with the collector's name |
| Engine.JoinOneMore | internal/scan/engine.go:156-156 | joined with "; " between them |
| Engine.Collect | internal/scan/engine.go:135-156 | everything the first answer gathered is in the device, with address, type and source from discovery where it has none; it also forgets earlier failures; without an answer the device is the base, and the error joins the failed collectors' messages, skipping those without a credential |
| Engine.HostCall | internal/scan/engine.go:128-159 | what the engine asks the store for is collected if and only if a collector gathered something, and then brings all the first one gathered, and else the address, the type by ports and nothing more; it has a type, and an OS only when collected |
| Engine.ScanEngine.Send | internal/scan/engine.go:159-163 | every upsert the engine asks for extends the run by one state: a commit of that call, or the same tables |
| Engine.ScanEngine.Persist | internal/scan/engine.go:158-167 | one upsert is asked for, and one event is reported that carries the store's reply |
| Engine.RelatedCallsAreTheNamed | internal/scan/engine.go:169-175 | the upserts of the VMs are one for each VM with a name, in order, counted as collected and within the scan run |
| Engine.ScanEngine.StoreRelated | internal/scan/engine.go:169-179 | one collected upsert per VM is asked for, in order, whatever fails; exactly the VMs that were stored are linked to the host, as far as the link statements succeed |
| Engine.ScanEngine.ProcessHost | internal/scan/engine.go:124-181 | exactly one event per host; the first upsert asked for brings what was gathered; then, only if it succeeded, come its VMs'; the VMs stored are linked to the host; the result carries the store's reply and the collector used, or else the complaints |
| Engine.EventTells | internal/scan/engine.go:184-200 | the reported status: "failed" if the store failed, else "collected" if a collector answered, else "failed" if one complained, else "discovered" |
| Engine.EngineTimeline | internal/scan/engine.go:124-181 | over any serial run of engine upserts the timeline of hostname, IP, serial and type replays to the stored values |
| Engine.EngineInterleavedTimelinesIff | internal/scan/engine.go:102-181 | between interleaved upserts of the engine the timeline of a device replays in every state if and only if no commit about it reports a field that moved since its snapshot |
| Engine.EngineOsEventsAreStored | internal/scan/engine.go:129-159 | every OS event the engine causes has its new value in os_info by the same commit |
| Engine.RelatedClearsExample | internal/scan/engine.go:171-171 | instance: a host scanned on its own loses its interface when its hypervisor lists a VM of that name |
| Engine.Summarize | internal/scan/engine.go:104-114 | hosts are all results, collected and persisted count exactly the results that qualify |
| Engine.OutcomesAreHosts | internal/scan/engine.go:95-102 | on every schedule what worker i recorded is a possible outcome of processing host i |
| Engine.OutcomeSettles | internal/scan/engine.go:158-167 | a processed host is either stored or failed, never both, and its result carries its address |
| Engine.ScanAccounting | internal/scan/engine.go:95-114 | on every schedule, cancelled or not, each launched host returns once and so reports one event, the collected count equals the number of returns whose event has status "collected", and collected <= persisted <= launched <= discovered |
| Schedules.ConsecutiveAdvances | internal/store/targets.go:198-203 | consecutive advances of one schedule, whether or not they still found a row, are at least its interval apart |
| Schedules.AdvancesAreSpaced | internal/store/targets.go:198-203 | so are any two, when intervals are not negative |
| Schedules.ScansAreSpaced | internal/scheduler/scheduler.go:76-99 | two scans of a schedule never overlap, each directly follows its own advance, and those advances are at least the interval apart |
| Schedules.SnapshotIff | internal/store/targets.go:175-195 | the snapshot lists a schedule if and only if it is enabled, its target is, and its time, if it has one, has come; with its target, interval and addresses |
| Scheduler.Scheduler.CreateSchedule | internal/store/targets.go:136-144 | a new schedule of an existing target is due at once, when both are enabled; an unknown target or an interval beyond its column is refused |
| Scheduler.Scheduler.DeleteScanTarget | internal/store/targets.go:61-65 | deleting a target deletes exactly its schedules with it |
| Scheduler.Scheduler.DueSchedules | internal/store/targets.go:175-195 | lists exactly the enabled schedules of enabled targets whose time has come, each once, with interval and addresses, whatever other sessions did before |
| Scheduler.Scheduler.AdvanceSchedule | internal/store/targets.go:198-203 | moves the next run of that row, if it is there, to now plus the interval; a failed one changes nothing or, when only its reply is lost, the same |
| Scheduler.AdvanceKeepsGoodIff | internal/store/targets.go:198-203 | it keeps all advances spaced, and the rows told by the log, if and only if it changes nothing or the schedule's time has come again |
| Scheduler.EarlyAdvanceExample | internal/store/targets.go:198-203 | instance: two advances in one second are not spaced |
| Scheduler.Scheduler.RunOne | internal/scheduler/scheduler.go:76-99 | advance first; then, unless that failed, scan when the snapshot had addresses, also when the schedule is gone |
| Scheduler.Scheduler.RunDue | internal/scheduler/scheduler.go:59-100 | a tick handles the due snapshot entry by entry in order, or stops when a query fails; tables, clock and log are a function of the snapshot and of what fails and what other sessions do |
| Scheduler.TickKeepsGood | internal/scheduler/scheduler.go:59-100 | every such tick keeps advances spaced, scans bracketed and the log telling every row; the schedules gone since the snapshot are exactly those whose target another session dropped |
| Scheduler.IdleTick | internal/scheduler/scheduler.go:60-74 | a tick whose queries fail, or that finds nothing due, advances and scans nothing |
| Scheduler.EntryIsLogged | internal/scheduler/scheduler.go:76-99 | what handling an entry logs is part of what the tick logs |
| Scheduler.EntryEvents | internal/scheduler/scheduler.go:76-99 | what an entry logs: its advance if that took effect, and its scan if the advance was answered and there are addresses |
| Scheduler.ScanWithoutAdvanceIff | internal/scheduler/scheduler.go:76-99 | an entry is scanned although its advance found no row if and only if that statement was answered, the entry has addresses, and another session dropped its target between the snapshot's statement and that one |
| Scheduler.ScanOfDeletedTarget | internal/scheduler/scheduler.go:76-99 | instance: the target is deleted after the snapshot and scanned all the same |
| Scheduler.DueAfterTickIff | internal/scheduler/scheduler.go:77-81 | an entry is due at a time after the tick if and only if its target was not dropped meanwhile and its advance took no effect, or its interval has passed by then |
| Scheduler.LostReplyExample | internal/scheduler/scheduler.go:77-81 | instance: an advance whose reply is lost is not followed by a scan, and the schedule is not due again before its interval has passed |
| Scheduler.Scheduler.Run | internal/scheduler/scheduler.go:45-57 | one tick at the start and one per timer tick, each on what its query returned, lead from the old state to the new one; spacing, bracketing and the table told by the log hold throughout |
| Scheduler.DueIsServed | internal/scheduler/scheduler.go:45-99 | every schedule that is due when a tick lists it is advanced during that tick, and then scanned if its target has addresses, as the log of any later state tells, when the two queries and its UPDATE were answered |
| Migrations.ListFiles | internal/store/migrate.go:28-38 | the files are exactly the .sql files of the directory in name order |
| Migrations.MigrationNames | internal/store/migrate.go:35-42 | a migration is a name that ends in .sql, and its version is what comes before |
| Migrations.VersionIsInjective | internal/store/migrate.go:42-42 | a version names one file |
| Migrations.Database.Apply | internal/store/migrate.go:59-65 | script and version row take effect together or not at all |
| Migrations.Database.Migrate | internal/store/migrate.go:19-72 | a completed run is a full pass over the sorted files; an interrupted one stops after some file, having reported what it applied |
| Migrations.PassFromPrefix | internal/store/migrate.go:41-70 | a pass over a database with a prefix in effect applies, and reports, exactly the versions that are missing |
| Migrations.AlwaysAPrefix | internal/store/migrate.go:41-70 | after any sequence of interrupted runs the versions and the scripts in effect are the same prefix of the sorted files |
| Migrations.CompletedRunsAgree | internal/store/migrate.go:19-72 | however often interrupted, a completed run reaches the state of one clean run, with every file in effect once, and a further run applies nothing |
| NixPackages.ParseNixStorePackages | internal/collector/ssh/profile_nixos.go:37-62 | the list is the first-occurrence deduplication of the per-line parse |
| NixPackages.PackagesArePicked | internal/collector/ssh/profile_nixos.go:41-60 | before the deduplication these are the packages of exactly the lines that hold one, each once and in order |
| NixPackages.StorePathIff | internal/collector/ssh/profile_nixos.go:27-49 | a path is a store path if and only if what follows its last slash is a hash of 32 lower-case letters and digits, a dash and something more |
| NixPackages.TrimIs | internal/collector/ssh/profile_nixos.go:42-42 | white space around a line does not matter |
| NixPackages.Alphabets | internal/collector/ssh/profile_nixos.go:28-30 | the characters of hashes and of versions, by code, and the white space that is trimmed |
| NixPackages.FirstSplit | internal/collector/ssh/profile_nixos.go:30-30 | the lazy name ends at the first dash that can start a version |
| NixPackages.KeyIsInjective | internal/collector/ssh/profile_nixos.go:54-54 | the dedup key names one package |
| NixPackages.SplitIff | internal/collector/ssh/profile_nixos.go:30-30 | a printed name comes back if and only if no dash inside it starts a possible version |
| NixPackages.StripOutputIff | internal/collector/ssh/profile_nixos.go:31-53 | the parser shortens a version if and only if the version ends in a dash and an output name |
| NixPackages.RoundTripIff | internal/collector/ssh/profile_nixos.go:28-53 | printing and parsing a store path gives name and version back if and only if the name allows no earlier split and the version does not end in a dash and an output name |
| NixPackages.RoundTripWithOutputIff | internal/collector/ssh/profile_nixos.go:28-53 | with an output suffix any valid version comes back, under the same condition on the name |
| NixPackages.VersionlessRoundTripIff | internal/collector/ssh/profile_nixos.go:50-53 | a path without a version gives the name and an empty version, under the same condition on the name |
| NixPackages.OutputNames | internal/collector/ssh/profile_nixos.go:33-33 | the parser takes off these ten output names and no other |
| NixPackages.PlainNamesAreSafe | internal/collector/ssh/profile_nixos.go:30-30 | a name without a dash directly before a digit meets that condition |
| NixPackages.AmbiguousNameExample | internal/collector/ssh/profile_nixos.go:28-53 | instance: the store path of gtk-3 in version 1.2 comes back under another name |
| NixPackages.OutputLikeVersionExample | internal/collector/ssh/profile_nixos.go:28-53 | instance: the store path of curl in version 1.0-bin does not come back |
| NixPackages.OutputsCollapse | internal/collector/ssh/profile_nixos.go:31-59 | the paths of one package's outputs, in any number and order, collapse to one entry |
| LinuxInterfaces.TokenNamesInterface | internal/collector/ssh/parse.go:128-136 | link and address lines lead to the same interface name, whatever peer suffix and colon they print |
| LinuxInterfaces.ParseIPLink | internal/collector/ssh/parse.go:73-97 | the interfaces are those of the lines that name one other than loopback and have a MAC, in order |
| LinuxInterfaces.LinksArePicked | internal/collector/ssh/parse.go:76-96 | each line that names an interface counts once, in order, and no other line |
| LinuxInterfaces.OtherLinesAreNoLinks | internal/collector/ssh/parse.go:88-94 | a line without an Ethernet address names no interface |
| LinuxInterfaces.LinkRoundTrip | internal/collector/ssh/parse.go:80-94 | a printed link line gives its name and MAC back, unless it is the loopback |
| LinuxInterfaces.ApplyIPAddrs | internal/collector/ssh/parse.go:101-126 | in place: names and MACs stay, an address already there stays, and otherwise the last interface of each name gets the first readable address of that name |
| LinuxInterfaces.AssignedIs | internal/collector/ssh/parse.go:101-126 | an interface that has an address, or that another of its name follows, keeps what it has; else it gets the address of the first line that brings its name one, or none |
| LinuxInterfaces.AddressRoundTrip | internal/collector/ssh/parse.go:108-124 | a printed address line of either family brings its address to the interface it names and to no other |
| LinuxInterfaces.OtherLinesBringNothing | internal/collector/ssh/parse.go:113-120 | a line that is not about an address brings none |
| LinuxInterfaces.FirstAddressIsFirst | internal/collector/ssh/parse.go:118-124 | that address is the one of the first line that brings a readable one |
| SoftwareRollup.RunStoresNoBlankVersion | internal/store/null.go:11-16 | in every state the upserts reach, an empty version is NULL, never '' |
| SoftwareRollup.OrderIsTotal | internal/store/queries.go:276-279 | either sort is a strict total order on titles, for every deterministic collation |
| SoftwareRollup.RowsAreOrdered | internal/store/queries.go:276-279 | the rows shown: the most widespread titles first, and titles of one count, or all when sorted by name, by lower-cased name, name and version, the versionless last |
| SoftwareRollup.ShownIff | internal/store/queries.go:281-290 | a name and version are shown if and only if some device has them and the filter lets the name through |
| SoftwareRollup.ListingIsUnique | internal/store/queries.go:287-292 | the database has no choice: the sorted listing of all titles is unique |
| SoftwareRollup.ListingExists | internal/store/queries.go:287-292 | and it exists |
| SoftwareRollup.PageSize | internal/store/queries.go:270-272 | the effective limit is between 1 and 1000 |
| SoftwareRollup.PageHolds | internal/store/queries.go:270-292 | a page holds the rows from its offset on: as many as asked for up to 1000, and else 200, or as many as there are |
| SoftwareRollup.PagesConcatenate | internal/store/queries.go:287-292 | the pages at offsets 0, L, 2L, ... (L the effective limit) concatenate to the leading rows of the whole overview, none dropped or repeated |
| SoftwareRollup.ShortPageEndsTheOverview | internal/store/queries.go:269-306 | a reader who stops at the first short page has seen the whole overview |
| SoftwareRollup.RowsAreDistinct | internal/store/queries.go:288-290 | no two rows show the same name and version, although NULL is shown as '' |
| SoftwareRollup.SteppingReachesAllIff | internal/store/queries.go:266-292 | a reader who steps by the limit he asks for is shown every row if and only if the limit is at most 1000 or the overview has at most 200 rows |
| SoftwareRollup.OversizedLimitExample | internal/store/queries.go:270-272 | instance: of 201 titles, stepping by 1001 never shows the last |
| SoftwareRollup.CountIsTheDeviceList | internal/store/queries.go:311-337 | a row's device_count is the length of its device list up to that list's limit, and a list not cut off names exactly the counted devices |
| SoftwareRollup.ListedDevices | internal/store/queries.go:311-337 | the list shows devices that have the software, each once with its columns, the latest seen first, up to its limit |

## Left out

- Timeline.TimelinesIff: for serial upserts; for interleaved ones `Transactions.InterleavedTimelinesIff` gives the exact condition.
- Engine.EngineTimeline: the same restriction; `Engine.EngineInterleavedTimelinesIff` is its interleaved form.
- Engine.ScanAccounting: the event counted is the one the engine attempts; whether its insert succeeds does not matter to the program and is not modelled.
- Engine.ScanEngine.ProcessHost: one host at a time; concurrent hosts are the interleavings of `Transactions`.
- Engine.Collect: a collector is an arbitrary reply (a device with its VMs, no credential, or an error); which collectors serve a class is a parameter.
- Schedules.AdvancesAreSpaced: needs intervals that are not negative; with a negative one an advance sets the next run in the past.
- Scheduler.Scheduler.RunDue: a second scheduler on the same database; a UUID that is handed out twice.
- Migrations.ListFiles: the library sort is written as sorted insertion; the SQL inside a migration is its name in the list of effects.
- RateLimiter.RateBound: that tick k never comes before k intervals is an assumption about Go's ticker.
- RateLimiter.Limiter.OnTick: stopping the ticker goroutine, which happens when nobody waits any more.
- Transactions.RunInv: PostgreSQL's lock waiting is the absence of a step and deadlock detection is a rollback at any time; the order of rows within a table.
- Discovery.Expand: the text parsing of addresses and prefixes; specs arrive parsed, and CIDR notation is that of section 3.1 of RFC 4632.
- NixPackages.ParseNixStorePackages: splitting the output into lines; UTF-8 decoding, since a character stands for a byte or a rune alike in these patterns.
- LinuxInterfaces.ApplyIPAddrs: splitting into whitespace-separated fields, and prefix parsing, which is a parameter.
- SoftwareRollup.PagesConcatenate: ILIKE is an arbitrary predicate on names and the collation an arbitrary deterministic one; the store does not change between pages.
- DeviceDetail.CollectedChildrenAreShown: the text of a MAC, and the VLAN and install date, which the page never shows.
- DeviceDetail.LastCollectedReportIsShown: the page is read from one state; the program sends six queries one after another, between which another upsert may commit. So the page's lists may come from different states, each of them as `Transactions.ChildrenAreNeverMixed` says.
- An address is assumed to read back from its column as the text that was written. PostgreSQL prints some IPv6 addresses otherwise than Go (`::102:304` as `::1.2.3.4`); such an address is a change again at every upsert.
- `lower(hostname)` is modelled on the ASCII letters; `created_at` columns and UUID row ids of child rows are not modelled, and values too long or containing NUL are assumed away.
- Parsing of install dates: a parsed day number or none.
- `ListDevices`: its order has no tiebreaker, so its pages are not deterministic; placeholder numbering of `argBuilder`.
- The other parsers of `internal/collector/ssh/parse.go` and of the other collectors, and all collector transports.
- Host probing and jitter in `Discover`, scan-run bookkeeping rows, HTTP API, authentication, vault, metrics, configuration and the web UI.
