# Software inventory: a verified model

The repository is an agent that inventories the programs of a host and a server that keeps the
inventory of a fleet. This project models what makes the two agree, and proves it.

The core is one replication protocol. The agent diffs each collection against the state it last
handed over, pushes the difference as a batch into a bounded on-disk queue, and posts the queue head
first; the server records each batch in a ledger, resolves every item to a catalog row, applies the
operations in order and reconciles full snapshots. Requests and replies may be lost, retried or
delayed without bound, the queue may evict, pushes may fail, and the agent may restart at any point.

- `Wire.dfy`: the records exchanged.
- `Delta.dfy`: the diff, its patch law with the exact condition under which it holds, telescoping
  over histories, and exactness.
- `InventoryTables.dfy`, `Store.dfy`: the catalog, inventory and ledger tables, one ingest
  transaction as a function on them, and the store's methods over mutable tables proved to compute it.
  A *slot* names a place in a host's inventory by identity; every effect is stated slot by slot.
- `Queue.dfy`, `Spool.dfy`: the abstract queue, and the bucket of big-endian byte keys that implements it.
- `Replica.dfy`: how a diff, and a whole history of diffs, acts on the server's rows. The agent tells items
  apart by key, the catalog only by identity, and identity is coarser.
- `Agent.dfy`, `Handlers.dfy`: the agent's loop bodies, the retry loop and the ingest endpoint as methods.
- `Protocol.dfy`, `Convergence.dfy`, `Witnesses.dfy`: everything above as one state machine, its
  invariant, the theorems over whole runs, and concrete runs showing which hypotheses are needed.

Independent parts: `HashCache.dfy` (the hash cache under concurrent calls and file rewrites),
`WorkerPool.dfy` (the process collector's pool), `Plist.dfy` and `Dpkg.dfy` (the two parsers),
`Enrollment.dfy` (the host waterfall), `Fleet.dfy` (config versions, commands and decommissioning, with
the gate in front of every request of an agent) and `Jwt.dfy` (the web tokens).

Uninterpreted functions are parameters: SHA-256 (`sha`), the database's case folding (`lower`), the
MAC and the JSON codec of claims (a `Service`). UUIDs are fresh numbers; a batch's id is the number of
batches its agent produced before it. What the operating system, the network and the scheduler do is
a parameter of a method or a choice of a step.

## What turned out to be false, and exactly when it holds

- **Patch law and telescoping.** Replaying a diff does not always give the new state: items are compared
  with the last state, not with an earlier duplicate of the same key. It does if and only if no key *flaps*
  (`Delta.PatchLaw`); two running copies of one binary flap (`Delta.CopiesOfOneBinaryFlap`). Over a whole
  history the key set always follows (`Delta.TelescopeKeys`), and the values do if and only if every key's
  *standing* item, the last one sent since the key appeared, looks like the last one collected
  (`Delta.TelescopeIff`): a flap heals once a later diff sends the key (`Delta.AFlapHeals`).
- **Rows after a history.** Upserts precede removes and a hashed item's identity is its hash alone, so
  a rename under one hash deletes the row (`Witnesses.RenameLosesTheRow`). The row set follows a diff if
  and only if no identity is handed over between keys (`Replica.RowsFollowIff`, `Replica.OneHandoverIff`).
  Given injective identities, the paths and owners shown follow a diff if and only if for every key the last
  item sent looks like the last item collected (`Replica.ValuesFollowIff`), and a history if and only if
  every standing item does (`Replica.ValuesTellIff`).
- **Convergence.** In a run whose pushes never evict a batch that a live request carries, with an empty
  spool and nothing lost since the restart, the server's rows mirror the agent's state if and only if the
  collections since the restart *tell* it: what their history leaves in each slot is faithful to the state.
  Nothing is assumed of what was collected (`Convergence.ConvergesIff`). If no collection hands an identity
  over between keys, the rows are exactly the agent's identities (`Convergence.Converges`); that hypothesis
  is needed, by the rename above, and so are the safe pushes, by the late copy below.
- **Full snapshots.** A source with no item in the snapshot keeps its rows
  (`Witnesses.EmptySnapshotKeepsRows`); the rows match the snapshot if and only if it has an item of the
  source or there was no row (`InventoryTables.SnapshotMatchesIff`).
- **Order of effect.** The package comment of the spool says replays are safe because ingest is
  idempotent. That covers repeated copies, but not a copy of an *evicted* batch that the server handles
  after later batches: it can undo a newer snapshot (`Witnesses.LateCopyUndoesASnapshot`). From a state in
  which every live request's batch is still queued and batches took effect in order, a step evicts no
  batch that a live request carries if and only if every continuation that evicts none keeps the order
  (`Convergence.OrderIff`). Runs of such steps are what the convergence theorems are about.
- **Hash cache.** Every hash returned for a path is right in every run from a fresh cache if and only if
  its history is *honest* (`HashCache.CacheRightIff`). When inode lookups may fail, this is about size and
  mtime: no version shares them with a later one while a version from the former on, before the latter,
  hashes unlike the latter (`HashCache.HonestWithoutInodes`). When they do not, the inodes that the two
  calls read, possibly at still later versions, must agree as well. Distinct size or mtime is enough
  (`HashCache.CacheLinearizable`). Without any race, a second call is wrong if and only if both versions
  agree on size, mtime and inode and hash differently (`HashCache.StaleIff`); a file that is rewritten while
  it is hashed and then put back is misread (`HashCache.RestoredFileIsMisread`).
- **Enrollment.** It can fail, for a fresh certificate, if and only if the facts carry an empty serial
  number, some host has the empty serial, and that host is not the only one the waterfall finds
  (`Enrollment.ClashIff`); of two hosts with nothing else in common that report an empty serial, the
  second cannot enroll (`Enrollment.SecondEmptySerialFails`).

## Model

| member | source | states |
|---|---|---|
| Delta.Diff | internal/agent/delta/delta.go:37-69 | the loops return the upserts of new or observably changed items in collection order, then one remove per departed key in any order, and the map of last items |
| Delta.RemoveDeltas | internal/agent/delta/delta.go:59-66 | the second loop emits exactly one remove for each key of the last state that is no longer collected |
| Delta.ReplayDiff | internal/agent/delta/delta.go:41-66 | at every key, what replaying a diff on any map with the last state's keys leaves: untouched, the moved item, or the final item |
| Delta.PatchLaw | internal/agent/delta/delta.go:37-69 | replaying a diff on any map observably equal to the last state gives the new key set always, and the new state up to observation iff no key flaps |
| Delta.ConsistentDuplicatesNeverFlap | internal/agent/delta/delta.go:41-57 | if items sharing a key are observably equal, no key flaps |
| Delta.CopiesOfOneBinaryFlap | internal/agent/delta/delta.go:41-57 | a concrete collection of two copies of one binary for which the patch law fails |
| Delta.PatchFromEmpty | internal/agent/delta/delta.go:41-50 | a diff from the empty state patches exactly, up to the operation field, whatever the duplicates |
| Delta.DiffFromEmpty | internal/agent/delta/delta.go:41-50 | a diff from the empty state sends every collected item, in order |
| Delta.TelescopeKeys | cmd/agent/main.go:183-194 | replaying all diffs of any history of collections from nothing gives the final key set |
| Delta.TelescopeIff | cmd/agent/main.go:183-194 | and gives the final state up to observation iff every key's last item sent since it appeared looks like the last one collected |
| Delta.NoFlapsSettle | cmd/agent/main.go:183-194 | a history in which no step flaps meets that condition |
| Delta.AFlapHeals | internal/agent/delta/delta.go:41-57 | a concrete history that flaps at its second step, fails the condition then, and meets it after a third |
| Delta.DiffExact | internal/agent/delta/delta.go:41-66 | with distinct keys: at most one operation per key, upsert iff new or changed, remove iff gone, upserts before removes, empty iff the states agree |
| Delta.SameKeyIff | internal/agent/delta/delta.go:21-33 | two items share a key iff they agree on source, name, publisher, version and hash, nil reading as the empty string |
| Delta.DiffCarriesFields | internal/agent/delta/delta.go:41-92 | with distinct keys, the replayed diff holds for every collected item one with its version, path, owner, signed mark and signer |
| Delta.DiffSendsChanges | internal/agent/delta/delta.go:41-92 | what is sent is exactly the collected items of which the last state holds none with those five fields, and the items whose key is gone, with nothing but the operation altered; so nothing is sent iff nothing changed |
| InventoryTables.ResolveSound | internal/server/store/ingest.go:111-161 | resolving an item keeps catalog identities unique, finds the item's identity under the returned id, and moves no other identity |
| InventoryTables.ApplyDeltaSound | internal/server/store/ingest.go:55-91 | one operation changes exactly the slot of its host, source and identity |
| InventoryTables.SeenSound | internal/server/store/ingest.go:42-91 | the ids collected per source are exactly those the batch's upserts' identities resolve to |
| InventoryTables.IngestSound | internal/server/store/ingest.go:24-108 | an accepted batch changes exactly its host's slots, each by the batch's last operation there or by reconciliation, and keeps all table invariants |
| InventoryTables.SnapshotStabilises | internal/server/store/ingest.go:93-104 | from any tables, an all-upsert full snapshot leaves for each source it mentions exactly its items with last-occurrence attributes, and nothing else changes |
| InventoryTables.SnapshotMatchesIff | internal/server/store/ingest.go:90-104 | after a full snapshot a source's rows match it iff it has an item of the source or the host had no such row |
| InventoryTables.CatalogOverRuns | migrations/000001_init.up.sql:47-63 | over every run of ingests identities stay unique, ids are never reassigned, rows change only their source tag, identities keep their id, the ledger only grows |
| InventoryTables.SameIdentityIff | migrations/000001_init.up.sql:47-49 | catalog rows are one piece of software iff their hashes are equal or, without hashes, their names, publishers and versions are |
| InventoryTables.CatalogRowsOverRuns | internal/server/store/ingest.go:111-161 | over every run of ingests an identity's row has the attributes of the first accepted operation that named it and the source of the last |
| Store.DB.IsBatchSeen | internal/server/store/ingest.go:13-20 | true iff the ledger has the agent's batch |
| Store.DB.UpsertCatalog | internal/server/store/ingest.go:111-161 | a new identity gets a row with the item's source, name, publisher, version, hash, signature and architecture, nil reading as empty for publisher and version of a package; of a known one's row only the source changes; no other row does |
| Store.DB.ApplyDeltas | internal/server/store/ingest.go:55-91 | the delta loop computes the ordered application and the seen ids |
| Store.DB.ReconcileSources | internal/server/store/ingest.go:93-104 | one delete per seen source, in any order, computes the reconciliation |
| Store.DB.IngestBatch | internal/server/store/ingest.go:24-108 | the transaction succeeds iff the batch is new and the agent known, then computes the ingest function, and otherwise changes nothing |
| Store.Restamp | internal/server/store/ingest.go:45-53 | the loop overwrites each item's source and nothing else |
| Handlers.HandleIngest | internal/server/api/handlers.go:64-91 | a handler alone applies the batch iff it is new and the agent known, and replies 200 iff the ledger then has it, otherwise 500 |
| Handlers.RaceSafe | internal/server/api/handlers.go:73-90 | in every interleaving of any number of handlers of one batch, with calls that fail and transactions that commit although their handler replies with an error, the tables are those of at most one ingest, and OK is only sent with the batch in the ledger |
| Handlers.LateCopyIsAccepted | internal/server/api/handlers.go:73-83 | a copy checked once the ledger has the batch is accepted and changes nothing |
| Handlers.AcceptedMeansIngested | internal/server/api/handlers.go:73-90 | if the batch was new and some handler replied OK, the tables are those of one ingest |
| Queue.QueueIsASuffix | internal/agent/spool/spool.go:41-89 | over every run of pushes, evictions, failed pushes, peeks and acks the queue is a suffix of everything pushed and keys strictly increase |
| Queue.FreshQueueIsASuffix | internal/agent/spool/spool.go:41-89 | from a fresh spool on, every run leaves a suffix of what was pushed, in push order |
| Queue.AckAfterAnything | internal/agent/spool/spool.go:85-89 | acknowledging a peeked key after any run removes the entry it was peeked from or nothing |
| Spool.BigEndianOrder | internal/agent/spool/spool.go:61-64 | byte order of big-endian keys is sequence order, and distinct sequence numbers have distinct keys |
| Spool.BucketKeys | internal/agent/spool/spool.go:72-73 | every later entry's key is later in byte order, so the cursor starts at the oldest entry |
| Spool.Spool.First | internal/agent/spool/spool.go:52-53 | the least key of the bucket is the oldest entry's |
| Spool.Spool.EvictToCap | internal/agent/spool/spool.go:50-59 | drops one entry for each reading over the cap with a key counted, up to the first that is not, and nothing when the first is at or under the cap |
| Spool.Spool.Push | internal/agent/spool/spool.go:41-66 | drops those entries and stores under the next sequence number, wrapped at 2^64, or changes nothing if the transaction fails; at or under the cap it only appends; until it wraps this is the abstract push |
| Spool.Spool.Peek | internal/agent/spool/spool.go:69-82 | returns the oldest entry's key and batch |
| Spool.Spool.Ack | internal/agent/spool/spool.go:85-89 | deletes the entry under the key, if any |
| Spool.Spool.Len | internal/agent/spool/spool.go:92-99 | the number of entries |
| Agent.Post | internal/agent/transport/transport.go:64-85 | up to five attempts: all but the last failed with a network error or a status of 500 or more and an uncancelled wait; the last was delivered, refused with a status under 500, the fifth, or followed by a cancelled wait; succeeds iff it was delivered |
| Agent.Program.CollectAndSpool | cmd/agent/main.go:173-216 | stores the new states, pushes one batch with both diffs unless nothing changed and it is no snapshot, and keeps the new states even if the push fails |
| Agent.Program.DrainOne | cmd/agent/main.go:219-230 | posts the oldest batch and removes it iff the post and the acknowledgement went through |
| Agent.Program.DrainSpool | cmd/agent/main.go:218-232 | each post carries the oldest batch not acknowledged before it, again after a failed acknowledgement; what leaves the queue is a prefix as long as the acknowledgements; it stops at the first failed post or when the queue is empty, after at most as many posts as the spool's length plus the acknowledgements that fail |
| Replica.DiffEffect | internal/server/store/ingest.go:55-91 | what a slot holds after a whole diff, from any row before: nothing if a key of its identity left, else the last item sent under the identity, else what it held |
| Replica.RowsFollowIff | internal/agent/delta/delta.go:21-33 | the server's row set follows a diff iff no key leaves while another key of the same catalog identity is held |
| Replica.ValuesFollowIff | internal/agent/delta/delta.go:41-57 | with injective identities, every row shows the agent's path and owner after a diff iff for each key the last item sent shows those of the last item collected |
| Replica.NoFlapSettles | internal/agent/delta/delta.go:41-57 | a collection in which no key flaps meets that condition |
| Replica.FaithfulSlotsMirror | migrations/000001_init.up.sql:52-63 | the inventory and catalog tables hold exactly the agent's identities for a host and source, and show its items, iff every slot is faithful |
| Replica.Simulates | internal/server/store/ingest.go:117-141 | while identity is injective on the keys involved, the server's slot follows the replayed agent state, attributes included |
| Replica.ShownIfHeld | internal/agent/delta/delta.go:21-33 | in a history without handovers an identity shows an item just when the agent holds it |
| Replica.OneHandoverIff | internal/agent/delta/delta.go:21-33 | after a history without handovers, one more collection is followed iff it hands over no identity |
| Replica.ShownIsStanding | internal/server/store/ingest.go:117-141 | while identity is injective on the keys that meet in each diff, a slot shows the standing item of its key |
| Replica.ValuesTellIff | internal/agent/delta/delta.go:41-57 | and then a whole history leaves every row with the agent's path and owner iff every key's standing item has those last collected |
| Protocol.StepKeepsInv | cmd/agent/main.go:173-232 | every step of agent, network or server keeps the protocol invariant |
| Protocol.ExactlyOnce | internal/server/api/handlers.go:73-90 | in every run no batch is applied twice, only produced batches are applied, every acknowledged batch is applied, and one neither queued nor lost is applied |
| Convergence.OrphanIff | internal/agent/spool/spool.go:50-59 | a step leaves an unapplied batch live but unqueued iff its push evicts one that a live request carries |
| Convergence.OrderIff | internal/agent/spool/spool.go:50-59 | a step evicts no batch a live request carries iff every continuation that evicts none keeps batches taking effect in production order |
| Convergence.Overtake | internal/agent/transport/transport.go:64-85 | a live request, checked or not, with a batch older than the unapplied head of the queue can be overtaken by the head and then takes effect out of order |
| Convergence.CanDrain | cmd/agent/main.go:218-232 | from every state that satisfies the invariant some continuation without evictions empties the spool and applies everything in it, batches whose reply was lost included |
| Convergence.CanCollect | cmd/agent/main.go:173-216 | while no request is outstanding the agent can take in any collection |
| Convergence.InOrderEffect | cmd/agent/main.go:218-232 | in every run without such evictions the applied sequence is the produced sequence without the batches queued or lost, in order |
| Convergence.TablesFollowApplied | internal/server/store/ingest.go:38-41 | the host's slots are the effect of the applied batches in order; other agents' ingests do not touch them |
| Convergence.SnapshotShows | cmd/agent/main.go:91-92 | a startup snapshot with an item of a source starts every slot of that source afresh, from any prior row |
| Convergence.LogShowsHistory | cmd/agent/main.go:183-216 | the batches since the latest start, applied to any row, leave exactly what the history of collections since then shows in the slot, whatever was collected |
| Convergence.ConvergesIff | cmd/agent/main.go:173-232 | in a run whose pushes evict no batch a live request carries, with an empty spool and nothing lost since the latest start, the server's rows of each source it reported on mirror the agent's state, with or without paths and owners, iff the collections since then tell it |
| Convergence.Converges | cmd/agent/main.go:173-232 | in such a run, if no collection since the latest start hands an identity over between keys, the rows are exactly the agent's identities; if identity is injective on the keys that meet in each diff, they show its paths and owners iff every key's last item sent shows those last collected |
| Witnesses.RenameLosesTheRow | internal/server/store/ingest.go:117-126 | a concrete rename under one hash after which the row is gone although the agent holds the item |
| Witnesses.EmptySnapshotKeepsRows | internal/server/store/ingest.go:94-104 | concrete tables and an empty full snapshot that leaves a row |
| Witnesses.LateCopyUndoesASnapshot | internal/agent/spool/spool.go:1-3 | a concrete run with an empty spool and nothing lost since the restart in which a late copy of an evicted snapshot restores a stale row |
| HashCache.Cache.Get | internal/agent/hashcache/hashcache.go:55-104 | one call alone: cached hash iff it is non-empty and the three stamps match, otherwise the fresh hash, stored under the stat's stamps |
| HashCache.StepKeepsInv | internal/agent/hashcache/hashcache.go:55-104 | on an honest history every step of every call and every rewrite keeps, for each path: a stored hash comes from a version no older than its inode, its inode from one no older than its size and mtime stamp, and a returned hash is right |
| HashCache.CacheLinearizable | internal/agent/hashcache/hashcache.go:55-104 | in every interleaving from a fresh cache, if versions of a path differ in size or mtime, each non-empty hash returned is of contents the file had during the call |
| HashCache.CacheRightIff | internal/agent/hashcache/hashcache.go:55-104 | for every history of a path, all hashes returned in all runs with that history are right iff no version is masked by an older hash stored under stamps that a later call reads, with inode lookups that may fail and with ones that do not |
| HashCache.HonestWithoutInodes | internal/agent/hashcache/inode_unix.go:9-15 | where inode lookups may fail, which histories are honest depends on size and mtime alone |
| HashCache.StaleIff | internal/agent/hashcache/hashcache.go:76-81 | write, call, rewrite, call, nothing overlapping: the second call returns a hash the file did not have during it iff the versions agree on size, mtime and inode and hash differently, the first one's hash being non-empty |
| HashCache.RestoredFileIsMisread | internal/agent/hashcache/hashcache.go:83-93 | a concrete run, no lookup failing, in which a file is rewritten while hashed and then put back, and an undisturbed later call returns the other contents' hash |
| WorkerPool.SendNeverBlocks | internal/agent/collect/process.go:28-29 | a worker about to send always finds room in the result channel |
| WorkerPool.ProgressIff | internal/agent/collect/process.go:32-70 | in every reachable state some step is possible iff some worker is unfinished and the concurrency is at least one |
| WorkerPool.RunsAreFinite | internal/agent/collect/process.go:32-70 | every run keeps the invariant and is bounded by the initial weight |
| WorkerPool.DedupeResults | internal/agent/collect/process.go:73-85 | the loop keeps the first result of each path |
| WorkerPool.DedupeExact | internal/agent/collect/process.go:73-85 | deduplication drops no path, invents nothing and repeats no non-empty path |
| WorkerPool.DedupeKeepsFirst | internal/agent/collect/process.go:73-85 | what is kept, in order, is exactly the results without a path and the first of each path |
| WorkerPool.PoolOutput | internal/agent/collect/process.go:28-87 | in every run at most the configured number of workers hold the semaphore, and a complete run returns one entry per distinct path reported and nothing else |
| Plist.DecodeElement | internal/agent/collect/installed_darwin.go:93-99 | the inner loop computes the element's direct text and the tokens after its end |
| Plist.PlistTopLevelKV | internal/agent/collect/installed_darwin.go:76-110 | the token loop computes the walk |
| Plist.WalkDocument | internal/agent/collect/installed_darwin.go:82-108 | for every document the depth-counting walk ends at depth zero having found what a visit of the tree finds |
| Plist.PlistIsRead | internal/agent/collect/installed_darwin.go:75-110 | for every property list whose dict alternates keys and arbitrarily nested values, exactly the trimmed non-empty keys with string values, last one winning |
| Plist.MeaningIff | internal/agent/collect/installed_darwin.go:91-104 | the dictionary has a key iff some pair gives the trimmed key a string, and holds the last such string |
| Plist.TrimExact | internal/agent/collect/installed_darwin.go:94 | trimming drops exactly the white space at both ends |
| Plist.SpaceCodes | internal/agent/collect/installed_darwin.go:94 | white space is the white space of Unicode, by code point |
| Dpkg.ReadDpkg | internal/agent/collect/installed_linux.go:22-74 | the scanner loop computes the parse |
| Dpkg.ParseSplits | internal/agent/collect/installed_linux.go:50-56 | parsing a file cut at a blank line is parsing the parts one after the other |
| Dpkg.PrintedStanzasAreRead | internal/agent/collect/installed_linux.go:29-68 | parsing any printed list of stanzas returns exactly the installed, named packages in order with their last version and maintainer |
| Dpkg.StanzaYields | internal/agent/collect/installed_linux.go:29-68 | one stanza in the file's own words yields its package, signed and without a hash, iff it is named and its status contains the marker |
| Dpkg.ContainsIff | internal/agent/collect/installed_linux.go:65 | the status test is the search for a substring |
| Enrollment.Store.FindHost | internal/server/store/enroll.go:48-79 | finds a row of the first tier that matches, or none when all four miss |
| Enrollment.CandidateIff | internal/server/store/enroll.go:48-79 | a host is a candidate iff it matches on some tier and no host matches on a stronger one |
| Enrollment.Store.ResolveOrCreateHost | internal/server/store/enroll.go:48-105 | writes the facts' name, domain name, system, addresses and serial, keeping the old serial when none is reported, to a candidate or a new host and to no other row, failing iff another host has the serial |
| Enrollment.Store.Enroll | internal/server/store/enroll.go:19-45 | one transaction: the host's row as reported and an active agent with the fingerprint on it, or nothing if the serial or the fingerprint is in use |
| Enrollment.ClashIff | migrations/000001_init.up.sql:14 | some choice of row makes the serial index reject an enrollment iff its serial is empty, some host has the empty serial, and that host is not the only candidate |
| Enrollment.SecondEmptySerialFails | internal/server/store/enroll.go:48-105 | a concrete pair of enrollments with empty serials of which the second is rejected |
| Enrollment.EnrollKeepsRegistry | internal/server/store/enroll.go:19-105 | an enrollment keeps serials and fingerprints unique and agents on existing hosts, and adds a host iff all four tiers miss |
| Enrollment.RunsKeepRegistry | internal/server/store/enroll.go:19-105 | the same over every run, with at most one new host per request and serials kept unless overwritten |
| Enrollment.SameSerialSameHost | internal/server/store/enroll.go:51-57 | after an enrollment with a serial, and any run not overwriting that host's serial, the serial resolves to that host only |
| Enrollment.SameFactsSameHost | internal/server/store/enroll.go:59-79 | after an enrollment, and any run whose requests resolving to that host report the same name, domain name and addresses, facts agreeing with it on one of these and matching nothing on a stronger tier have that host among their candidates |
| Fleet.Store.GetAgentByCert | internal/server/store/agent.go:26-41 | finds an active agent with the fingerprint iff there is one |
| Fleet.Store.AckCommands | internal/server/store/agent.go:102-111 | marks exactly the agent's listed commands |
| Fleet.Store.PendingCommands | internal/server/store/agent.go:78-99 | lists exactly the agent's unacknowledged commands in creation order |
| Fleet.Store.PushConfig | internal/server/store/decommission.go:20-37 | sets the config and raises the version by one, leaves the rest of the row and all other rows, then queues the command with the config unless it stops half way; an unknown agent changes nothing |
| Fleet.Store.DecommissionAgent | internal/server/store/decommission.go:9-17 | clears the active mark, leaves the rest of the row and all other rows, then queues the command unless it stops half way; an unknown agent changes nothing |
| Fleet.ConfigVersioning | internal/server/api/handlers.go:93-123 | in every interleaving, late copies of check-ins included, versions never decrease, each increment is one queued command or one unfinished push, the agent is never ahead, and a reply carries the config of the version read exactly when that is newer than the one reported |
| Fleet.FreshVersioning | internal/server/store/decommission.go:20-37 | from newly enrolled agents on, an agent's version is its first one plus the config updates queued plus the pushes that stopped before queueing theirs |
| Fleet.RowStep | internal/server/store/agent.go:60-75 | what each step does to an agent's row, field by field, and that no other step touches it |
| Fleet.CommandStep | internal/server/store/decommission.go:32-36 | what each step does to the commands, payloads and acknowledgement marks included |
| Fleet.CheckinStep | internal/server/api/handlers.go:102-119 | a check-in goes through its calls in order and replies with the version and config its row has then |
| Fleet.LocalStep | cmd/agent/main.go:249-252 | the agent's version moves only to that of a newer reply |
| Fleet.GateIff | internal/server/api/router.go:71-87 | after every run a request of the agent passes the gate iff it comes under the agent's fingerprint, the agent was active, and no decommission of it has started |
| Fleet.DecommissionIsTerminal | internal/server/api/router.go:71-87 | once an agent is out, no run lets a check-in, heartbeat or ingest of it pass the gate; its marks and its commands' status stay as they are, its ledger entries too, and so does every slot of its host unless another agent reports for it |
| Fleet.LandIff | internal/server/api/router.go:71-87 | with requests under way, a batch of a deactivated agent is in the ledger after some run iff it was there or an ingest of it had passed the gate |
| Fleet.StaysPendingIff | internal/server/api/handlers.go:93-103 | with requests under way, a pending command of a deactivated agent stays pending in every run iff no check-in that lists it is between gate and acknowledgement |
| Fleet.DecommissionShutsOut | internal/server/store/decommission.go:9-17 | from its first statement on the agent never passes the gate again and its contribution to the inventory is kept, and the command queued by the second statement stays pending |
| Jwt.Base64RoundTrip | internal/server/auth/jwt.go:64-66 | decoding undoes unpadded base64url encoding for all bytes, and the text has no dot |
| Jwt.SplitJoin | internal/server/auth/jwt.go:35-38 | splitting at a character yields pieces free of it that join back to the text |
| Jwt.IssuedTokenVerifies | internal/server/auth/jwt.go:21-56 | an issued token has three parts, verifies to its claims up to and including its expiry, and is expired after |
| Jwt.IssuedTokenSays | internal/server/auth/jwt.go:21-31 | a token's parts decode to the header, to the user's claims expiring 86400 seconds later, and to the MAC of the first two |
| Jwt.QuantumValue | internal/server/auth/jwt.go:64-66 | three bytes are cut into four sextets most significant first |
| Jwt.Alphabet | internal/server/auth/jwt.go:64-66 | the sextets are printed in the URL-safe alphabet |
| Jwt.VerifiedIff | internal/server/auth/jwt.go:34-56 | a token verifies to claims iff it is a dot-free header and payload with their MAC, the payload decodes to the claims, and it has not expired |

## Left out

- HTTP, TLS, certificates and gzip: requests are modelled from the decoded body on. The agent compresses bodies and no handler decompresses them.
- JSON: values are stored and sent as themselves; claims go through an arbitrary codec whose decoder undoes its encoder.
- Timestamps, tickers and backoff lengths: when a step happens is a free choice of the run.
- Store.DB.UpsertCatalog: without the select after a failed insert (internal/server/store/ingest.go:148-157), which depends on the database inside a failed transaction; a failed insert fails the transaction.
- Database errors other than the modelled constraint violations: a request may be refused at any point without effect, a transaction fails as a whole.
- Host sharing: another agent's ingests are part of every run of the protocol, but only for other hosts, since rows are keyed by host; the slot clause of Fleet.DecommissionIsTerminal assumes the same.
- Install location and architecture: ignored by the diff, so the server's copy of them is not claimed to follow.
- Spool.Spool.Push: the order of the queue is claimed up to sequence number 2^64 - 1; of the push after it, which stores under key zero, only the bucket is described. Statistics readings are arbitrary, so the size bound itself is not claimed.
- Agent.Program.DrainSpool: takes a bound on the acknowledgements that fail; on an endless series of them the loop does not end.
- Collectors: the process list, host facts, signatures, the Windows registry and the choice of bundle name keys are operating-system calls or plain selections; their output is arbitrary input labelled with its source.
- The scanner's 64 KB line limit and the XML decoder itself: the parsers start from lines and from the tokens before the first error.
- The JSON text of MAC addresses (internal/server/store/enroll.go:108-124): addresses are a list.
- Fleet.DecommissionIsTerminal: assumes that no request of the agent is past the gate when it starts, since a handler already admitted runs to its end; Fleet.LandIff and Fleet.StaysPendingIff say what such handlers can still do.
- Enrollments run one at a time, each as one transaction: two first enrollments that overlap under read-committed isolation can both miss and clash on hosts_serial_uq with one non-empty serial. No agent enrolls during a run of the fleet.
- A hash reads one version of a file: a file rewritten while its bytes are being read is not modelled, only one rewritten before or after.
- Reports, paging, audit log, users, web client: filters and presentation.
