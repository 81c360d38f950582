# Verified model of the diskless cluster and CD-ROM file system core

This project models five stateful parts of an HP-UX 9.10 kernel in Dafny and
proves what they keep over every run.

* **Process IDs of a cluster** (`PidTable`, `PidSite`, `PidCluster`, `PidPanic`,
  `PidWakeups`). The root
  server hands out chunks of 50 process IDs; sites preallocate, use up, recycle
  and give back chunks by message; a crashed site's chunks are swept up. The
  tables are classes whose methods are the code's loops; the cluster is a state
  machine over forks, exits, messages, the reply interrupt, waiting processes
  and crashes. Main results: IDs are unique across the cluster, chunks are
  conserved, the handshake is sound, the tables never overflow, and exactly when
  a waiting process is woken.
* **The cdnode cache** (`CdnodeLists`, `CdnodeCache`, `CdnodeRuns`). Hash rings
  and a free list threaded through one array, shown to mean a map from names to
  nodes and a queue of free nodes, over every sequence of gets, holds, locks,
  releases and flushes.
* **The diskless FIFO** (`FifoStream`, `FifoBuffers`). A byte ring over file
  blocks behind a buffer cache that may write back or forget buffers at any
  block access. Each pass of a read or write is shown to do what a queue of
  bytes does, and all interleavings of passes keep the stream in order, whole
  and live.
* **Reading and directories of the CD-ROM file system** (`CdfsGeometry`,
  `CdfsRead`, `CdfsDir`, `CdfsLookup`, `CdfsIsoOrder`, `CdfsDirents`,
  `CdfsListing`, `CdfsReaddir`, `CdfsNumbers`). The block map against the layout of ISO 9660, the
  read loop, the cursor, the lookup with its shortcut against a linear scan, the
  in-place conversion of records, the listing over many calls, and the numbers of
  files, which the listing and the lookup agree on.
* **Clock steering** (`ClockSync`). The control loop with its 32-bit sum, its
  convergence, and what missed messages do.

## What the proofs found

Where the code does less than its comments or its callers expect, a lemma gives
the exact condition or a concrete input.

* A request for a chunk is refused although one is free, if that one is the
  chunk allocated last (`PidTable.RefusedExactly`).
* A process waiting for IDs that is woken, but runs only after another process
  has taken responsibility for the next chunk, sleeps again uncounted; the end of
  that allocation wakes it only if another process came to wait meanwhile
  (`PidWakeups.WokenExactly`, `PidWakeups.WaiterCanBeStranded`).
* The lookup finds names as a linear scan does exactly if they are in the order
  of the comparison it makes (`CdfsLookup.FindsAsScanExactly`), which is not the
  order ISO 9660 prescribes: a name can be found once and then not
  (`CdfsIsoOrder.LookUpTwice`).
* A read that starts 2 gigabytes or more before the end of a file delivers
  nothing (`CdfsRead.DeliveredExactly`).
* Read ahead never helps a reader that takes whole chunks
  (`CdfsRead.ReadAheadOnlyWithinOneChunk`).
* The block map is right for interleaved files only where units start on sectors,
  and for others only up to where a 32-bit sum wraps around
  (`CdfsRead.FoundWhereItIsExactly`).
* A sector without a record can make the entry before it too long by two bytes
  (`CdfsDirents.TilesExactly`, `CdfsDirents.AnEmptySectorOvershoots`).
* The clock is slowed down instead of sped up when the root server is ahead by
  more than about 2027 seconds (`ClockSync.SteeredRightExactly`), and may then
  stop (`ClockSync.TimeGoesOnExactly`). The adjustment for missed messages does
  not bring another zero crossing with exact ticks, although a comment says so
  (`ClockSync.NoSecondCrossing`).

## Assumptions

* Messages between sites are delivered exactly once, and those of a crashed site
  are dropped: the server does not check who gives a chunk back.
* Taking an ID and entering it in the process table is one step. A process that
  preallocates does not yield to a second one of the same site, and the leader
  installs its chunk without yielding.
* The swapper, the page-out and the statistics process of a site never exit
  (sys/init_main.c:577-613), and a fork for which the process table has no room
  loses its ID (sys/kern_fork.c:95-99). The table of chunks held has as many
  entries as the process table. `PID_MAXSYS` is 7, as with `GENESIS`.
* Reclaiming inside `ecdget` does not sleep. Its two loops that ask other parts
  of the kernel to let go of nodes are one list of references given up.
* The block size of a FIFO divides its ring, blocks are full size, and reads,
  writes and copies succeed.
* A directory lies in one piece, starts on a sector, and its records end in their
  sectors, with zeros after the last one of a sector and one at the start of each
  (section 6.8.1.1 of ISO 9660). Names are no longer than 37 bytes.
* Numbers of logical blocks and sectors fit 32 bits. A directory is smaller than 2
  gigabytes: its cursor is an int, and no more of it could be read.
* The buffer of a directory's conversion has at most 8192 bytes, as its caller
  allocates it, and a record in its first sector: the code uses the last entry
  converted before it has one.
* The number of a directory's cdnode is the address of its first record, as
  `get_dir_rec` and the mount give it, and its parent's is the one remembered or,
  if none is, the one its second record has.
* The last reference to a cdnode is not given up while the node is locked:
  `cdinactive` panics then.
* A second has 50 clock ticks, as on the series 300; it has 100 on the series 800.
* Characters are signed, as both versions of `strncmp` and the test for a name
  before "." have them.
* A run of a FIFO goes from its first open to its last close, which throws away
  what was not read.

## Model

| member | source | states |
|---|---|---|
| PidTable.AroundDistance | source_product/9.10/sys.A.B9.10/dux/dux_getpid.c:458-513 | going round the table from the last chunk reaches every chunk after exactly its circular distance, and only then |
| PidTable.NextChunkExact | source_product/9.10/sys.A.B9.10/dux/dux_getpid.c:485-508 | the second scan finds the first chunk, in circular order after the last one allocated, that is free or the requester's (none at a smaller distance is), and fails only if there is none it looks at |
| PidTable.OwnChunkExact | source_product/9.10/sys.A.B9.10/dux/dux_getpid.c:466-483 | the first scan finds the next chunk of the requester's own, in circular order after the chunk of its last ID (none at a smaller distance is its own), without going past the last allocated; it fails only if there is none |
| PidTable.OwnChunkIsGranted | source_product/9.10/sys.A.B9.10/dux/dux_getpid.c:466-483 | if the site has a chunk of its own after that of its last ID and not past the one allocated last, the nearest such chunk is granted, and neither the table nor the chunk allocated last changes, whatever else is free |
| PidTable.NextChunkIsGranted | source_product/9.10/sys.A.B9.10/dux/dux_getpid.c:485-508 | if it has none there, the chunk nearest after the one allocated last that is free or its own is granted, becomes the one allocated last, and no other entry changes |
| PidTable.RefusedExactly | source_product/9.10/sys.A.B9.10/dux/dux_getpid.c:458-513 | a request is refused if and only if every chunk but the one allocated last belongs to another site, and the one allocated last is not a chunk of the requester's own that the first scan reaches |
| PidTable.RefusedAlthoughOneIsFree | source_product/9.10/sys.A.B9.10/dux/dux_getpid.c:485-512 | requests from the empty table on and one cleanup lead to a table in which the chunk allocated last is free and all others are taken: a newcomer is refused although one chunk is free |
| PidTable.GrantKeepsOthers | source_product/9.10/sys.A.B9.10/dux/dux_getpid.c:458-513 | a grant leaves every other entry as it was and takes nothing from another site |
| PidTable.OwnedDisjoint | source_product/9.10/sys.A.B9.10/dux/dux_getpid.c:484-508 | two sites never own the same chunk |
| PidTable.PidServer.SearchOwn | source_product/9.10/sys.A.B9.10/dux/dux_getpid.c:466-483 | the loop finds what `OwnChunk` finds, and ends |
| PidTable.PidServer.SearchNext | source_product/9.10/sys.A.B9.10/dux/dux_getpid.c:485-508 | the loop finds what `NextChunk` finds, and ends in every state the server can be in |
| PidTable.PidServer.GetPidChunk | source_product/9.10/sys.A.B9.10/dux/dux_getpid.c:458-513 | the table and the last chunk become those of `GetChunk`; start, size or the error are returned |
| PidTable.PidServer.ReturnPidChunk | source_product/9.10/sys.A.B9.10/dux/dux_getpid.c:521-525 | the entry of the chunk becomes free, all others stay |
| PidTable.PidServer.ServeGetPids | source_product/9.10/sys.A.B9.10/dux/dux_getpid.c:793-834 | all chunks released in the message become free before one is granted |
| PidTable.PidServer.PidCleanup | source_product/9.10/sys.A.B9.10/dux/dux_getpid.c:839-851 | exactly the entries of the crashed site become free |
| PidTable.PidServer.constructor | source_product/9.10/sys.A.B9.10/dux/dux_getpid.c:857-869 | all entries are free and none was allocated last |
| PidSite.FreedDependsOnSlots | source_product/9.10/sys.A.B9.10/dux/dux_getpid.c:542-592 | which chunks a sweep frees depends on the slots and the processes alone |
| PidSite.RunSweepClears | source_product/9.10/sys.A.B9.10/dux/dux_getpid.c:542-592 | a sweep empties exactly the slots that no live process uses, but for the current chunk |
| PidSite.RunSweepReleasesAll | source_product/9.10/sys.A.B9.10/dux/dux_getpid.c:542-592 | the messages sent and the batch left over hold each freed chunk once, in order, with no message over the limit |
| PidSite.InstallOffers | source_product/9.10/sys.A.B9.10/dux/dux_getpid.c:393-435 | a chunk installed offers exactly its 50 IDs, but for those of the system and, if the site had the chunk before, those in use |
| PidSite.TakesTheLeast | source_product/9.10/sys.A.B9.10/dux/dux_getpid.c:237-294 | taking an ID takes the least on offer and no other |
| PidSite.SiteTables.NextPid | source_product/9.10/sys.A.B9.10/dux/dux_getpid.c:237-294 | the first ID left in the list is taken and the list moves past it; it is not used if a process group or session has it |
| PidSite.SiteTables.ScanProcs | source_product/9.10/sys.A.B9.10/dux/dux_getpid.c:563-580 | a slot counts as used exactly when a live process has an ID in it |
| PidSite.SiteTables.ReleaseFreePidChunks | source_product/9.10/sys.A.B9.10/dux/dux_getpid.c:542-592 | slots, messages and batch are those of `RunSweep` |
| PidSite.SiteTables.InstallChunk | source_product/9.10/sys.A.B9.10/dux/dux_getpid.c:305-435 | the chunk is entered in a free slot and the list holds its IDs in order without those in use, or there is no free slot and nothing changes |
| PidCluster.ForkOk | source_product/9.10/sys.A.B9.10/dux/dux_getpid.c:218-296 | a fork keeps every invariant of the site, in particular that every live ID lies in a chunk held |
| PidCluster.ExitOk | source_product/9.10/sys.A.B9.10/dux/dux_getpid.c:542-592 | an exit keeps every invariant of the site |
| PidCluster.SweepNextOk | source_product/9.10/sys.A.B9.10/dux/dux_getpid.c:542-592 | each step of a sweep keeps every invariant; a chunk moves from the table to the message |
| PidCluster.SendRequestOk | source_product/9.10/sys.A.B9.10/dux/dux_getpid.c:664-691 | sending the request keeps every invariant |
| PidCluster.ReceiveOk | source_product/9.10/sys.A.B9.10/dux/dux_getpid.c:699-724 | the reply interrupt keeps every invariant |
| PidCluster.LeadOrWaitOk | source_product/9.10/sys.A.B9.10/dux/dux_getpid.c:739-772 | a process that finds the list empty leads or waits, and every invariant is kept |
| PidCluster.FinishOk | source_product/9.10/sys.A.B9.10/dux/dux_getpid.c:773-786 | the leader installs the chunk and clears the flags, and every invariant is kept |
| PidCluster.StepOk | source_product/9.10/sys.A.B9.10/dux/dux_getpid.c:218-851 | every step of the cluster (fork, exit, send, serve, receive, wake, crash, cleanup) keeps the invariant of the whole cluster |
| PidCluster.AlwaysOk | source_product/9.10/sys.A.B9.10/dux/dux_getpid.c:218-851 | the invariant holds in every state of every run |
| PidCluster.PidsAreUnique | source_product/9.10/sys.A.B9.10/dux/dux_getpid.c:218-435 | in every reachable state no two live processes of running sites have the same ID |
| PidCluster.ChunksAreConserved | source_product/9.10/sys.A.B9.10/dux/dux_getpid.c:484-508 | a table entry names a running site if and only if that site, and no other, holds the chunk, is giving it back or is being granted it |
| PidCluster.ReleasedChunksAreIdle | source_product/9.10/sys.A.B9.10/dux/dux_getpid.c:542-592 | a chunk on its way back has no live process and no ID left to hand out |
| PidCluster.HandshakeHolds | source_product/9.10/sys.A.B9.10/dux/dux_getpid.c:664-724 | at most one request of a site is out; each gets one reply, consumed at most once; one process at most leads |
| PidCluster.WaitersReturnAfterTheLeader | source_product/9.10/sys.A.B9.10/dux/dux_getpid.c:739-786 | a waiting process returns only after a reply was consumed since it began to wait |
| PidCluster.ServerNeverStuck | source_product/9.10/sys.A.B9.10/dux/dux_getpid.c:793-834 | the server can serve any message a running site has sent |
| PidCluster.RequestsNameTheCurrentChunk | source_product/9.10/sys.A.B9.10/dux/dux_getpid.c:664-691 | a request under way names the chunk its site got last |
| PidCluster.ForkTakesTheLeast | source_product/9.10/sys.A.B9.10/dux/dux_getpid.c:237-296 | in every reachable state a fork takes the least ID on offer and no other; the child has it, unless a group or session does or the process table is full |
| PidCluster.AsksInTime | source_product/9.10/sys.A.B9.10/dux/dux_getpid.c:237-251 | a client with no request out asks for the next chunk exactly when fewer than five places of its list are left, and forks exactly before |
| PidCluster.RootKeepsWhatIsUsed | source_product/9.10/sys.A.B9.10/dux/dux_getpid.c:305-358 | after the server's own site has fetched a chunk it holds that one, the one before, and chunks in use, and nothing else |
| PidCluster.RunsOnExactly | source_product/9.10/sys.A.B9.10/dux/dux_getpid.c:745-753 | a waiting process that runs returns if and only if no process leads then; else it sleeps again; no other process is touched |
| PidPanic.PigeonholeOfUsers | source_product/9.10/sys.A.B9.10/dux/dux_getpid.c:360-391 | occupied slots, each in use by an ID of a set or the current chunk, are at most the user IDs of the set and two more |
| PidPanic.RoomKept | source_product/9.10/sys.A.B9.10/sys/init_main.c:577-613 | every step of a site keeps the three processes of boot alive, all processes within the table, and room for the chunks of those the last sweep saw |
| PidPanic.NoPanic | source_product/9.10/sys.A.B9.10/dux/dux_getpid.c:371-391 | in every reachable state of the cluster a granted chunk finds a free slot on its site: the panic cannot happen, as the comment says |
| PidPanic.NoPanicAtRoot | source_product/9.10/sys.A.B9.10/dux/dux_getpid.c:305-391 | nor can it where the root serves itself |
| PidCluster.DrainIsRunSweep | source_product/9.10/sys.A.B9.10/dux/dux_getpid.c:542-592 | the steps of a sweep, run to the end, are the sweep of the code |
| PidWakeups.WaitersKept | source_product/9.10/sys.A.B9.10/dux/dux_getpid.c:739-786 | every step of a site keeps this: the count of waiters is positive if and only if some process came to wait since the last reply was consumed, and every waiter that is awake came before that |
| PidWakeups.AliveKept | source_product/9.10/sys.A.B9.10/dux/dux_getpid.c:739-786 | every step of a site keeps this: whoever leads or waits is a live process, and not one of boot |
| PidWakeups.WokenExactly | source_product/9.10/sys.A.B9.10/dux/dux_getpid.c:745-786 | on every reachable site, a step wakes a sleeping process if and only if it is the end of an allocation and some process came to wait since the reply before was consumed; otherwise the process sleeps on |
| PidWakeups.NewWaitersAreWoken | source_product/9.10/sys.A.B9.10/dux/dux_getpid.c:745-786 | a process that came to wait since then is woken by the end of the allocation it waits for |
| PidWakeups.SpendsOne | source_product/9.10/sys.A.B9.10/dux/dux_getpid.c:237-296 | an ID is used up by a process that is forked and exits, or is lost for want of room in the process table |
| PidWakeups.WaiterCanBeStranded | source_product/9.10/sys.A.B9.10/dux/dux_getpid.c:745-785 | from every reachable state of a client with three live processes beside those of boot, and no one waiting, there is a run of the cluster to a state in which one of them sleeps although no allocation is under way and none is owed to it |
| PidWakeups.AStrandedWaiter | source_product/9.10/sys.A.B9.10/dux/dux_getpid.c:745-785 | such a state is reachable: a root and one client, on which init gets the first chunk and forks two children, and one of the three misses its wakeup |
| CdnodeLists.RemqueKeepsRing | source_product/9.10/sys.A.B9.10/cdfs/cdfs_cdnod.c:252-265 | unlinking a member of a ring leaves the ring of the others, in order |
| CdnodeLists.RemqueThenAlone | source_product/9.10/sys.A.B9.10/cdfs/cdfs_cdnod.c:278-284 | the unlinked node, pointed at itself, is a ring of its own |
| CdnodeLists.InsertKeepsRing | source_product/9.10/sys.A.B9.10/cdfs/cdfs_cdnod.c:267-277 | linking a node in after the header puts it first and keeps the others in order |
| CdnodeLists.RemqueKeepsRings | source_product/9.10/sys.A.B9.10/cdfs/cdfs_cdnod.c:252-265 | with all rings in one array, unlinking keeps every node on exactly one well-formed ring |
| CdnodeLists.InsertKeepsRings | source_product/9.10/sys.A.B9.10/cdfs/cdfs_cdnod.c:267-277 | so does linking in |
| CdnodeLists.FreeAppendOk | source_product/9.10/sys.A.B9.10/cdfs/cdfs_cdnod.c:716-738 | appending keeps the free list and its back links, also when the tail pointer was stale |
| CdnodeLists.FreeRemoveOk | source_product/9.10/sys.A.B9.10/cdfs/cdfs_cdnod.c:344-352 | taking a node out of the middle keeps the free list and its back links |
| CdnodeLists.FreePopOk | source_product/9.10/sys.A.B9.10/cdfs/cdfs_cdnod.c:237-250 | taking the first node keeps the free list; the tail pointer may be left stale when it was the only one |
| CdnodeCache.EGetOk | source_product/9.10/sys.A.B9.10/cdfs/cdfs_cdnod.c:302-405 | a get keeps the meaning of the cache well formed, whatever it reclaims on the way |
| CdnodeRuns.AfterOk | source_product/9.10/sys.A.B9.10/cdfs/cdfs_cdnod.c:302-841 | so does every operation: getting, filling in or abandoning, holding, releasing, locking, unlocking, putting and flushing |
| CdnodeRuns.RunsOk | source_product/9.10/sys.A.B9.10/cdfs/cdfs_cdnod.c:302-841 | so does every run of operations |
| CdnodeRuns.NamesAreUnique | source_product/9.10/sys.A.B9.10/cdfs/cdfs_cdnod.c:169-188 | in every run no two nodes in use have the same device and number |
| CdnodeRuns.UnlockedIsReferenced | source_product/9.10/sys.A.B9.10/cdfs/cdfs_cdnod.c:368-405 | in every run a node in use without a reference is locked: it is one a get has not finished with |
| CdnodeRuns.AnyCountOccurs | source_product/9.10/sys.A.B9.10/cdfs/cdfs_vnops.c:1034-1040 | a run in which a node is in use, unlocked, with any number of references: lookups share it |
| CdnodeRuns.SleeperIsNotForgotten | source_product/9.10/sys.A.B9.10/cdfs/cdfs_cdnod.c:327-341 | whoever is sent to sleep for a node, by a get or a lock, is not forgotten: in every run the node stays locked and wanted until the operation that unlocks it, which wakes the sleeper |
| CdnodeRuns.WantedIsLocked | source_product/9.10/sys.A.B9.10/cdfs/cdfs_cdnod.c:820-841 | in every run a wanted node is in use and locked |
| CdnodeCache.GetUpdatesTheMap | source_product/9.10/sys.A.B9.10/cdfs/cdfs_cdnod.c:302-405 | a get changes the map at the name asked for and at the names of the nodes reclaimed, and nowhere else; a node that is locked becomes wanted, and then nothing else of the cache changes |
| CdnodeCache.GetReturnsLocked | source_product/9.10/sys.A.B9.10/cdfs/cdfs_cdnod.c:355-405 | the node a get returns is locked, in use, and has the name asked for, with one reference more if it was found and none yet if it was recycled; no other node changes but by reclaiming |
| CdnodeCache.NoRoomExactly | source_product/9.10/sys.A.B9.10/cdfs/cdfs_cdnod.c:198-250 | a get finds no room if and only if no node is free and reclaiming takes the last reference from none |
| CdnodeCache.AbandonedIsForgotten | source_product/9.10/sys.A.B9.10/cdfs/cdfs_cdnod.c:475-511 | a node that could not be read loses its number and its place in the map, is neither locked nor wanted, and becomes free after all others; all else is as it was |
| CdnodeCache.InUseIsKept | source_product/9.10/sys.A.B9.10/cdfs/cdfs_cdnod.c:198-287 | a get never takes a node that is in use, unless reclaiming gives up all references to it |
| CdnodeCache.PurgeLowers | source_product/9.10/sys.A.B9.10/cdfs/cdfs_cdnod.c:198-287 | reclaiming does nothing to a node in use but lower its count, by the references given up at most |
| CdnodeRuns.FreeInOrder | source_product/9.10/sys.A.B9.10/cdfs/cdfs_cdnod.c:716-738 | in every run the free nodes are in the order in which they became free, those freed by one flush in the order of their numbers |
| CdnodeRuns.MissRecyclesOldest | source_product/9.10/sys.A.B9.10/cdfs/cdfs_cdnod.c:198-287 | in every run a miss recycles, of all free nodes, the one that has been free longest |
| CdnodeCache.PutThenGet | source_product/9.10/sys.A.B9.10/cdfs/cdfs_cdnod.c:663-671 | a node put and asked for again is the same node, if it was not reclaimed in between |
| CdnodeCache.FlushUnfolds | source_product/9.10/sys.A.B9.10/cdfs/cdfs_cdnod.c:756-818 | the flush fails at a node of the device exactly if invalidation leaves it in use, and then only its count is lowered; otherwise the node is forgotten and the flush goes on |
| CdnodeCache.FlushStep | source_product/9.10/sys.A.B9.10/cdfs/cdfs_cdnod.c:756-818 | forgetting a node takes exactly its name out of the map and changes no other node |
| CdnodeCache.FlushSucceedsExactly | source_product/9.10/sys.A.B9.10/cdfs/cdfs_cdnod.c:756-818 | a flush succeeds if and only if invalidation gives up all references to every node of the device in use |
| CdnodeCache.FlushForgets | source_product/9.10/sys.A.B9.10/cdfs/cdfs_cdnod.c:756-818 | after a flush that succeeds no name of the device is found any more |
| CdnodeCache.FlushKeeps | source_product/9.10/sys.A.B9.10/cdfs/cdfs_cdnod.c:756-818 | a flush, failed or not, keeps every name of another device, and every node that stays in use in the map with nothing changed but its count |
| CdnodeCache.FlushCounts | source_product/9.10/sys.A.B9.10/cdfs/cdfs_cdnod.c:756-818 | a flush that succeeds returns how many nodes of other devices in use stand for the device itself |
| CdnodeCache.CdCache.constructor | source_product/9.10/sys.A.B9.10/cdfs/cdfs_cdnod.c:100-160 | every ring is empty, every node alone and free in order |
| CdnodeCache.CdCache.CdFind | source_product/9.10/sys.A.B9.10/cdfs/cdfs_cdnod.c:169-188 | the walk of the hash ring finds exactly the entry of the map |
| CdnodeCache.CdCache.EcdGet | source_product/9.10/sys.A.B9.10/cdfs/cdfs_cdnod.c:198-287 | the rings, the free list and the nodes become those of the first free node after reclaiming |
| CdnodeCache.CdCache.CdEGet | source_product/9.10/sys.A.B9.10/cdfs/cdfs_cdnod.c:302-405 | the whole cache becomes that of `EGet`, and the outcome is the same |
| CdnodeCache.CdCache.FinishGet | source_product/9.10/sys.A.B9.10/cdfs/cdfs_cdnod.c:465-511 | a node that could not be read is unlinked, unnamed and freed; otherwise it is counted once |
| CdnodeCache.CdCache.CdPut | source_product/9.10/sys.A.B9.10/cdfs/cdfs_cdnod.c:663-671 | the whole cache becomes that of `Put` |
| CdnodeCache.CdCache.CdDrop | source_product/9.10/sys.A.B9.10/cdfs/cdfs_cdnod.c:680-710 | the whole cache becomes that of `Put`, without the unlock |
| CdnodeCache.CdCache.CdInactive | source_product/9.10/sys.A.B9.10/cdfs/cdfs_cdnod.c:716-738 | the node goes to the end of the free list and is no longer in use |
| CdnodeCache.CdCache.CdLock | source_product/9.10/sys.A.B9.10/cdfs/cdfs_cdnod.c:820-828 | a node in use is locked, or marked as wanted if someone else has it locked |
| CdnodeCache.CdCache.CdUnlock | source_product/9.10/sys.A.B9.10/cdfs/cdfs_cdnod.c:833-841 | the node is unlocked and no one waits for it; whoever did is woken, exactly if the node was wanted |
| CdnodeCache.CdCache.VnHold | source_product/9.10/sys.A.B9.10/cdfs/cdfs_vnops.c:849-853 | the count goes up by one |
| CdnodeCache.CdCache.Invalidate | source_product/9.10/sys.A.B9.10/cdfs/cdfs_cdnod.c:778-793 | the references given up are released one by one, the last of them freeing the node |
| CdnodeCache.CdCache.CdFlush | source_product/9.10/sys.A.B9.10/cdfs/cdfs_cdnod.c:756-818 | the whole cache becomes that of `FlushFrom`, with the count or -1 |
| FifoStream.WriteFacts | source_product/9.10/sys.A.B9.10/dux/dux_fifo.c:404-458 | what one pass of a write may do: it appends a prefix of the data, all of it or nothing if that is at most PIPSIZ bytes; it sleeps only if it must; a nonblocking first pass never sleeps |
| FifoStream.WriteOutcome | source_product/9.10/sys.A.B9.10/dux/dux_fifo.c:404-458 | exactly when a pass of a write is done, ends with EAGAIN or EPIPE, or sleeps, exactly how many bytes it appends, and what it announces |
| FifoStream.ReadFacts | source_product/9.10/sys.A.B9.10/dux/dux_fifo.c:284-346 | exactly what a pass of a read delivers and what it leaves: the front of the queue, as much as is wanted and there; of an empty FIFO, nothing, and then end of file without a writer, EAGAIN under FNBLOCK, 0 under FNDELAY alone, and sleep under neither |
| FifoStream.StepKeeps | source_product/9.10/sys.A.B9.10/dux/dux_fifo.c:267-548 | every pass of every call keeps the invariant of the FIFO and its callers |
| FifoStream.Always | source_product/9.10/sys.A.B9.10/dux/dux_fifo.c:267-548 | the invariant holds in every state of every interleaving |
| FifoStream.ReadsArePrefix | source_product/9.10/sys.A.B9.10/dux/dux_fifo.c:267-379 | the bytes read are a prefix of the bytes written; between them lie the at most PIPSIZ unread bytes |
| FifoStream.NoByteLostOrRepeated | source_product/9.10/sys.A.B9.10/dux/dux_fifo.c:425-453 | of every write call exactly the bytes accepted so far went in, in order |
| FifoStream.ShortWritesAreAtomic | source_product/9.10/sys.A.B9.10/dux/dux_fifo.c:431-453 | a write of at most PIPSIZ bytes goes in as one piece, side by side, or not at all: section 6.4.2 of IEEE Std 1003.1-1988 |
| FifoStream.NoLostWakeup | source_product/9.10/sys.A.B9.10/dux/dux_fifo.c:284-300 | a process sleeps only while another pass of its call would put it to sleep again with nothing changed, so not when the last writer or reader has closed; a reader and a writer never sleep at once; nonblocking calls never sleep |
| FifoStream.OpenKeepsSleepers | source_product/9.10/sys.A.B9.10/ufs/ufs_fifo.c:181-270 | opening and closing, with the wakeups of the first open and the last close, keep what is promised of sleepers |
| FifoBuffers.TakeFront | source_product/9.10/sys.A.B9.10/dux/dux_fifo.c:320-346 | bytes taken from one block at the read pointer are the oldest unread ones |
| FifoBuffers.StoreBack | source_product/9.10/sys.A.B9.10/dux/dux_fifo.c:475-520 | bytes stored in one block at the write pointer keep every unread byte, wherever it wraps |
| FifoBuffers.GetblkExactly | source_product/9.10/sys.A.B9.10/dux/dux_fifo.c:494-501 | a block is fetched without reading it if and only if no unread byte lies in it |
| FifoBuffers.ClearExactly | source_product/9.10/sys.A.B9.10/dux/dux_fifo.c:352-357 | a block read to its end holds no unread byte if and only if at most PIPSIZ - bsize bytes are left; the code drops the write only below that |
| FifoBuffers.Fifo.CacheRuns | source_product/9.10/sys.A.B9.10/dux/dux_fifo.c:267-548 | whatever the buffer cache writes back or forgets, the unread bytes are kept |
| FifoBuffers.Fifo.Fetch | source_product/9.10/sys.A.B9.10/dux/dux_fifo.c:494-507 | each of the three ways to get at a block keeps the unread bytes |
| FifoBuffers.Fifo.DropIfRead | source_product/9.10/sys.A.B9.10/dux/dux_fifo.c:352-357 | clearing the mark for a later write keeps the unread bytes and changes nothing but the buffer of the block read to its end |
| FifoBuffers.Fifo.CopyOut | source_product/9.10/sys.A.B9.10/dux/dux_fifo.c:303-364 | the loop delivers the oldest bytes, as many as asked for and present, and leaves the others; an empty FIFO starts again at 0 |
| FifoBuffers.Fifo.FifoRead | source_product/9.10/sys.A.B9.10/dux/dux_fifo.c:267-379 | one pass of a read does to the unread bytes, flags and result what `Read` says |
| FifoBuffers.Fifo.CopyIn | source_product/9.10/sys.A.B9.10/dux/dux_fifo.c:459-534 | the loop appends the data to the unread bytes |
| FifoBuffers.Fifo.FifoWrite | source_product/9.10/sys.A.B9.10/dux/dux_fifo.c:381-548 | one pass of a write does to the unread bytes, flags and result what `Write` says |
| CdfsGeometry.FindShift | source_product/9.10/sys.A.B9.10/cdfs/cdfs_vfsop.c:475-481 | the shift loop ends, and `1 << x == size` if and only if the size is a power of two times the smallest size |
| CdfsGeometry.Mount | source_product/9.10/sys.A.B9.10/cdfs/cdfs_vfsop.c:455-485 | all shifts of the geometry are those of its sizes if and only if the logical block has 512, 1024 or 2048 bytes; the block shift is right exactly for powers of two |
| CdfsGeometry.SectorToDeviceBlockExactly | source_product/9.10/sys.A.B9.10/cdfs/cdfs.h:328 | the shift by the ratio less one is the product with the ratio for the ratios 1 and 2 and no other |
| CdfsGeometry.RootIsFirstRecord | source_product/9.10/sys.A.B9.10/cdfs/cdfs_vfsop.c:497-507 | the cdnode number of the root is the address in bytes of its first record |
| CdfsGeometry.ShlIs | source_product/9.10/sys.A.B9.10/cdfs/cdfs.h:308 | a left shift is a product with a power of two |
| CdfsGeometry.ShrIs | source_product/9.10/sys.A.B9.10/cdfs/cdfs.h:325 | a right shift is a quotient by a power of two |
| CdfsRead.AddressIs | source_product/9.10/sys.A.B9.10/cdfs/cdfs_vnops.c:1459-1511 | the address of a byte, in ordinary arithmetic: after the attribute record, and for an interleaved file after as many units and gaps as there are whole units before it |
| CdfsRead.Unwrapped | source_product/9.10/sys.A.B9.10/cdfs/cdfs_vnops.c:1441-1456 | the differences of unsigned integers in the size computations come out as without wrapping around, also for a file that starts inside a sector |
| CdfsRead.ContiguousFinds | source_product/9.10/sys.A.B9.10/cdfs/cdfs_vnops.c:1411-1457 | for a file in one piece: sector and offset are those of the byte, the size is a chunk or up to the end of the file, and the read ahead is the next chunk if there is one; unsigned differences never wrap for good |
| CdfsRead.InterleavedFinds | source_product/9.10/sys.A.B9.10/cdfs/cdfs_vnops.c:1459-1541 | for an interleaved file: sector and offset are those of the byte in its unit, and the size ends at the chunk, the unit or the file |
| CdfsRead.ExtentHoldsTheFile | source_product/9.10/sys.A.B9.10/cdfs/cdfs_vnops.c:1347-1554 | every valid byte of the buffer is the byte of the file that belongs there, and the buffer ends only at a chunk, unit or file end |
| CdfsRead.FoundWhereItIsExactly | source_product/9.10/sys.A.B9.10/cdfs/cdfs_vnops.c:1499-1503 | the byte is found where ISO 9660 (section 6.4) puts it if and only if its unit starts on a sector or, in a file in one piece, its place from the start of the first sector does not wrap around 32 bits |
| CdfsRead.AlignedUnits | source_product/9.10/sys.A.B9.10/cdfs/cdfs_vnops.c:1499-1503 | all units start on sectors if the first does and the distance is whole sectors |
| CdfsRead.ReadAheadIsTheNextRead | source_product/9.10/sys.A.B9.10/cdfs/cdfs_vnops.c:1447-1457 | for a file in one piece what is read ahead is what the next sequential read will ask for, short of where places wrap around, and nothing past the end |
| CdfsRead.ReadAheadOnlyWithinOneChunk | source_product/9.10/sys.A.B9.10/cdfs/cdfs_vnops.c:418-446 | two reads name the same block to read ahead if and only if they are in the same chunk and it is not the last: a reader of whole chunks gets none |
| CdfsRead.InterleavedReadAhead | source_product/9.10/sys.A.B9.10/cdfs/cdfs_vnops.c:1511-1541 | for an interleaved file whose units lie whole sectors apart, what is read ahead begins where the next sequential read will, in the unit or in the next one |
| CdfsRead.InterleavedAheadSize | source_product/9.10/sys.A.B9.10/cdfs/cdfs_vnops.c:1511-1541 | and is as long as that read will be, unless the file ends before |
| CdfsRead.Cdnode.Copy | source_product/9.10/sys.A.B9.10/cdfs/cdfs_vnops.c:398-412 | the bytes copied out are the next bytes of the file, at most those left |
| CdfsRead.Cdnode.Ask | source_product/9.10/sys.A.B9.10/cdfs/cdfs_vnops.c:418-446 | the device is asked for whole sectors of one chunk; read ahead happens exactly if the block is the one remembered |
| CdfsRead.Cdnode.CdfsRd | source_product/9.10/sys.A.B9.10/cdfs/cdfs_vnops.c:324-467 | the bytes delivered are those from offset on, as many as `Delivered` says: none if 2 gigabytes or more are left, else up to the smaller of offset + resid and the size; offset and resid move by as many; nothing is asked for if nothing is delivered |
| CdfsRead.DemandedAre | source_product/9.10/sys.A.B9.10/cdfs/cdfs_vnops.c:398-406 | a byte is demanded if and only if it is within resid and before the end of the file |
| CdfsRead.DeliveredExactly | source_product/9.10/sys.A.B9.10/cdfs/cdfs_vnops.c:404-406 | all bytes demanded are delivered if and only if none is asked for, the offset is at the end, or less than 2 gigabytes are left |
| CdfsRead.ReadTwoGigabytes | source_product/9.10/sys.A.B9.10/cdfs/cdfs_vnops.c:404-406 | the first ten bytes of a file of 2 gigabytes are not delivered |
| CdfsRead.DeviceRd | source_product/9.10/sys.A.B9.10/cdfs/cdfs_vnops.c:369-383 | a read of the device delivers its bytes |
| CdfsRead.DeliversTheFile | source_product/9.10/sys.A.B9.10/cdfs/cdfs_vnops.c:324-467 | what is delivered is the file as ISO 9660 lays it out, in one piece up to where places wrap around, or in units that start on sectors |
| CdfsDir.StartsAreRecords | source_product/9.10/sys.A.B9.10/cdfs/cdfs_vnops.c:741-760 | the places met going through a directory are increasing and each holds a record |
| CdfsDir.NextStartIs | source_product/9.10/sys.A.B9.10/cdfs/cdfs_vnops.c:741-769 | the next place is that of the next record, the first after the last |
| CdfsDir.CursorIsACycle | source_product/9.10/sys.A.B9.10/cdfs/cdfs_vnops.c:741-769 | from any record, k steps lead to the record k further on, going round |
| CdfsDir.BackAfterOneRound | source_product/9.10/sys.A.B9.10/cdfs/cdfs_vnops.c:741-769 | the cursor is back for the first time after as many steps as there are records |
| CdfsDir.EveryRecordIsMet | source_product/9.10/sys.A.B9.10/cdfs/cdfs_vnops.c:741-769 | and has met every record |
| CdfsDir.NextInChunk | source_product/9.10/sys.A.B9.10/cdfs/cdfs_vnops.c:741-769 | how the code finds the next record from the buffer in hand is the next record of the directory |
| CdfsDir.Directory.GetDirBuffer | source_product/9.10/sys.A.B9.10/cdfs/cdfs_vnops.c:586-631 | the buffer holds the chunk of the directory with the cursor |
| CdfsDir.Directory.GetDirRec | source_product/9.10/sys.A.B9.10/cdfs/cdfs_vnops.c:647-774 | the record at the cursor and its cdnode number are returned and the cursor moves to the next record; a bad record leaves the cursor; a cursor beyond the end is reset |
| CdfsDir.FetchFacts | source_product/9.10/sys.A.B9.10/cdfs/cdfs_vnops.c:647-709 | what is answered for a cursor: EIO at the end of the directory, ENOENT at a record of less than 34 bytes, else the bytes of the record, or its first 70 |
| CdfsDir.FileNumberIs | source_product/9.10/sys.A.B9.10/cdfs/cdfs_vnops.c:711-737 | the number of a file, in ordinary arithmetic: (location + attribute record) * block size of the directory, plus the place of the record in it, on 32 bits |
| CdfsDir.DirectoryNumberIs | source_product/9.10/sys.A.B9.10/cdfs/cdfs_vnops.c:711-737 | the number of a subdirectory: (the location in the record, most significant byte first, + its attribute record) * block size on 32 bits, the number the mount would give it as a root |
| CdfsDir.FilesHaveTheirOwnNumbers | source_product/9.10/sys.A.B9.10/cdfs/cdfs_vnops.c:711-737 | two files of a directory never have one number |
| CdfsDir.Directory.SecondCddirEntry | source_product/9.10/sys.A.B9.10/cdfs/cdfs_vnops.c:1087-1121 | the second record is returned and the cursor left on a record |
| CdfsDir.Directory.FillPnum | source_product/9.10/sys.A.B9.10/cdfs/cdfs_vnops.c:1051-1077 | the number of the parent is that of the second record |
| CdfsDir.ParentNumberIs | source_product/9.10/sys.A.B9.10/cdfs/cdfs_vnops.c:1051-1077 | the number of the parent in ordinary arithmetic: (location + attribute record) * block size of the second record, on 32 bits |
| CdfsLookup.StrncmpDecides | source_product/9.10/sys.A.B9.10/sys/kern_subr.c:640-648 | the comparison of signed characters over the longer of the two lengths decides equality and order of the names |
| CdfsLookup.LessExactly | source_product/9.10/sys.A.B9.10/sys/kern_subr.c:640-648 | the order of the comparison: a name is less exactly if it has the less character, from -128 to 127, where the two first differ, the 0 at the end included |
| CdfsLookup.NoneAfter | source_product/9.10/sys.A.B9.10/cdfs/cdfs_vnops.c:1012-1014 | no entry after one whose name is larger matches |
| CdfsLookup.NoneBefore | source_product/9.10/sys.A.B9.10/cdfs/cdfs_vnops.c:1015-1026 | no entry before one whose name is smaller matches |
| CdfsLookup.OnlyMatch | source_product/9.10/sys.A.B9.10/cdfs/cdfs_vnops.c:949-999 | at most one entry matches, so a match is the one a linear scan finds |
| CdfsLookup.ShortcutBack | source_product/9.10/sys.A.B9.10/cdfs/cdfs_vnops.c:1012-1014 | going back to the start leaves out only entries that cannot match |
| CdfsLookup.ShortcutAhead | source_product/9.10/sys.A.B9.10/cdfs/cdfs_vnops.c:1015-1026 | stopping at the end leaves out only entries that cannot match |
| CdfsLookup.MoveKeeps | source_product/9.10/sys.A.B9.10/cdfs/cdfs_vnops.c:1001-1029 | in an ordered directory every move of the search leaves out only entries that cannot match |
| CdfsLookup.MoveStays | source_product/9.10/sys.A.B9.10/cdfs/cdfs_vnops.c:1001-1029 | in any directory the search is over exactly when the cursor is at the stopping point, and every move but its one turn brings it nearer |
| CdfsLookup.SearchFinds | source_product/9.10/sys.A.B9.10/cdfs/cdfs_vnops.c:895-1029 | in an ordered directory the search from any entry finds what a scan from the first one finds |
| CdfsLookup.FindsAsScanExactly | source_product/9.10/sys.A.B9.10/cdfs/cdfs_vnops.c:879-1029 | the search finds every name from every cursor as a linear scan does if and only if the names are in the order of the comparison, all after ".." |
| CdfsLookup.MustBeInOrder | source_product/9.10/sys.A.B9.10/cdfs/cdfs_vnops.c:1001-1029 | where every name is found as by a scan, any two entries are in the order of the comparison |
| CdfsLookup.VerdictMeans | source_product/9.10/sys.A.B9.10/cdfs/cdfs_vnops.c:949-988 | whether an entry is passed over, is the parent, matches, or comes before or after the name |
| CdfsLookup.PassedOverIs | source_product/9.10/sys.A.B9.10/cdfs/cdfs_vnops.c:907-923 | a record is passed over if and only if bit 2 or bit 7 is set in byte 25, or 24 in the HSG format; its name is as many bytes from 33 on as byte 32 says |
| CdfsLookup.Judge | source_product/9.10/sys.A.B9.10/cdfs/cdfs_vnops.c:907-988 | the record in hand is judged so |
| CdfsLookup.Search | source_product/9.10/sys.A.B9.10/cdfs/cdfs_vnops.c:895-1029 | in any directory the search ends, at the entry `SearchOf` says or at none, with the cursor on the next record |
| CdfsLookup.Lookup | source_product/9.10/sys.A.B9.10/cdfs/cdfs_vnops.c:790-1043 | the answer is that of the entry the search ends at; in an ordered directory it is that of a linear scan from the first record, whatever record the cursor is on; the cursor is left on a record |
| CdfsLookup.FullRound | source_product/9.10/sys.A.B9.10/cdfs/cdfs_vnops.c:895-1029 | a name that begins before "." is searched for through one whole round: in any order of names the first match from the cursor on is found, and nothing only if there is none |
| CdfsLookup.AnswerFacts | source_product/9.10/sys.A.B9.10/cdfs/cdfs_vnops.c:790-1043 | in an ordered directory: exactly when the answer is that the name is too long, the directory itself, the parent, or an entry, which is if one has the name and is not passed over |
| CdfsIsoOrder.IsoOrderIsNotEnough | source_product/9.10/sys.A.B9.10/cdfs/cdfs_vnops.c:879-893 | entries in the order of ISO 9660 section 9.3 but not of the comparison; a name that is there is found from the first entry and not from the last |
| CdfsIsoOrder.LookUpTwice | source_product/9.10/sys.A.B9.10/cdfs/cdfs_vnops.c:790-1043 | a directory in that order, on the medium, in which two lookups of the same name find it and then do not |
| CdfsDirents.AdjustedIsDistance | source_product/9.10/sys.A.B9.10/cdfs/cdfs_vnops.c:1754-1775 | the adjusted length is the distance from this entry to the next |
| CdfsDirents.CopyName | source_product/9.10/sys.A.B9.10/cdfs/cdfs_vnops.c:1828-1830 | the name copied down is the name that was there |
| CdfsDirents.PutNumbers | source_product/9.10/sys.A.B9.10/cdfs/cdfs_vnops.c:1738-1797 | number, length and name length of the entry come from the record, though they overwrite it |
| CdfsDirents.PutName | source_product/9.10/sys.A.B9.10/cdfs/cdfs_vnops.c:1795-1833 | the name, or "." or "..", ends with a 0, with the number that goes with it |
| CdfsDirents.PutEntry | source_product/9.10/sys.A.B9.10/cdfs/cdfs_vnops.c:1725-1842 | a record becomes its entry if it fits, and no byte beyond the entry changes |
| CdfsDirents.EntryIsShort | source_product/9.10/sys.A.B9.10/cdfs/cdfs_vnops.c:1743-1753 | an entry ends before the next one begins |
| CdfsDirents.StretchLast | source_product/9.10/sys.A.B9.10/cdfs/cdfs_vnops.c:1848-1861 | the length of the last entry grows by the bytes left over, and by two if its record does not end on a multiple of four |
| CdfsDirents.EndSector | source_product/9.10/sys.A.B9.10/cdfs/cdfs_vnops.c:1848-1861 | the last entry of a sector reaches to its end; a sector without a record stretches the entry before it |
| CdfsDirents.RecsAreStarts | source_product/9.10/sys.A.B9.10/cdfs/cdfs_vnops.c:1714-1732 | the records the loops meet are, in a directory as ISO 9660 has it, its records |
| CdfsDirents.CddirToDir | source_product/9.10/sys.A.B9.10/cdfs/cdfs_vnops.c:1653-1864 | the conversion succeeds if and only if the buffer is as demanded, and then every record has become its entry, which reaches as far as `Reach` says; sectors may have any number of records, none but in the first |
| CdfsDirents.DemandsAre | source_product/9.10/sys.A.B9.10/cdfs/cdfs_vnops.c:1725-1842 | what the conversion demands, byte by byte: even lengths, a first record named 0, and a parent known if a record is named 1 |
| CdfsDirents.DotEntriesAre | source_product/9.10/sys.A.B9.10/cdfs/cdfs_vnops.c:1795-1827 | the converted directory, byte by byte: entry 0 is "." with the number of the directory, entry 1 is ".." with that of the parent |
| CdfsDirents.TilesExactly | source_product/9.10/sys.A.B9.10/cdfs/cdfs_vnops.c:1848-1861 | an entry reaches to the next if and only if that begins in the same sector or the next, or the bytes of the record end on a multiple of four |
| CdfsDirents.AnEmptySectorOvershoots | source_product/9.10/sys.A.B9.10/cdfs/cdfs_vnops.c:1848-1861 | three sectors, the second without a record: the entry of the first reaches two bytes into that of the third |
| CdfsDirents.ConversionTiles | source_product/9.10/sys.A.B9.10/cdfs/cdfs_vnops.c:1653-1864 | a reader who goes by the lengths finds one entry for each record, in order, up to the end of the buffer, if and only if every entry reaches to the next |
| CdfsDirents.DirectoryTiles | source_product/9.10/sys.A.B9.10/cdfs/cdfs_vnops.c:1653-1864 | which they do in a directory as ISO 9660 has it |
| CdfsDirents.PlacesAreAligned | source_product/9.10/sys.A.B9.10/cdfs/cdfs_vnops.c:1743-1755 | every entry is at a place divisible by four |
| CdfsDirents.NumbersAgreeWithLookup | source_product/9.10/sys.A.B9.10/cdfs/cdfs_vnops.c:1787-1793 | the number of an ordinary entry is the one `get_dir_rec` gives the record |
| CdfsNumbers.DotIsListed | source_product/9.10/sys.A.B9.10/cdfs/cdfs_vnops.c:1801-1811 | "." is listed first, with the address in bytes of the directory's first record on 32 bits |
| CdfsNumbers.DotDotIsListed | source_product/9.10/sys.A.B9.10/cdfs/cdfs_vnops.c:1817-1831 | ".." is listed second, with the number that looking ".." up answers |
| CdfsNumbers.ListedAsLookedUp | source_product/9.10/sys.A.B9.10/cdfs/cdfs_vnops.c:790-1043 | every other entry is listed with its own name, and looking that name up in an ordered directory answers the number listed |
| CdfsNumbers.NamesHaveTheirOwnNumbers | source_product/9.10/sys.A.B9.10/cdfs/cdfs_vnops.c:711-737 | two names of files that lookups answer with one number are one name, of one entry |
| CdfsListing.NextGoesOn | source_product/9.10/sys.A.B9.10/cdfs/cdfs_vnops.c:1217-1233 | a call goes on after the last entry returned and passes over nothing that has a number |
| CdfsListing.CallBegins | source_product/9.10/sys.A.B9.10/cdfs/cdfs_vnops.c:1217-1271 | a call begins with the first entry at or after the offset that has a number, and leaves the offset after the name of the last one returned, short of the next; if there is none, at the end |
| CdfsListing.EveryEntryOnce | source_product/9.10/sys.A.B9.10/cdfs/cdfs_vnops.c:1145-1276 | repeated calls return every entry that has a number exactly once, in order |
| CdfsListing.TheEndComes | source_product/9.10/sys.A.B9.10/cdfs/cdfs_vnops.c:1145-1276 | every call before the end returns something new |
| CdfsReaddir.SkipEntries | source_product/9.10/sys.A.B9.10/cdfs/cdfs_vnops.c:1217-1221 | the first entry at or after the offset that has a number is found |
| CdfsReaddir.TakeEntries | source_product/9.10/sys.A.B9.10/cdfs/cdfs_vnops.c:1238-1257 | as many entries as fit are counted, at least one |
| CdfsReaddir.ReturnEntries | source_product/9.10/sys.A.B9.10/cdfs/cdfs_vnops.c:1259-1271 | the bytes returned are those entries, the last shortened to what it needs |
| CdfsReaddir.WindowRecords | source_product/9.10/sys.A.B9.10/cdfs/cdfs_vnops.c:1189-1209 | the records of a window of whole sectors are those of the directory |
| CdfsReaddir.DirectoryTable | source_product/9.10/sys.A.B9.10/cdfs/cdfs_vnops.c:1145-1276 | the entries of a directory tile it, each with room for its name |
| CdfsReaddir.CdfsReaddir | source_product/9.10/sys.A.B9.10/cdfs/cdfs_vnops.c:1145-1276 | a call returns the entries, and leaves the offset, that the listing demands, and as many as fit or are in the window read; the numbers of "." and ".." are those of the directory and its parent; a buffer smaller than one struct direct is an error |
| CdfsReaddir.FullMeans | source_product/9.10/sys.A.B9.10/cdfs/cdfs_vnops.c:1178-1271 | a call for the place of an entry leaves out the entry after the last one returned only if the buffer has no room for it or it begins the fifth sector |
| CdfsReaddir.ListAll | source_product/9.10/sys.A.B9.10/cdfs/cdfs_vnops.c:1145-1276 | calls with any buffer sizes, from the start until one returns nothing, come to an end and return every entry that has a number exactly once |
| ClockSync.RootAhead | source_product/9.10/sys.A.B9.10/dux/clocksync.c:277-284 | with the root ahead the error one period later is above -TICKS and at most 0 |
| ClockSync.RootBehind | source_product/9.10/sys.A.B9.10/dux/clocksync.c:284 | with the root behind it is at least 0 and below TICKS |
| ClockSync.FarBehind | source_product/9.10/sys.A.B9.10/dux/clocksync.c:285-286 | at the smallest tick the error rises by a period less TICKS |
| ClockSync.SteeredRightExactly | source_product/9.10/sys.A.B9.10/dux/clocksync.c:270-286 | the root being ahead, the error goes to its bound if and only if the 32-bit sum does not wrap around; otherwise the clock is slowed down |
| ClockSync.FarIsTheLimit | source_product/9.10/sys.A.B9.10/dux/clocksync.c:270-273 | 2146 is the largest difference in seconds for which the difference in microseconds always fits an int |
| ClockSync.StaysSmall | source_product/9.10/sys.A.B9.10/dux/clocksync.c:268-291 | an error below TICKS stays below |
| ClockSync.Converges | source_product/9.10/sys.A.B9.10/dux/clocksync.c:268-291 | from any error that does not wrap around, 18 synchronizations bring it below TICKS, for good |
| ClockSync.NoSecondCrossing | source_product/9.10/sys.A.B9.10/dux/clocksync.c:135-140 | with exact ticks the adjustment for missed messages never makes the error cross zero again, unless it was zero |
| ClockSync.AMissedMessageCostsTheError | source_product/9.10/sys.A.B9.10/dux/clocksync.c:135-140 | after one missed message the error is as large again with the other sign, within TICKS and what a tick is off |
| ClockSync.TimeGoesOnExactly | source_product/9.10/sys.A.B9.10/dux/clocksync.c:135-140 | the tick stays above zero, with messages missed, if and only if the sum did not wrap around or the number missed is even |
| ClockSync.DriftsSlowly | source_product/9.10/sys.A.B9.10/dux/clocksync.c:135-140 | a small error grows by at most TICKS in two periods without messages |
| ClockSync.WrapEndsInAJump | source_product/9.10/sys.A.B9.10/dux/clocksync.c:270-273 | after a wrap-around the next synchronization sets the clock |
| ClockSync.Workstation.ServeSyncReq | source_product/9.10/sys.A.B9.10/dux/clocksync.c:258-291 | the clock is set if it is more than 2146 seconds off, and otherwise steered by the error; the timeout is set |
| ClockSync.Workstation.AdjustOldTick | source_product/9.10/sys.A.B9.10/dux/clocksync.c:135-140 | the adjustment changes sign and is added to the tick |
| ClockSync.Workstation.MissedSyncs | source_product/9.10/sys.A.B9.10/dux/clocksync.c:135-140 | over any number of timeouts the tick goes to and fro between two neighbours |

## Left out

- PidCluster.StepOk: `dux_getnewpid` starts over when all its IDs turn out to be taken; the model makes each pass a step of its own, because with every chunk full the passes need not end.
- PidCluster.AlwaysOk: the flags of the handshake and the waiting processes are values of a state machine, not fields of a class, because their interleaving is the point.
- CdnodeCache.CdCache.CdEGet: sleeping for a locked node is an outcome of the call; the caller calls again.
- CdfsRead.InterleavedReadAhead: what is read ahead of an interleaved file whose units do not lie whole sectors apart is not stated, nor where past the end of the data it may lie.
- CdfsRead.Cdnode.CdfsRd: I/O errors and short reads of the device are not modelled.
- CdfsDir.Directory.GetDirRec: a record that claims to reach beyond its sector is not modelled.
- CdfsLookup.Lookup: access checks, the name cache and the cdnode of the name found are not modelled; the answer is its number.
- CdfsDirents.CddirToDir: a record that does not end in its sector, or has no name, is not modelled; a missing parent is an error of the conversion.
- CdfsReaddir.CdfsReaddir: memory for the buffer and the vector of the caller are not modelled.
- ClockSync.Workstation.ServeSyncReq: the measured delay of the network is part of the time received; its statistics are not modelled.
- ClockSync.Workstation.AdjustOldTick: the narrow type of the adjustment is not modelled, because its value is 1 or -1.
- Masks with a power of two less one are written as the remainder they compute.
- The synchronous mode of FIFOs, signals, remote invalidation the messages that open them, and the waiting of an open for its partner.
- Case conversion, version numbers, multiprocessor, measurement and other variants that conditional compilation selects.
- The transport, `sleep` and `wakeup`, the buffer cache beyond what a caller may see of it, and memory.
- Dates, permissions, statistics, tracing, device switches, drivers, boot code and kernel configuration.
- Lock lists, cluster membership and remote execution, whose main parts are in files that are not part of this model.
