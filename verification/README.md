# Verified model of a fault-tolerant ML cluster

This project models the logic of a small cluster that serves machine-learning models, and proves what its
protocols and data structures are for. The cluster has these layers:

- **SDFS**, a replicated, versioned file store: a consistent hash ring (`HashRing.dfy`, with its set-level meaning
  in `Placement.dfy`), the file table (`FileTable.dfy`), the table with the disk and the delete pool over whole runs
  (`FileStore.dfy`), one server's Converge, Recycle, Read, Write, Delete and FetchSequence (`SdfsServer.dfy`),
  re-replication over whole runs (`Replication.dfy`), what it keeps of client writes (`Durability.dfy`) and which
  changes one round of it repairs (`Coverage.dfy`), reads and writes by quorum (`Quorum.dfy`), and the write
  sequences across leader changes (`Sequencer.dfy`);
- **the ring failure detector** (`Ring.dfy`);
- **the coordinator and its workers**: the atomic steps (`Coordinator.dfy`), what each changes
  (`CoordinatorEffects.dfy`) and keeps (`CoordinatorInv.dfy`), the program that makes them (`Scheduler.dfy`), all
  interleavings with the workers' loops (`InferenceRun.dfy`), the life of jobs, workers and outputs over whole runs
  (`Pipeline.dfy`), and runs that crash (`CrashRuns.dfy`);
- **the fair-time allocators** (`GlobalRalloc.dfy`, `LocalRalloc.dfy`);
- **the LFU cache** over intrusive linked lists (`LinkedList.dfy`, `LfuCache.dfy`) with a simple reference model
  (`LfuSpec.dfy`).

Code that updates fields in place is a class or a loop proved against a specification function; protocols are state
machines whose invariants hold in every state of every run. Verify everything with `dafny verify dfyconfig.toml`.

Modelling decisions:

- The hash is an arbitrary function parameter; its bitwise-or probing and the reduction modulo 1024 are modelled.
  Replication and quorum results assume pairwise distinct home slots, because members are looked up by home slot
  (sdfs/hash_ring.go:103) even when probing moved them (sdfs/hash_ring.go:40).
- Network calls are steps that succeed or do not happen. Clocks are parameters. Floating-point numbers are reals.
- A crash of the original (an index outside a job's batches, a nil dereference) is an absent result or `ok == false`,
  so that absence of crashes is a theorem and not an assumption.
- A version's name is an arbitrary injective function of file and sequence (utils/helper.go:43-45 brackets the three
  parts, the last two of which contain no bracket). Names are used again when a file is recycled and pushed back;
  `FileStore.dfy` says what that does to the data. The data clients write is an arbitrary function of file and
  sequence. A server's cache is the reference value that the linked lists of `LfuCache.dfy` are proved to compute.
- A Put or Delete reaches some of the file's replicas, any number of them; a Put succeeds when it reached the write
  level. A replica's table lists versions; a push carries all versions of a file to a member that lists none.
- A membership change and the signal it sends to every server are one atomic step. A server clears its signals at the
  end of a Converge (sdfs/server.go:268), also those that arrive while it transfers; such overlapping changes are not
  modelled, as Replication lets the next change start only when every member is stable.
- A schedule and the assignments it leads to are separate steps: an assignment is planned while the worker is idle,
  its request built by two reads of the active jobs without the lock, accepted by the worker, and committed into the
  record captured at planning, if that is still registered, so that schedules overlap
  (idunno/coordinator.go:297-353).

Where the code and its promises differ, the model follows the code:

- The global allocator documents a minimal pairwise difference (ralloc/ralloc.go:17-22). It keeps one prefix per
  cell, so on the rates the program computes, which start at zero and never fall, this holds exactly when there are
  at most two jobs or at most one resource (`OptimalExactly`), with half-done jobs as a counterexample for every
  larger size (`HalfDoneNotOptimal`).
- One round of Converge brings a file to all its replicas exactly when it is repairable: the new primary stores it, or
  the old primary does, right behind the new one, which is alone in lacking it (`CoverageExact`, for arbitrary changes
  and whoever stores the file). For a file at all its old replicas one join or up to three failures are fine, two joins
  into one arc are not (`TwoJoinsSameArc`). A Put reports success after three of four replicas. When it missed the
  primary, no later failure of others is repaired (`MissedPrimary`); it survives exactly the changes that displace fewer
  replicas than the write level (`SurvivalExact`). A version missed by a replica that lists others of the file is never
  brought to it (`NeverCaughtUp`).
- The assignment of scheduled workers does not check that they are still idle (idunno/coordinator.go:341-344), and the
  request for one reads a job that may have been flushed since (idunno/coordinator.go:322-323). Holder results need the
  first check; `CommitKeepsIff` says exactly when the unchecked write is harmless. Without the checks the coordinator
  crashes in two ways: it indexes outside a job's batches (`CrashHappens`) or dereferences a job that is gone
  (`FlushCrashHappens`). Over all runs `CrashesExactly`, `CrashCauses`, `MisfitThenFailure` and `FlushThenBuild` say
  exactly when. Schedules, outputs, job life cycle and tagging are proved without the checks.
- A file recycled by a server and pushed back to it before its delete pool has drained can lose its data while its
  versions stay listed (`PushedBackTooSoon`), and a version whose disk write fails stays listed too; `LostExactly` is
  the exact condition, and `DataNeverMissing` what holds over every run that meets it.
- A batch's status may go back from completed to available, so only stored outputs are claimed to be permanent.
- Write counts are truncated to 32 bits; sequences are increasing exactly while no counter passes that range
  (`SequencesIncrease`), and there are runs that pass it (`WrapHappens`).
- The failure detector's comment mentions four successors, the code watches six; `CompleteExactly` is about six.
- A worker whose job was ended while it builds a request may send an output with an empty job id
  (`UntaggedHappens`); the coordinator refuses it. Every other output travels under its own job's id.

## Model

| member | source | states |
|---|---|---|
| `Api.DecimalReads` | api/proto_utils.go:13-15 | the text of a port is digits that read back to the number, without a leading zero |
| `Api.AddressExact` | api/proto_utils.go:13-15 | two members have the same address exactly when host and port agree |
| `Placement.JoinStability` | sdfs/hash_ring.go:25-71 | adding one process gives every key a replica set inside its old one plus that process, for every replica count and ring size |
| `Placement.FailStability` | sdfs/hash_ring.go:25-71 | removing any processes keeps every surviving old replica of every key |
| `Placement.JoinerPrecedesOldRoute` | sdfs/server.go:243-249 | a joiner that becomes a key's primary lands directly in front of the old primary, which is why Converge need only look one member back |
| `Placement.JoinCoverable` | sdfs/server.go:203-274 | one join leaves every key repairable by one round of Converge |
| `Placement.FailCoverable` | sdfs/server.go:203-274 | up to three simultaneous failures with a survivor leave every key repairable |
| `Placement.FourFailuresNotCoverable` | sdfs/server.go:203-274 | losing all four replicas of a key at once, with members left, is not repairable |
| `Placement.TwoJoinsSameArc` | sdfs/server.go:245-249 | two joins into one arc make every key routed past both of them unrepairable, whatever the rest of the ring |
| `Placement.ReplicaCount` | sdfs/hash_ring.go:51-71 | a key has exactly r replicas, or all members when there are fewer |
| `Placement.JoinDisplaces` | sdfs/hash_ring.go:25-71 | one join takes at most one member out of a key's replica set, and none while there are fewer members than replicas |
| `Placement.FailDisplaces` | sdfs/hash_ring.go:25-71 | failures take only the failed out of a key's replica set |
| `HashRings.EverySlot` | sdfs/hash_ring.go:52-53 | keys fall on exactly the slots below 1024 |
| `HashRings.BitOrBits` | sdfs/hash_ring.go:33-36 | the probing offset sets exactly the binary digits set in the hash or in the offset |
| `HashRings.AssignedFree` | sdfs/hash_ring.go:29-47 | a process takes its home slot if that is free, and else the first free slot that probing meets |
| `HashRings.RingUnique` | sdfs/hash_ring.go:25-49 | two rings of the same members are equal: the result of Refresh does not depend on list order |
| `HashRings.AssignedHome` | sdfs/hash_ring.go:29-47 | without colliding home slots the probing loop moves nobody |
| `HashRings.SortedIsRing` | sdfs/hash_ring.go:40-48 | sorting the assigned nodes of processes with distinct home slots gives the strictly increasing ring of exactly those processes at their home slots |
| `HashRings.HashRing.Refresh` | sdfs/hash_ring.go:25-49 | the probing and sorting loops leave a sorted permutation of the assigned nodes and, for distinct home slots, the unique ring of the given processes |
| `HashRings.HashRing.FindReplicas` | sdfs/hash_ring.go:51-71 | the loops return the clockwise walk of min(n, count) members from the key's slot, on any ring |
| `HashRings.HashRing.FindSuccessors` | sdfs/hash_ring.go:73-91 | the loop returns the walk after the process's home slot up to the process itself; empty when no node sits at that slot |
| `HashRings.HashRing.FindPredecessor` | sdfs/hash_ring.go:93-100 | a predecessor exactly when the ring has at least two members and the home slot is occupied; on a ring it is the nearest member behind |
| `HashRings.HashRing.FindProcessIndex` | sdfs/hash_ring.go:102-112 | first node at the process's home slot, or -1 |
| `HashRings.HashRing.GetRouteProcess` | sdfs/hash_ring.go:114-128 | no process on an empty ring, else the first node at or after the key's slot, wrapping around |
| `HashRings.RouteMeaning` | sdfs/hash_ring.go:114-128 | on a ring the routed process is the member nearest clockwise from the key |
| `HashRings.WalkMeaning` | sdfs/hash_ring.go:55-68 | the first c members of the walk are the c members nearest clockwise from the key, wrap-around included |
| `HashRings.ReplicasMeaning` | sdfs/hash_ring.go:51-71 | the replica list has length min(n, count), no duplicates, and is exactly the set of the count nearest members |
| `HashRings.SuccessorsAreWalk` | sdfs/hash_ring.go:81-88 | stopping at the process itself yields the next min(count, n-1) members |
| `HashRings.ReplicasAreRouteThenSuccessors` | sdfs/hash_ring.go:51-128 | the four replicas of every key are its routed process followed by FindSuccessors of that process with count 3 |
| `HashRings.RingJoinStability` | sdfs/hash_ring.go:25-71 | replica lists of the rings before and after one join: every new entry is an old entry or the joiner |
| `HashRings.RingLeaveStability` | sdfs/hash_ring.go:25-71 | replica lists before and after removals: every surviving old entry is still there |
| `FileTables.SequenceOrder` | api/proto_utils.go:30-41 | Less is a strict total order and Equal is its equality |
| `FileTables.DuplicateExactly` | sdfs/file_table.go:53-71 | a write is a duplicate exactly when its write id or its sequence is taken |
| `FileTables.FileTable.Get` | sdfs/file_table.go:43-51 | absent exactly when there are fewer versions than asked for, else the version-th largest sequence; the stored versions are only permuted |
| `FileTables.FileTable.Insert` | sdfs/file_table.go:53-71 | accepts exactly the writes whose write id and sequence are both new, appends those, and changes no other file |
| `FileTables.SortedAnswer` | sdfs/file_table.go:49-50 | in the sorted list the element v places from the end is the v-th largest |
| `FileTables.ReceivedIsSet` | sdfs/file_table.go:43-71 | whatever the order, the retransmissions and the reads in between, which sort the lists, a table stores each write of a consistent set exactly once |
| `FileTables.ReplicasAgree` | sdfs/file_table.go:43-71 | two tables that received the same writes, with any reads in between, answer Get(file, v) identically for every v, namely the v-th largest sequence written |
| `FileStores.StepKeeps` | sdfs/service.go:44-105 | accepted and repeated writes, disk writes, reads, deletions, and the two halves of emptying the delete pool keep every listed version with a file and out of the pool, if no new version arrives under a pooled name and no disk write fails |
| `FileStores.GenuineStep` | sdfs/service.go:13-80 | with requests that bring what was written under their sequence, every file on disk, pending write and cache entry under a version's name is that version's data, and the cache does not crash |
| `FileStores.CachePutGenuine` | sdfs/service.go:64-67 | putting a version's data into the cache never lengthens an entry, so the eviction loop never runs dry |
| `FileStores.DataNeverMissing` | sdfs/server.go:156-201 | over every run whose new versions never arrive under a name waiting to be deleted and whose disk writes succeed, in any interleaving of requests and disk, each version in the table has its data, the very data written under its sequence, on disk and in the cache, and the next request does not crash the cache |
| `FileStores.LostExactly` | sdfs/service.go:44-80 | from a good state, the data of an arriving version can be lost by background work alone if and only if the version's name is in the delete pool or being removed, or disk writes can fail |
| `FileStores.FailureCanLose` | sdfs/service.go:70-75 | a version stays listed when its disk write fails: every new version can be left with a missing or cut-off file |
| `FileStores.PushedBackTooSoon` | sdfs/server.go:156-201 | every version of every file that is recycled and pushed back before the pool has drained can be listed without its data |
| `FileStores.ReorderKeeps` | sdfs/file_table.go:49-50 | sorting the stored versions changes neither what is listed nor that no two versions of a file clash |
| `Replication.StepKeepsInv` | sdfs/server.go:156-274 | membership changes of any size, snapshots, single delivered pushes, ends of Converge, Recycle, and Puts and Deletes that reach any part of the replicas keep the replication invariant |
| `Replication.RunInv` | sdfs/server.go:156-274 | the invariant holds in every state of every run, members interleaving freely within an epoch |
| `Replication.SurvivesExactly` | sdfs/server.go:156-274 | in every state of every run, whatever the change, a file is at one of its replicas if and only if a member that stored it when the epoch began is now one of them |
| `Replication.EpochRepairs` | sdfs/server.go:203-348 | in every run, when all members are stable: a replica that had the file has the versions it had, the others have those of the new primary, or of the old one, or nothing, as the tables at the change decide; a repairable file is at all its replicas |
| `Replication.ReplicasAreRouteAndSuccessors` | sdfs/server.go:225-264 | the primary plus the members it pushes to are exactly the replica set |
| `Durability.NoFileLost` | sdfs/server.go:156-274 | over every run, once all replicas of a file store it, then while it is not deleted and changes are coverable for its key, some replica stores it in every state, and all its replicas whenever all members are stable |
| `Durability.NoVersionLost` | sdfs/server.go:156-348 | the same for a single version that all members listing the file list, whatever becomes of newer versions |
| `Durability.FullPutCovers` | sdfs/client_action.go:38-48 | a Put that reaches every replica is where this begins |
| `Durability.DeleteClears` | sdfs/service.go:82-105 | a Delete takes the file from exactly the replicas it reached, no other file from anybody; after a successful one no replica stores it |
| `Durability.PutAdds` | sdfs/service.go:44-60 | a Put adds exactly its version, at exactly the replicas it reached |
| `Durability.SmallChangesSpare` | sdfs/server.go:203-274 | one join, or up to three failures with a survivor, is such a change for every file |
| `Durability.PutSurvives` | sdfs/client_action.go:50-61 | over every run, a Put that reached the write level is still at a replica as long as fewer of the replicas it reached than that level have left the file's replica set |
| `Durability.SurvivalExact` | sdfs/client.go:27-31 | every successful Put survives a change if and only if it displaces fewer replicas than the write level |
| `Durability.SurvivalInNumbers` | sdfs/client.go:27-31 | on three members or more a successful Put survives exactly the changes that displace at most two of its file's replicas; on fewer those that leave one |
| `Durability.SmallChangesSurvived` | sdfs/client.go:27-31 | one join, or fewer failures than the write level, is survived by every successful Put |
| `Durability.NeverCaughtUp` | sdfs/service.go:122-143 | over every run, a replica that lists a file without one of its versions gets that version from no push |
| `Durability.RecycledExactly` | sdfs/server.go:178-200 | when every member is stable and the file durable, a member that recycles stores it exactly when it is one of its replicas |
| `Durability.EpochEnds` | sdfs/server.go:203-274 | from every reachable state a run goes on to a state in which every member is stable, on the same membership: the promises for settled clusters are never empty |
| `Coverage.CoverageExact` | sdfs/server.go:203-274 | for an arbitrary membership change and whoever stores the file, every order of Converge calls brings it to its whole new replica set if and only if it is repairable |
| `Coverage.LateOrder` | sdfs/server.go:203-274 | for a file that is not repairable, an order of Converge calls and a replica left without it |
| `Coverage.MissedPrimary` | sdfs/client_action.go:38-61 | a Put that missed only the primary succeeds, yet after a failure of others, however coverable, no order of Converge calls brings the file to anyone |
| `Coverage.NothingMoves` | sdfs/server.go:203-274 | when neither the new primary stores the file nor the old one from right behind it, no sequence of Converge calls changes who stores it |
| `SdfsServers.PlanIsPushes` | sdfs/server.go:214-264 | the lists Converge computes are exactly the pushes of the protocol step |
| `SdfsServers.SuccessorsMeaning` | sdfs/server.go:235-236 | on a ring FindSuccessors(self, 3) is the set of the three members after the server |
| `SdfsServers.SdfsServer.BeginConverge` | sdfs/server.go:205-254 | acts exactly when signalled, with members and no pending expiration; then refreshes the ring and plans exactly the protocol's pushes from the old ring to the new one |
| `SdfsServers.SdfsServer.MakePlan` | sdfs/server.go:225-254 | the main files, predecessor, routed files and successors decided on the refreshed ring |
| `SdfsServers.SdfsServer.FilesRoutedTo` | sdfs/server.go:215-220 | the loop collects, without duplicates, exactly the files the ring routes to a process |
| `SdfsServers.SdfsServer.BulkLookup` | sdfs/service.go:122-143 | returns exactly the asked-for files the server lacks |
| `SdfsServers.SdfsServer.TransferFiles` | sdfs/server.go:276-347 | the peer gains exactly the listed files it lacked, each with the versions readable here and their data, keeps its own unchanged, and stays in order unless a new name waits in its delete pool; with all data here whole files arrive; what is sent and kept stays the clients' data, and then the peer's cache does not crash |
| `SdfsServers.SdfsServer.TransferFile` | sdfs/server.go:308-343 | sends the readable versions in order as write requests: a peer without the file copies versions and data, one that has them changes nothing |
| `SdfsServers.ReceivedInv` | sdfs/server.go:276-347 | a server that received pushes none of which names a version in its delete pool still has the data of everything it lists |
| `SdfsServers.CopyMissing` | sdfs/server.go:276-347 | sending the versions of a file to a table without it copies them in order |
| `SdfsServers.ResendKnown` | sdfs/server.go:276-347 | resending versions a table has changes nothing |
| `SdfsServers.SdfsServer.Recycle` | sdfs/server.go:156-201 | deletes exactly the oldest name of the pool from disk, then, when stable, drops exactly the files whose replica set does not contain the server, each once, and appends exactly their names to the rest of the pool: a run of the store steps |
| `SdfsServers.SdfsServer.ScanTable` | sdfs/server.go:180-200 | the table scan keeps exactly the files replicated here and queues the names of each dropped file once |
| `SdfsServers.SdfsServer.Write` | sdfs/service.go:44-80 | inserts the version, caches it when it has at most ten megabytes, and stores its data, or leaves all as it was on a duplicate; reports a failed disk write, after which the version stays listed; crashes exactly when the cache does, which it does not for the data written under the sequence; the table stays free of clashes |
| `SdfsServers.SdfsServer.Read` | sdfs/service.go:13-42 | answers with the sequence of the version-th newest version and, from the cache first, where that counts as a use, or else from disk, the very data written under it; never with nothing while the version is listed and the store in order |
| `SdfsServers.SdfsServer.Delete` | sdfs/service.go:82-105 | drops the file and queues all its names, or does nothing for an unknown file; the table stays free of clashes |
| `SdfsServers.SdfsServer.FetchSequence` | sdfs/service.go:145-164 | refuses exactly while unsettled; otherwise increments the counter and stamps it with the leader's join time and the 32-bit count |
| `Quorums.ConsistencyLevel` | sdfs/client.go:61-78 | two for a Get, three for a Put, four for a Delete or a List, but never more than there are members |
| `Quorums.PutFinishesExactly` | sdfs/client.go:27-31 | a Put can report success exactly when three replicas acknowledged it, or all members of a smaller ring |
| `Quorums.GetFinishesExactly` | sdfs/client.go:27-31 | a Get can return exactly when two replicas answered, or the only member: any two of four may stay silent |
| `Quorums.EveryReplicaAnswers` | sdfs/client.go:27-31 | a Delete or a List succeeds exactly when every replica of the file answered: four, or all members of a smaller ring |
| `Quorums.CollectAcks` | sdfs/client_action.go:49-81 | succeeds exactly when the required acks come before the timeout, and then with those acks in order of arrival |
| `Quorums.LatestReply` | sdfs/client_action.go:84-100 | the running maximum returns one of the replies, sequence and data from the same one, none of the others newer; nothing exactly for no replies |
| `Quorums.QuorumsOutnumber` | sdfs/client.go:28-31 | min(2,n) + min(3,n) > min(4,n) for every ring size n >= 1 |
| `Quorums.QuorumsMeet` | sdfs/client_action.go:36-81 | the acks of a successful Put and the acks a Get waited for share a replica |
| `Quorums.DeliverStores` | sdfs/service.go:44-60 | after a request reached a replica its table has that version, also when the request was dropped as a duplicate; nothing else changes |
| `Quorums.AnswerIsPut` | sdfs/service.go:13-42 | every answer pairs the sequence and the data of one Put, and an answer for the latest version is not older than anything the replica has |
| `Quorums.StepKeeps` | sdfs/client_action.go:25-119 | every step of the exchange, with repeated and late requests, keeps the invariant |
| `Quorums.RunInv` | sdfs/client_action.go:25-119 | the invariant holds in every state of every run |
| `Quorums.GetIsFresh` | sdfs/client_action.go:25-119 | over every run, a Get of the latest version started after a Put of the file succeeded returns a sequence not less than that Put's, with the data written under the returned sequence |
| `Quorums.PutThenGet` | sdfs/client_action.go:25-119 | on every ring there is a run in which a Put succeeds and a Get then returns what it wrote |
| `Sequencers.StepKeeps` | sdfs/service.go:145-164 | joins stamped later than all members, failures with a survivor and fetches keep the tickets ordered across leaders and gap-free per leader |
| `Sequencers.RunInv` | sdfs/service.go:145-164 | that order holds in every state of every run |
| `Sequencers.SequencesIncrease` | sdfs/service.go:155-161 | over every run and any leader changes the sequences handed out are strictly increasing under Less if and only if no leader's counter has passed the 32-bit range of Count |
| `Sequencers.WrapBreaks` | sdfs/service.go:160-160 | once a counter passes 2147483647 the wrapped count is out of order |
| `Sequencers.EveryCount` | sdfs/service.go:155-161 | for every n there is a run in which a leader hands out its n-th sequence |
| `Sequencers.WrapHappens` | sdfs/service.go:160-160 | there is a run whose sequences are not increasing |
| `Sequencers.MembersExactly` | ring/service.go:306-315 | over every run the members, among which the leader is the one that joined first, are exactly those that started the ring or joined it and have not failed since |
| `Sequencers.LeaderChanges` | sdfs/service.go:145-164 | a run in which the leader fails and the next member numbers the writes from one on |
| `RingServers.RingServer.Successors` | ring/server.go:128-151 | sorts the list by join time and collects at most six members after the process, stopping at itself; from the head when the process is not listed |
| `RingServers.RingServer.FindProcessIndex` | ring/server.go:153-161 | first position of the process, or -1 |
| `RingServers.RingServer.LookupLeader` | ring/service.go:306-315 | the address of a member no other joined before; none exactly for an empty list |
| `RingServers.OrderUnique` | ring/mem_list.go:16-18 | members that agree on the membership agree on the sorted list |
| `RingServers.SuccessorsAre` | ring/server.go:137-150 | a listed process watches exactly the next min(6, n-1) members |
| `RingServers.DetectedIff` | ring/server.go:128-151 | a member is watched by a survivor if and only if one of the min(6, n-1) members before it survives |
| `RingServers.Completeness` | ring/server.go:26-26 | for any ring size, at most six simultaneous failures leaving a survivor are all detected |
| `RingServers.AgreedCompleteness` | ring/server.go:128-151 | the same when every survivor sorted its own copy of the common membership |
| `RingServers.SevenHide` | ring/server.go:26-26 | seven neighbours failing together, with a survivor left, hide the last of them |
| `RingServers.CompleteExactly` | ring/server.go:26-26 | the detector is complete for all sets of at most k failures if and only if k <= 6 or the ring has at most seven members |
| `LinkedLists.DoublyLinkedList.Push` | utils/dll.go:40-47 | appends the node to the list's contents and keeps all links well formed |
| `LinkedLists.DoublyLinkedList.Remove` | utils/dll.go:53-63 | takes exactly the node out of the contents, unlinks it, leaves the rest in order; does nothing on an empty list |
| `LinkedLists.DoublyLinkedList.Pop` | utils/dll.go:49-51 | removes and returns the oldest node; nothing for an empty list |
| `LfuCaches.LFUCache.Get` | utils/cache.go:36-52 | refines the reference Get: same result, same new cache, all lists valid |
| `LfuCaches.LFUCache.Put` | utils/cache.go:54-74 | refines the reference Put, and fails exactly when the reference does |
| `LfuCaches.LFUCache.RecycleLRU` | utils/cache.go:76-82 | the loop evicts as the reference does, terminates, and dereferences the result of an empty Pop exactly when the reference eviction fails |
| `LfuCaches.LFUCache.SetDefault` | utils/cache.go:25-29 | adds an empty list for the count if there is none, the meaning unchanged |
| `LfuSpec.EvictShortestRun` | utils/cache.go:76-82 | eviction removes the shortest oldest-first run of entries of the minimum count that fits, and fails exactly when all of them do not suffice |
| `LfuSpec.PutSafeIff` | utils/cache.go:54-82 | a Put survives if and only if the size without the list it evicts from is within capacity |
| `LfuSpec.PutSafe` | utils/cache.go:54-82 | a Put that does not lengthen a stored value never crashes, also with a stale minFreq, and keeps the size within capacity |
| `LfuSpec.InsertEvictsLeastUsed` | utils/cache.go:64-82 | an inserting Put evicts exactly the shortest oldest-first run of least-used entries, possibly including the new one |
| `LfuSpec.RunSafe` | utils/cache.go:36-82 | every history of Get and Put that never lengthens a stored value runs without a crash, within capacity, every entry holding its last put value |
| `LfuSpec.RunCounts` | utils/cache.go:36-82 | over every history the entries stand in the order of their last use and each counts its uses since it was inserted, so among equals the one not used for longest goes first |
| `LfuSpec.HitReturnsLastPut` | utils/cache.go:36-52 | after such a history Get returns the last value put under a resident key and nothing for any other key |
| `CoordinatorState.CountIsAll` | api/job.go:101-109 | the completed count reaches the number of batches exactly when every batch is completed |
| `CoordinatorState.FirstAvailable` | api/job.go:90-99 | the first available batch, absent exactly when there is none |
| `CoordinatorEffects.FailureEffect` | idunno/scheduler.go:188-207 | a failed worker is gone, whatever it was doing; exactly the batch it was working on for an active job is available; all else stays; a crash exactly when that batch does not exist |
| `CoordinatorEffects.ReleaseEffect` | idunno/scheduler.go:114-124 | a worker let go is idle with nothing in its hands, last heard from when it was; exactly its batch is available; all else stays |
| `CoordinatorEffects.ArrivalEffect` | idunno/scheduler.go:29-33 | a joiner is idle and heard from now, a new job active as it is; all else stays |
| `CoordinatorEffects.CommitEffect` | idunno/coordinator.go:340-344 | an assignment names the job and counts as contact, and leaves the worker's batch and everybody else alone |
| `CoordinatorEffects.WorkerRefreshEffect` | idunno/scheduler.go:42-48 | the refresh resets exactly the workers on no active job, so that no batch of an active job changes hands |
| `CoordinatorEffects.BatchRefreshEffect` | idunno/scheduler.go:50-74 | exactly the batches in progress of active jobs that nobody works on become available; no other batch changes |
| `CoordinatorEffects.CountsCompleted` | api/job.go:101-109 | the count is the number of completed batches |
| `CoordinatorEffects.ReceiveEffect` | idunno/scheduler.go:153-186 | exactly the output is stored, in exactly its batch; the worker's hands are empty and it was heard from now; the job is queued, last, exactly when no batch is missing any more and it was not queued |
| `CoordinatorEffects.ValidatedKeeps` | idunno/coordinator_service.go:137-140 | validation keeps exactly the accepted inputs, in order |
| `CoordinatorEffects.FetchEffect` | api/job.go:90-99 | the worker gets exactly the first available batch, now in progress with its inputs validated; no other batch, job or worker changes |
| `CoordinatorEffects.QueryEffect` | idunno/coordinator_service.go:98-147 | a request from an unknown worker or for an inactive job changes nothing; otherwise its output is stored first, also when the worker was given another job since, and then it is refused or gets the next batch |
| `CoordinatorEffects.FlushEffect` | idunno/coordinator.go:227-293 | the oldest finished job leaves the active ones, is completed once written or else stays first in the queue, and exactly its workers are reset |
| `CoordinatorInv.QueryDataKeeps` | idunno/coordinator_service.go:98-147 | a request whose output, if any, comes from the job it names is served without a crash, whoever holds what, loses no stored output, and gives no batch a second holder |
| `CoordinatorInv.ReceiveKeepsJobs` | idunno/scheduler.go:153-186 | storing an output keeps the life cycle; a job enters the queue only when every batch has an output, and at most once |
| `CoordinatorInv.FlushKeepsJobs` | idunno/coordinator.go:227-293 | a flush, failed or not, neither drops nor duplicates a job |
| `CoordinatorInv.LossKeepsJobs` | idunno/scheduler.go:188-207 | reopening a batch on failure or release removes no output |
| `CoordinatorInv.RefreshBatchesKeeps` | idunno/scheduler.go:50-74 | reopening unheld batches keeps the holder invariant and every output |
| `CoordinatorInv.FailKeeps` | idunno/scheduler.go:188-207 | a worker failure never indexes outside a job and keeps the holder invariant |
| `CoordinatorInv.GuardedCommitKeeps` | idunno/coordinator.go:341-344 | an assignment to a still-idle worker keeps the holder invariant |
| `CoordinatorInv.CommitKeepsIff` | idunno/coordinator.go:341-344 | the unchecked assignment keeps the holder invariant if and only if the batch in the worker's hands, read as a batch of the new job, exists, is not available and is nobody else's |
| `CoordinatorInv.ReleasedAllKeeps` | idunno/scheduler.go:109-125 | releasing any set of workers takes no output back and keeps the holder invariant |
| `CoordinatorInv.ReleasedOneMore` | idunno/scheduler.go:114-123 | releasing one more worker reopens exactly its batch, and fails exactly when its batch number is none of its job's |
| `CoordinatorInv.ReleasedBatchesOpen` | idunno/scheduler.go:120-123 | the batch of every released worker is available afterwards, and held by nobody if no two workers shared one |
| `CoordinatorInv.NoBatchStuck` | idunno/scheduler.go:50-74 | after the batch refresh every batch of an active job is available, held by a registered worker, or completed with a stored output; held batches are left alone |
| `CoordinatorInv.LostBatchReopened` | idunno/scheduler.go:188-207 | the batch of a failed worker becomes available and unheld, so the next query of the job gets it or an earlier one |
| `InferenceRun.StepKeeps` | idunno/scheduler.go:42-214 | every step of coordinator and workers that does not crash keeps jobs and messages consistent and every stored output |
| `InferenceRun.ServingNeverCrashes` | idunno/worker.go:95-186 | under every interleaving of QueryData, Inference and the unlocked FinishInference, a submitted output comes from an existing batch, is tagged with its own job if and only if the request names a job at all, and serving it never indexes outside the job's batches |
| `CrashRuns.UntaggedHappens` | idunno/worker_service.go:67-71 | a run in which an output travels under no job: the job is ended while the worker computes and forgotten while it builds the next request |
| `InferenceRun.OutputsNeverLost` | idunno/scheduler.go:164-168 | over any stretch of any run a stored batch output is never removed |
| `InferenceRun.ReachableState` | idunno/scheduler.go:175-186 | in every reachable state the job life cycle holds, and every queued or completed job has for each batch an output computed from that batch |
| `InferenceRun.JobsStay` | idunno/scheduler.go:29-33 | an added job is active, pending or completed for ever after |
| `Pipeline.FinishedIsQueued` | idunno/scheduler.go:175-185 | over every run an active job whose batches are all completed is queued for flushing, whatever else is queued |
| `Pipeline.RegisteredExactly` | idunno/scheduler.go:188-214 | over every run an address is registered exactly when it has joined and not failed since |
| `Pipeline.FailedIsGone` | idunno/scheduler.go:188-207 | a failed worker is not registered and planned for nothing until its address joins again |
| `Pipeline.StoredWasComputed` | idunno/scheduler.go:164-168 | over every run what is stored for a batch is, results and all, what a worker finished computing for exactly that batch of that job |
| `Pipeline.ServedIsStored` | idunno/coordinator_service.go:119-121 | once served, the output of a registered worker is stored for its batch of the active job, also when the worker has been given another job since |
| `Pipeline.OutputCarried` | idunno/worker.go:109-116 | a worker keeps an output until it has another, is given another job, or is told that the job ended, and every request it sends meanwhile carries it |
| `Pipeline.ResultsBecomeOutput` | idunno/worker.go:181-186 | the results a worker computes are its output, for the batch and job it was computing |
| `Pipeline.OutputExactly` | idunno/worker.go:95-186 | over every run a worker's output is exactly what it finished computing last, unless its job was ended, it was given another one, or it started anew since |
| `Pipeline.CommitExactly` | idunno/coordinator.go:311-345 | an assignment is written into the coordinator's records exactly when its worker has neither failed nor joined anew since it was planned; otherwise nothing changes |
| `Pipeline.FlushFrees` | idunno/coordinator.go:238-262 | after a flush, or the reset that comes later, the workers of the flushed job are idle with nothing in their hands |
| `InferenceRun.HoldersApart` | idunno/scheduler.go:42-207 | when assignments check that the worker is idle, in every reachable state at most one worker holds a batch, an available batch is held by nobody, an idle worker holds nothing |
| `InferenceRun.NeverCrashes` | idunno/scheduler.go:188-207 | in such runs no step crashes, if requests are built only for jobs that are still active |
| `InferenceRun.CrashesExactly` | idunno/coordinator.go:311-346 | in every run, nothing checked, a step crashes the coordinator if and only if it fails or releases a worker of an active job whose batch number is beyond that job, or builds a request for a job no longer active |
| `InferenceRun.CrashCauses` | idunno/coordinator.go:311-346 | before every crash some assignment was committed to a worker whose batch number the new job does not have, or the job of the request being built was flushed |
| `InferenceRun.InactiveIffFlushed` | idunno/coordinator.go:235-236 | in every run a known job is inactive if and only if it was flushed before |
| `InferenceRun.MisfitThenFailure` | idunno/coordinator.go:341-344 | after an assignment of a registered worker to an active job the worker's failure crashes the coordinator if and only if the assignment did not fit |
| `InferenceRun.FlushThenBuild` | idunno/coordinator.go:319-326 | a request still to be built crashes the coordinator if and only if its job was flushed before |
| `CrashRuns.CrashHappens` | idunno/coordinator.go:297-353 | a run that crashes: two overlapping schedules, a worker on the second batch of one job is assigned to a job with one batch, and fails |
| `CrashRuns.FlushCrashHappens` | idunno/coordinator.go:227-326 | a run that crashes with every holder in order: a worker is planned for a finished job, the job is flushed, the request is built |
| `Schedulers.CeilIsBatchCount` | idunno/coordinator.go:416-416 | the announced number of queries, a rounded-up quotient, is the number of batches the loop cuts |
| `Schedulers.SplitInputs` | idunno/coordinator.go:391-405 | the loop yields the counted number of batches, all fresh, full but for the last, that partition the inputs in order |
| `Schedulers.PiecesJoin` | idunno/coordinator.go:388-388 | splitting a dataset into lines loses nothing: joined they are the dataset |
| `Schedulers.Scheduler.ProcessQueuedJob` | idunno/coordinator.go:356-428 | adds one fresh job whose batches hold exactly the lines of the dataset and number exactly its announced queries, changes no other job, and keeps the invariants; does nothing without a dataset |
| `Schedulers.Scheduler.OnWorkerJoined` | idunno/scheduler.go:209-214 | the idle workers are those before and the joiner, no batch gains a holder, and the invariants are kept, also for an address that was known |
| `Schedulers.Scheduler.OnWorkerFailed` | idunno/scheduler.go:188-207 | fails exactly for a worker of an active job whose batch number is none of the job's; else exactly that worker is gone, exactly its batch available, every other worker, job and queue as it was, no output lost, and a good state stays good |
| `Schedulers.Scheduler.RefreshWorkerStatus` | idunno/scheduler.go:42-48 | workers on no active job become idle, those of active jobs are left alone, and no batch of an active job changes hands |
| `Schedulers.Scheduler.RefreshBatchStatus` | idunno/scheduler.go:50-74 | exactly the batches in progress of active jobs that nobody works on become available |
| `Schedulers.Scheduler.OnReceiveBatchOutput` | idunno/scheduler.go:153-186 | stores exactly this output in exactly its batch, counts the completed batches, and queues the job, last, exactly when it was the last output missing and the job is not queued; fails exactly for a batch the job does not have |
| `Schedulers.Scheduler.CompletedBatchCount` | api/job.go:101-109 | the loop counts the completed batches |
| `Schedulers.Scheduler.FetchBatchInput` | api/job.go:90-99 | the loop takes the first available batch |
| `Schedulers.Scheduler.QueryData` | idunno/coordinator_service.go:98-147 | makes the QueryData step with all its refusals |
| `Schedulers.Scheduler.GetWorkersById` | idunno/resource_manager.go:87-97 | collects, without duplicates, exactly the workers on a job |
| `Schedulers.Scheduler.TrimJob` | idunno/scheduler.go:109-125 | whoever holds what: a job keeps min(its workers, its allocation), nobody let go was heard from before one that stays, exactly the batches of those let go are reopened (and unheld if no two workers shared one); fails exactly when one of them holds a batch number that is none of the job's |
| `Schedulers.Scheduler.DealIdle` | idunno/scheduler.go:128-144 | deals each idle worker at most once, in order, until needs are met or the workers run out |
| `Schedulers.RefreshLeavesNoStale` | idunno/scheduler.go:42-48 | after the worker refresh every worker is idle or on an active job, the condition under which schedules conserve workers |
| `Schedulers.Conservation` | idunno/scheduler.go:76-151 | each job keeps min(its workers, its allocation), and total need minus idle workers equals the allocation's sum minus the workers not left over from departed jobs |
| `Schedulers.JobsCountable` | idunno/coordinator.go:407-421 | in every reachable state each active job has queries, of which at most all are completed |
| `Schedulers.RatesOfJobs` | ralloc/ralloc.go:117-127 | the global allocator's table holds for each active job, from its own counts, the rate at which its queries will have been done: total over elapsed time plus the remaining queries at the speed of the completed ones, shared among the resources |
| `Schedulers.TimesOfJobs` | ralloc/ralloc.go:77-81 | the local allocator's times are the active jobs' own averages, or one second before the first completed query |
| `Schedulers.TimeExact` | api/job.go:20-36 | equal times average to that time, but never to more than six seconds; one second before the first query is completed |
| `Schedulers.SpansAdd` | api/job.go:28-33 | a completed batch adds its own time to the total, at most six seconds, and any other batch nothing |
| `Schedulers.Scheduler.QueryProcessingTime` | api/job.go:20-36 | the loop averages the times of the completed batches, each counted with at most six seconds; the result lies between zero and that limit |
| `Schedulers.Scheduler.RefreshSchedule` | idunno/scheduler.go:76-151 | whoever holds what: goes through exactly when the workers let go hold batches of their jobs; then runs short exactly when the allocation exceeds the usable workers, otherwise every job ends with exactly its allocation, and with an exact sum every idle worker is dealt exactly once; from a good state it goes through and keeps it |
| `Schedulers.Scheduler.ScheduleGlobally` | idunno/scheduler.go:95-99 | with the global allocator on the expected rates of the active jobs' own counts, unless a worker let go holds a foreign batch number, every job ends with its allocated number of workers and every idle worker is dealt exactly once |
| `Schedulers.Scheduler.ScheduleLocally` | idunno/scheduler.go:100-103 | with the local allocator on the active jobs' own processing times, under the same exact condition, every job ends with the rounded share handed to it, no worker is dealt twice, the dealing never runs short and leaves less than half a worker per job unused |
| `Schedulers.Scheduler.CommitAssignment` | idunno/coordinator.go:340-344 | whatever the worker does now: jobs and outputs are safe, and a good state stays good if and only if the batch in its hands, read as one of the new job, exists, is not available and is nobody else's |
| `Schedulers.Scheduler.FlushPendingJobs` | idunno/coordinator.go:227-293 | takes the oldest finished job out of the active ones, resets exactly its workers, and moves it from the queue to the completed ones if its results were written |
| `GlobalRalloc.GlobalFairTimeRalloc` | ralloc/ralloc.go:23-66 | the table and backtracking loops return the allocation read back from the last cell |
| `GlobalRalloc.BestShare` | ralloc/ralloc.go:46-55 | the innermost loop finds the cell's best share |
| `GlobalRalloc.RebuildSums` | ralloc/ralloc.go:61-66 | every allocation read back from a cell of j resources sums to j |
| `GlobalRalloc.CellDescribes` | ralloc/ralloc.go:28-59 | each dp, min and max cell is the true largest pairwise difference, minimum and maximum of the rates of the allocation read back from it |
| `GlobalRalloc.ScanIsBest` | ralloc/ralloc.go:46-58 | each cell is minimal over all one-job extensions of stored allocations and takes the smallest such share |
| `GlobalRalloc.ResultIsComplete` | ralloc/ralloc.go:61-66 | the result uses exactly the m resources and its gap is the last cell |
| `GlobalRalloc.OptimalWhenSmall` | ralloc/ralloc.go:17-22 | on arbitrary matrices, with at most two jobs or nothing to give, no allocation has a smaller gap |
| `GlobalRalloc.OptimalOnRates` | ralloc/ralloc.go:17-22 | on rates that start at zero and never fall, no allocation has a smaller gap with at most two jobs or at most one resource |
| `GlobalRalloc.HalfDoneNotOptimal` | ralloc/ralloc.go:40-60 | for every n >= 3 and m >= 2, jobs, all half done, on whose rates a better allocation exists |
| `GlobalRalloc.OptimalExactly` | ralloc/ralloc.go:17-22 | the documented minimisation holds for all jobs of a number, and for all such rates, if and only if there are at most two jobs or at most one resource |
| `GlobalRalloc.MoreNeverSlower` | api/job.go:45-53 | the expected rate is zero without resources and never falls as they grow |
| `GlobalRalloc.RateExact` | api/job.go:45-53 | a job with nothing left has rate total over elapsed for every number of resources; an unbegun one total over elapsed plus total / r; a begun one goes on with its remaining queries at the speed of its completed ones |
| `GlobalRalloc.RatesBounded` | ralloc/ralloc.go:43-43 | the optimality results cover all rates from zero up to two to the 63 |
| `GlobalRalloc.JobsAreRateLike` | ralloc/ralloc.go:117-127 | the matrix the program allocates by starts every row at zero and never falls along it |
| `GlobalRalloc.JobToQPS` | ralloc/ralloc.go:117-127 | the loops fill the matrix of expected rates |
| `LocalRalloc.LocalFairTimeRalloc` | ralloc/ralloc.go:72-96 | the loops hand out the rounded shares in order while they last; total at most the resources, fewer than half a resource per job unused |
| `LocalRalloc.ShareProportional` | ralloc/ralloc.go:83-86 | shares are in proportion to the times and together all resources |
| `LocalRalloc.HandedOutSum` | ralloc/ralloc.go:88-93 | what the first k jobs get is what they want, up to the resources |
| `LocalRalloc.LocalGuarantee` | ralloc/ralloc.go:72-96 | no job above its rounded share, total at most the resources, remainder below half the number of jobs, zero once a job was clipped, and zero exactly when the rounded shares reach the resources |
| `LocalRalloc.SlowerGetsMore` | ralloc/ralloc.go:82-93 | a job whose queries take no longer than those of an unclipped job gets no more than it |

## Left out

- gRPC and UDP transport, dialing, timeouts, the transfer retry loop, the file system, logging, tables and JSON.
- Generated code, the Python model services, the frontend, the logger and backend services, and the DNS server.
- The concrete FNV-1a hash, and rings whose members collide on a home slot beyond what Refresh itself does.
- Membership changes and client requests in the middle of an epoch, writes that reach a replica after the client has
  returned, and deliveries of a file's versions one by one: Replication delivers a file whole.
- Quorum freshness across membership changes and deletes, and freshness of older versions.
- Ping merging, the expiration pool, Leave, same-address rejoins and the coordinator's backup and restore.
- Go's own detection of a map read without the lock while it is written (idunno/coordinator.go:322).
- The worker's handlers as methods of an object: they are steps on values in InferenceRun, because the unlocked
  FinishInference interleaves with the inside of the others; the model keeps the order of their individual writes.
- Batch sizes below one, the 32-bit width of batch numbers, and GetQPS. Query, receive and start times are parameters;
  jobs counted as begun whose completed batches were all reopened have no processing time (the original divides zero
  by zero).
- The second result of both allocators: the global one is computed from an array that is never filled.
- Float rounding, NaN, and a total time of zero in the local allocator.
- Optimality of the global allocator on particular matrices with three or more jobs and two or more resources.
- Data across servers over whole runs: FileStore follows one server's disk, TransferFiles one push between two, and
  Replication which tables list which versions. Pushes whose disk write fails at the receiver, and failed deletions.
- Cache Puts that lengthen a stored value, beyond the exact crash condition.
