# NFS server state machines

A model, in Dafny, of the stateful core of an NFS server (NFS-Ganesha code, kept under `tc_client`):
the recovery directory, the directory-entry index, the duplicate request cache, leases, client ids, shares,
owners and stateids, access control lists, node ranges, request queues, callback slots and the index
of file systems.  Code that changes things in place is a class or a method proved against a function
of its state; protocols are step systems, and the main results speak about every run of them.

| file | what it holds |
|---|---|
| `Decimals`, `RecoveryNames`, `RecoveryTree`, `RecoveryMoves`, `RecoveryHistory`, `RecoveryDir`, `RecoveryClients` | client names on disk: format, hierarchy of directories, single calls, histories with crashes, the routines in place, who may reclaim |
| `Dirents` | cookies, quadratic probing, deleted entries, READDIR |
| `Dupreq`, `DupreqRuns` | the duplicate request cache and its runs |
| `Leases`, `ClientIds`, `FileStates`, `Shares`, `Seqids`, `Owners` | NFSv4 state |
| `Acl` | evaluation of an access control list |
| `Ranges`, `RangeText` | interval sets and their text form |
| `Queues`, `CbSlots` | request queues, slots of the callback channel |
| `SearchTrees`, `FsIndex`, `Bits` | the index of file systems |
| `Collections`, `Counters`, `Widths` | shared definitions |

Conventions.  Each section of code under one mutex is one step.  Clocks, hash functions, the results
of waiting and what other threads do meanwhile are parameters.  Hash tables and balanced trees are
maps or ordered sets, linked lists are sequences, allocation succeeds.  Bit masks are sets of bit
numbers.

Where the code does not do what it is meant to do, the model follows the code, and the condition under
which the code does meet the intention is proved:

* A client id with a byte that cannot stand in a file name is written in hexadecimal, so the id that
  consists of that text has the same name, and either client may reclaim for the other
  (`RecoveryNames.SameTextIff`, `RecoveryNames.HexTwin`).
* A client name with a segment that starts with a dot is added and never read back
  (`RecoveryTree.FoundIffNoHiddenSegment`, `RecoveryTree.HiddenSegmentExample`).
* A restart clears the directory of the previous run without copying it, so a crash then loses the
  names that were only there (`RecoveryHistory.CutRestartFinds`, `RecoveryHistory.CutRestartExample`).
* CREATE_SESSION sets the renewal time without looking at the lease, so a lapsed lease can come back
  to life between the reaper's check and its expiry (`Leases.InvalidStays`, `Leases.RevivalIsUnsafe`,
  `Leases.RevivalExample`).
* OPEN and LOCKT above version 4.0 reserve the lease and never give the reservation back.  From then on
  the client's reservations are more than its compounds (`Leases.CompoundsAloneIff`), its lease never
  lapses and the reaper never takes it (`Leases.KeptNeverLapses`, `Leases.KeptExample`).
* The comment on root access says that root may do anything on a directory; control runs on, and
  EXECUTE still needs an ALLOW entry (`Acl.RuleForRoot`, `Acl.RootExample`).
* A range with reversed bounds, given directly, replaces the list (`Ranges.ReversedRangeLoses`).
* Splitting or folding a 64-bit fsid masks its low half with `&&` where `&` is meant
  (`FsIndex.SplitAndJoin`, `FsIndex.FoldsIffLowHalvesAreTruth`), and changing to a device fsid falls
  through to that code (`FsIndex.DeviceIffNotWords`).
* READDIR from the cookie of a deleted entry with no active entry after it is refused as a bad cookie
  rather than answered with the end of the directory (`Dirents.DirIndex.Readdir`,
  `Dirents.RefusalExample`).
* A READDIR that passes over a stale entry has the directory rebuilt, which forgets the cookies of
  deleted entries: a client that stopped at one is refused with entries still ahead
  (`Dirents.RebuiltRefusesIff`, `Dirents.RefusedOnlyAtEnd`, `Dirents.ForgottenIsRefused`,
  `Dirents.RebuildExample`).
* Retiring a cached request takes it off the queue under one lock and out of the dictionary under
  another.  A duplicate that arrives in between is given a reference to an entry that is then freed
  (`DupreqRuns.RunInvIff`, `DupreqRuns.RetireWindowFails`, `DupreqRuns.RetireWindowExample`).
* Finished requests are meant to count against the retirement window that a hit opens.  They do so only
  when they find the cache beyond maxsize, so below that one hit suspends the high-water mark for good
  (`DupreqRuns.WindowHolds`, `DupreqRuns.HitOpensWindow`).
* Deleting one marks it before it leaves the dictionary.  A duplicate that arrives in between is
  answered with the buffer of a request that may never have finished (`DupreqRuns.RunFollows`,
  `DupreqRuns.DeleteWindowFails`).
* OPEN_DOWNGRADE above version 4.0 changes the share modes of a state and not the counters of its
  file, and CLOSE deletes a state whose share modes it could not count off.  What is left in the
  counters refuses opens for good (`Shares.RunExactIff`, `Shares.LostIsRefused`,
  `Shares.LostExample`).
* An open that upgrades a share is checked against counters that include the very share it upgrades
  (`Shares.UpgradeAgainstItself`, `Shares.SelfConflictExample`).

## Model

| member | source | states |
|---|---|---|
| `Decimals.AtoiDecimal` | tc_client/SAL/nfs4_recovery.c:683-685 | reading back the printed length gives the length, for every number |
| `RecoveryNames.JudgePiece` | tc_client/SAL/nfs4_recovery.c:645-700 | a piece of a name is malformed up to and including the colon, of the wrong length after it, and accepted only if it is the whole name |
| `RecoveryNames.WellFormedAccepted` | tc_client/SAL/nfs4_recovery.c:645-700 | every name the server builds passes the length check on reading |
| `RecoveryNames.ProperPrefixRejected` | tc_client/SAL/nfs4_recovery.c:645-700 | no proper prefix of a name passes it, and one that fills a directory segment is dropped rather than left behind |
| `RecoveryNames.PrefixFree` | tc_client/SAL/nfs4_recovery.c:237-250 | no name is a proper prefix of another |
| `RecoveryNames.AcceptedIffFormed` | tc_client/SAL/nfs4_recovery.c:645-700 | of all texts, the reader accepts exactly those with a head without parenthesis, a length of fewer than nine characters that fits, and fewer than PATH_MAX characters |
| `RecoveryNames.NameTellsClient` | tc_client/SAL/nfs4_recovery.c:237-250 | a name tells the address and the id text of its client: no two clients share one |
| `RecoveryNames.SameTextIff` | tc_client/SAL/nfs4_recovery.c:160-202 | two ids have the same text if and only if they are equal or one is the hexadecimal spelling of the other |
| `RecoveryNames.HexTwin` | tc_client/SAL/nfs4_recovery.c:160-202 | every id that is not printable shares its text with another id |
| `RecoveryTree.JoinSegments` | tc_client/SAL/nfs4_recovery.c:330-358 | concatenating the 255-byte segments of a name gives the name back |
| `RecoveryTree.JoinPartial` | tc_client/SAL/nfs4_recovery.c:330-358 | the first k directories of a hierarchy spell the first 255k characters of the name |
| `RecoveryTree.NotAncestor` | tc_client/SAL/nfs4_recovery.c:330-358 | the hierarchy of one name never lies inside that of another |
| `RecoveryTree.AddKeepsRecords` | tc_client/SAL/nfs4_recovery.c:313-361 | adding a name records it and no other; an addition cut short between two mkdir calls records nothing |
| `RecoveryTree.RemoveKeepsRecords` | tc_client/SAL/nfs4_recovery.c:370-428 | removing a name forgets it and no other, from the first rmdir on, wherever the removal is cut short |
| `RecoveryTree.ReadMovesAll` | tc_client/SAL/nfs4_recovery.c:512-725 | reading a recorded tree empties it and copies all of it |
| `RecoveryTree.ReadBack` | tc_client/SAL/nfs4_recovery.c:512-725 | reading a recorded tree collects exactly the recorded names, each from one directory |
| `RecoveryHistory.RunFaithful` | tc_client/SAL/nfs4_recovery.c:313-830 | every history of additions, removals and restarts, each whole or cut short after any mkdir or rmdir call, keeps both directories recording what was intended |
| `RecoveryHistory.RestartFindsExactly` | tc_client/SAL/nfs4_recovery.c:512-830 | after every such history a restart finds exactly the names that the history leaves, in this run or the one before |
| `RecoveryHistory.CutRestartFinds` | tc_client/SAL/nfs4_recovery.c:732-830 | wherever a restart stops, each name of this run is found again, and a name of the previous run is lost if and only if its last directory has been cleared and it is not a name of this run |
| `RecoveryHistory.CutRestartExample` | tc_client/SAL/nfs4_recovery.c:732-830 | a disk with one name of the previous run, from which a restart cut short after one rmdir call leaves none |
| `RecoveryHistory.TracedRestart` | tc_client/SAL/nfs4_recovery.c:732-830 | the calls of a whole restart, cut anywhere, are a restart cut short |
| `RecoveryClients.RunNames` | tc_client/SAL/nfs4_recovery.c:313-830 | over every history the names that should be on disk are those of the clients that should be remembered |
| `RecoveryClients.ReclaimExactly` | tc_client/SAL/nfs4_recovery.c:512-830 | after every history, crashes included, the name of a client is found if and only if that very address and id text were recorded and not removed since |
| `RecoveryMoves.CutAnywhere` | tc_client/SAL/nfs4_recovery.c:560-720 | a prefix of the calls of a reading is possible too |
| `RecoveryMoves.MovesConserve` | tc_client/SAL/nfs4_recovery.c:560-720 | copying and then removing directories never loses a name, wherever it stops |
| `RecoveryMoves.ClearLoses` | tc_client/SAL/nfs4_recovery.c:752-765 | clearing the old directory loses exactly the names whose last directory is removed |
| `RecoveryTree.RmdirKeepsRecords` | tc_client/SAL/nfs4_recovery.c:410-425 | one rmdir call forgets the name that ends there, if any, and no other |
| `RecoveryTree.FoundIffNoHiddenSegment` | tc_client/SAL/nfs4_recovery.c:540-560 | a name added in full is found again if and only if none of its segments starts with a dot |
| `RecoveryTree.HiddenSegmentExample` | tc_client/SAL/nfs4_recovery.c:540-560 | a name that the server can build, adds in full and does not find again |
| `RecoveryDir.AddClid` | tc_client/SAL/nfs4_recovery.c:313-361 | the loop over segments makes exactly the levels of the hierarchy, top down, up to a crash |
| `RecoveryDir.RmClid` | tc_client/SAL/nfs4_recovery.c:370-428 | the recursion removes the levels bottom up, keeps those that are still in use, up to a crash |
| `RecoveryDir.PruneChild` | tc_client/SAL/nfs4_recovery.c:590-720 | reading one child and then removing it leaves exactly what no malformed name holds in place |
| `RecoveryDir.AllChildrenRead` | tc_client/SAL/nfs4_recovery.c:530-725 | reading every visible child is reading the whole directory |
| `RecoveryDir.ReadChild` | tc_client/SAL/nfs4_recovery.c:540-720 | one turn of the reading loop: directories left, directories copied, names collected, and the calls made |
| `RecoveryDir.ReadBelow` | tc_client/SAL/nfs4_recovery.c:566-625 | the directory is copied before anything below it is read |
| `RecoveryDir.SettleChild` | tc_client/SAL/nfs4_recovery.c:627-720 | a directory without children has its name judged, and goes unless the name is malformed or this is a takeover |
| `RecoveryDir.ReadRecovClids` | tc_client/SAL/nfs4_recovery.c:512-725 | the recursion returns the number of visible children, leaves exactly the directories that a malformed name holds, copies the others, adds one list entry for each whole name, and removes a directory only after its copy is made |
| `RecoveryDir.LoadRecovClids` | tc_client/SAL/nfs4_recovery.c:732-836 | start-up leaves both directories and the client list as the history model says, by calls that clear the old directory and then move this one |
| `RecoveryDir.TakeOver` | tc_client/SAL/nfs4_recovery.c:732-836 | taking over another node reads and copies its directory and leaves it unchanged |
| `RecoveryDir.MayReclaim` | tc_client/SAL/nfs4_recovery.c:437-483 | a client may reclaim during grace exactly if its name is in the list, for names below the path limit |
| `RecoveryClients.RestartAndReclaim` | tc_client/SAL/nfs4_recovery.c:437-483 | a restart and then a client that asks: it may reclaim if and only if the server is in grace and remembers that client |
| `Dirents.ProbeIsQuadratic` | tc_client/cache_inode/cache_inode_avl.c:230-250 | the running key of the probing loop is hash + p(p+1) modulo 2^64 |
| `Dirents.ProbesDiffer` | tc_client/cache_inode/cache_inode_avl.c:230-250 | two probes of one name never hit the same key within the range of the counter |
| `Dirents.FailuresAreFew` | tc_client/cache_inode/cache_inode_avl.c:230-258 | n failed probes need at least n keys taken or reserved |
| `Dirents.InsertKeepsValid` | tc_client/cache_inode/cache_inode_avl.c:129-198 | inserting at a free probe keeps the two trees disjoint and every entry on its probe path within `collisions` |
| `Dirents.InsertAddsOne` | tc_client/cache_inode/cache_inode_avl.c:129-198 | an insertion adds the one active entry, at a key that was free, and changes no other |
| `Dirents.RecyclesSmallest` | tc_client/cache_inode/cache_inode_avl.c:138-145 | above the limit an attempt at a new key forgets the smallest deleted entry and no other |
| `Dirents.SetDeletedKeepsValid` | tc_client/cache_inode/cache_inode_avl.c:86-107 | so does moving an entry to the deleted tree |
| `Dirents.ClearDeletedKeepsValid` | tc_client/cache_inode/cache_inode_avl.c:110-126 | so does moving it back |
| `Dirents.UndeleteRestores` | tc_client/cache_inode/cache_inode_avl.c:86-126 | undeleting a deleted entry restores the directory as it was |
| `Dirents.InsertKeepsCookies` | tc_client/cache_inode/cache_inode_avl.c:129-198 | below the recycling limit an insertion forgets no cookie |
| `Dirents.ListingInOrder` | tc_client/cache_inode/cache_inode_readdir.c:666-720 | a listing resumed from the last cookie each time, with any changes and rebuilds in between, has strictly increasing cookies |
| `Dirents.ListingCovers` | tc_client/cache_inode/cache_inode_readdir.c:666-720 | such a listing that reached the end has returned each entry beyond its first cookie that stayed active |
| `Dirents.ListingIsComplete` | tc_client/cache_inode/cache_inode_readdir.c:666-720 | a listing from the start that reaches the end has each entry that stayed active exactly once, in cookie order, whatever changes and is rebuilt |
| `Dirents.CookiesSurvive` | tc_client/cache_inode/cache_inode_avl.c:138-173 | in every run in which no insertion finds the deleted tree over its limit, every cookie stays usable |
| `Dirents.RefusedOnlyAtEnd` | tc_client/cache_inode/cache_inode_readdir.c:644-698 | in every run of insertions, deletions, rebuilds and READDIR calls within that limit in which no rebuild forgets the cookie of the client, a call with an active entry ahead of its cookie is answered |
| `Dirents.EveryListingCompletes` | tc_client/cache_inode/cache_inode_readdir.c:644-720 | in every such run a client that stops at the end or because it is refused has each entry that stayed active exactly once |
| `Dirents.RebuiltRefusesIff` | tc_client/cache_inode/cache_inode_readdir.c:455-533 | a directory just rebuilt refuses exactly the cookies of entries that are not there |
| `Dirents.TrustKeepsCookies` | tc_client/cache_inode/cache_inode_readdir.c:644-655 | a listing of a trusted directory in which no call passes over a stale entry and nothing else costs the trust has no rebuild, so none that forgets a cookie |
| `Dirents.ForgottenIsRefused` | tc_client/cache_inode/cache_inode_readdir.c:60-88 | the condition is exact: after a rebuild that forgets the cookie the client is refused, in order only if no active entry is ahead |
| `Dirents.RebuildExample` | tc_client/cache_inode/cache_inode_readdir.c:759-761 | a listing of two entries, of which the first is returned and deleted, that is refused after a rebuild and misses the second |
| `Dirents.RefusalExample` | tc_client/cache_inode/cache_inode_readdir.c:680-698 | a listing stopped at an entry that is then deleted, with none after it, is refused |
| `Dirents.DirIndex.InsertImpl` | tc_client/cache_inode/cache_inode_avl.c:129-198 | insertion at one key: the deleted tree loses that key or, when too large, its smallest; a taken key leaves the rest unchanged |
| `Dirents.DirIndex.QpInsert` | tc_client/cache_inode/cache_inode_avl.c:214-260 | insertion takes the first free probe and fails only if the probes are exhausted |
| `Dirents.DirIndex.MarkDeleted` | tc_client/cache_inode/cache_inode_avl.c:86-107 | deletion moves the entry between the trees and keeps its cookie known |
| `Dirents.DirIndex.UnmarkDeleted` | tc_client/cache_inode/cache_inode_avl.c:110-126 | undeletion moves it back |
| `Dirents.DirIndex.LookupK` | tc_client/cache_inode/cache_inode_avl.c:277-318 | lookup by cookie: the entry, or the next active one after it, or nothing for an unknown cookie |
| `Dirents.DirIndex.QpLookup` | tc_client/cache_inode/cache_inode_avl.c:321-368 | lookup by name finds an entry if and only if an active one with that name exists, when the probes cover `collisions` |
| `Dirents.DirIndex.Populate` | tc_client/cache_inode/cache_inode_readdir.c:455-533 | a rebuild leaves exactly the entries that the file system names, with no deleted ones |
| `Dirents.DirIndex.Readdir` | tc_client/cache_inode/cache_inode_readdir.c:644-720 | one READDIR call rebuilds a directory that is not trusted, then returns exactly the active entries after the cookie whose objects are there, in order, up to the room; exactly which stale entries it passes over; exactly which cookies are refused |
| `Dirents.DirIndex.ListFrom` | tc_client/cache_inode/cache_inode_readdir.c:719-855 | the loop that fills the reply: no stale entry is returned, each one reached is passed over and costs the trust in the directory, and when it reports the end of the directory |
| `Dupreq.StartInvIff` | tc_client/RPCAL/nfs_dupreq.c:966-1010 | starting a request keeps dictionary, queue, size, counts, owners and open windows in agreement if and only if it takes no reference to an entry being retired |
| `Dupreq.TakeOffInv` | tc_client/RPCAL/nfs_dupreq.c:1077-1103 | so does taking the oldest entry off the queue, which nobody then refers to |
| `Dupreq.FreeInv` | tc_client/RPCAL/nfs_dupreq.c:1109-1120 | so does removing it from the dictionary and freeing it |
| `Dupreq.FreeKeepsHeld` | tc_client/RPCAL/nfs_dupreq.c:1109-1120 | freeing takes no entry that some request still refers to |
| `Dupreq.RetireKeepsHeld` | tc_client/RPCAL/nfs_dupreq.c:1084-1120 | a retirement with nothing in between never frees an entry that some request still refers to |
| `Dupreq.FinishInv` | tc_client/RPCAL/nfs_dupreq.c:1069-1120 | finishing a request and retiring the oldest, with nothing in between, keeps all in agreement |
| `Dupreq.MarkInv` | tc_client/RPCAL/nfs_dupreq.c:1163-1166 | so does marking an entry deleted, which stays in the dictionary and the queue |
| `Dupreq.UnlinkInv` | tc_client/RPCAL/nfs_dupreq.c:1176-1180 | so does removing it from the dictionary |
| `Dupreq.DequeueInv` | tc_client/RPCAL/nfs_dupreq.c:1181-1185 | so does removing it from the queue and counting it off the size |
| `Dupreq.DeleteInv` | tc_client/RPCAL/nfs_dupreq.c:1163-1185 | so do the three together |
| `Dupreq.ReleInv` | tc_client/RPCAL/nfs_dupreq.c:1228-1236 | so does releasing a request, with the entry freed exactly when deleted and no longer referred to |
| `Dupreq.Drc.StartRequest` | tc_client/RPCAL/nfs_dupreq.c:966-1010 | lookup or insertion: the status and the whole new state; all tables stay in agreement if and only if no reference is taken to an entry being retired |
| `Dupreq.Drc.CompleteRequest` | tc_client/RPCAL/nfs_dupreq.c:1069-1074 | the result is stored; all tables stay in agreement |
| `Dupreq.Drc.TakeOff` | tc_client/RPCAL/nfs_dupreq.c:1077-1103 | which entry leaves the queue and when; all tables stay in agreement |
| `Dupreq.Drc.FreeRetired` | tc_client/RPCAL/nfs_dupreq.c:1109-1120 | the entry leaves the dictionary and is freed; all tables stay in agreement |
| `Dupreq.Drc.FinishRequest` | tc_client/RPCAL/nfs_dupreq.c:1057-1130 | the three sections in a row: the result is stored, then the oldest entry may retire |
| `Dupreq.Drc.MarkDeleted` | tc_client/RPCAL/nfs_dupreq.c:1163-1166 | the entry is marked and still found; all tables stay in agreement |
| `Dupreq.Drc.Unlink` | tc_client/RPCAL/nfs_dupreq.c:1176-1180 | the entry leaves the dictionary; all tables stay in agreement |
| `Dupreq.Drc.Dequeue` | tc_client/RPCAL/nfs_dupreq.c:1181-1185 | the entry leaves the queue; all tables stay in agreement |
| `Dupreq.Drc.DeleteRequest` | tc_client/RPCAL/nfs_dupreq.c:1148-1193 | the three sections in a row: the entry leaves dictionary and queue |
| `Dupreq.Drc.Rele` | tc_client/RPCAL/nfs_dupreq.c:1208-1251 | the reference is dropped, with the entry if it was deleted; all tables stay in agreement |
| `Dupreq.EmptyInv` | tc_client/RPCAL/nfs_dupreq.c:359-409 | an empty cache satisfies what the runs keep |
| `DupreqRuns.RunInv` | tc_client/RPCAL/nfs_dupreq.c:881-1251 | in every run of these sections, interleaved in any way, in which no start takes a reference to an entry being retired: dictionary, queue and size agree, each count is the number of requests that refer to the entry, and no entry referred to is freed |
| `DupreqRuns.RunInvIff` | tc_client/RPCAL/nfs_dupreq.c:881-1251 | and in no other run: they agree all along if and only if no start takes such a reference |
| `DupreqRuns.RunFollows` | tc_client/RPCAL/nfs_dupreq.c:881-1251 | seen from one key, such a run is a cycle of one success, busy until the result is stored, the stored result until forgotten, if and only if no start finds the entry of the key being retired or deleted |
| `DupreqRuns.AtMostOnce` | tc_client/RPCAL/nfs_dupreq.c:966-1010 | between two executions of the same request the cache has begun to retire or delete it, also when duplicates find it being deleted |
| `DupreqRuns.HitReturnsStored` | tc_client/RPCAL/nfs_dupreq.c:966-1010 | a duplicate is answered with the very result that was stored since the request was last forgotten, in runs without such a start |
| `DupreqRuns.RetireWindowFails` | tc_client/RPCAL/nfs_dupreq.c:1099-1120 | from every state in which the oldest entry is complete and due: taken off the queue, found by a duplicate and freed, it leaves the duplicate with a reference to nothing, which it cannot release |
| `DupreqRuns.RetireWindowExample` | tc_client/RPCAL/nfs_dupreq.c:1057-1130 | a run from the empty cache to such a state |
| `DupreqRuns.DeleteWindowFails` | tc_client/RPCAL/nfs_dupreq.c:1163-1180 | a new request that is being deleted, without ever being finished, answers a duplicate with its buffer |
| `DupreqRuns.ServeAllWithinMarks` | tc_client/RPCAL/nfs_dupreq.c:802-848 | requests served one at a time keep the size within max(maxsize, 1), and within max(min(hiwat, maxsize), 1) while no duplicate hits |
| `DupreqRuns.OldestRetiresFirst` | tc_client/RPCAL/nfs_dupreq.c:1084-1103 | retirement follows the order of insertion |
| `DupreqRuns.WindowHolds` | tc_client/RPCAL/nfs_dupreq.c:802-848 | in every run, while the retirement window is open nothing is retired but beyond maxsize; each hit widens it by one, each finish beyond maxsize narrows it by one |
| `DupreqRuns.WindowCloses` | tc_client/RPCAL/nfs_dupreq.c:802-848 | without hits it closes after as many such finishes as it is wide, and stays closed |
| `DupreqRuns.HitOpensWindow` | tc_client/RPCAL/nfs_dupreq.c:802-848 | a hit with the window closed keeps the high-water mark from retiring anything until sixteen finishes have found the cache beyond maxsize, and no longer |
| `DupreqRuns.MarksGovern` | tc_client/RPCAL/nfs_dupreq.c:831-848 | with the window closed, the oldest entry is retired if and only if there are more than hiwat or maxsize entries and nobody refers to it |
| `Leases.InvalidStays` | tc_client/SAL/nfs4_lease.c:50-67 | an invalid lease becomes valid again if and only if the step is a CREATE_SESSION renewal that finds the client not expired |
| `Leases.GivingBackRenews` | tc_client/SAL/nfs4_lease.c:141-147 | giving back the only reservation renews the lease, which is then valid for exactly its lifetime; giving back another does not |
| `Leases.RenewingRenews` | tc_client/Protocols/NFS/nfs4_op_renew.c:89-104 | renewing a valid lease without reservations does the same |
| `Leases.RenewedLasts` | tc_client/SAL/nfs4_lease.c:50-67 | in every run shorter than the lifetime, a client just renewed keeps a valid lease and is never condemned, whatever is reserved and given back |
| `Leases.ExpiryIsFinal` | tc_client/SAL/nfs4_lease.c:50-56 | in every run an expired client stays without a valid lease |
| `Leases.RunCounted` | tc_client/SAL/nfs4_state_id.c:502-609 | in every run the reservations of a client are exactly the compounds that preserve it, the operations that work under one, and those that ended without giving theirs back |
| `Leases.CompoundsAloneIff` | tc_client/Protocols/NFS/nfs4_op_open.c:1464-1472 | they are the compounds alone if and only if no operation works for the client or has kept a reservation of it |
| `Leases.ReaperSparesReserved` | tc_client/MainNFSD/nfs_reaper_thread.c:70-101 | a client the reaper has condemned and not yet expired is reserved by no compound and no operation |
| `Leases.ReaperCondemns` | tc_client/MainNFSD/nfs_reaper_thread.c:70-101 | the reaper condemns exactly the clients it finds without a valid lease |
| `Leases.ExpireExpires` | tc_client/MainNFSD/nfs_reaper_thread.c:70-101 | expiring a client expires it and no other |
| `Leases.ReaperIsSafe` | tc_client/MainNFSD/nfs_reaper_thread.c:70-101 | in every run without such a renewal of a lapsed lease the reaper never expires a reserved client, although it drops the lock between check and expiry |
| `Leases.RevivalIsUnsafe` | tc_client/Protocols/NFS/nfs4_op_create_session.c:459-460 | after such a renewal of a condemned client any free compound can reserve it while it is condemned |
| `Leases.RevivalExample` | tc_client/Protocols/NFS/nfs4_op_create_session.c:459-460 | a run from the empty server that ends with a reserved client about to be expired |
| `Leases.KeptNeverLapses` | tc_client/Protocols/NFS/nfs4_op_open.c:1464-1472 | once an operation has kept a reservation, the lease is valid in every later state of every run, whatever the time, and the reaper never condemns the client, until something else expires it |
| `Leases.KeptExample` | tc_client/Protocols/NFS/nfs4_op_open.c:1464-1472 | a run from the empty server with one OPEN of version 4.1 that leaves a reservation and no compound |
| `Leases.ClientRecord.ValidLease` | tc_client/SAL/nfs4_lease.c:50-95 | when a lease is valid, as an if and only if |
| `Leases.ClientRecord.ReserveLease` | tc_client/SAL/nfs4_lease.c:108-127 | a reservation is taken exactly on a valid lease |
| `Leases.ClientRecord.UpdateLease` | tc_client/SAL/nfs4_lease.c:141-155 | a reservation is given back, and the last one sets the renewal time |
| `Leases.HoldLease` | tc_client/SAL/nfs4_state_id.c:570-609 | a compound moves its one reservation to the client of the stateid, or loses it if that lease is invalid |
| `Leases.WorkUnderLease` | tc_client/Protocols/NFS/nfs4_op_lockt.c:155-228 | OPEN and LOCKT reserve a valid lease and give it back in version 4.0 only |
| `Leases.HoldLeaseForClose` | tc_client/SAL/nfs4_state_id.c:514-559 | the same for a stateid already closed, where NFSv4.0 gives the reservation back at once |
| `ClientIds.DropRefSafe` | tc_client/SAL/nfs4_clientid.c:336-373 | giving up a reference never trips the assertion and frees only a record neither tabled nor held |
| `ClientIds.InsertSafe` | tc_client/SAL/nfs4_clientid.c:580-623 | insertion keeps tables and counts exact |
| `ClientIds.GetSafe` | tc_client/SAL/nfs4_clientid.c:1030-1081 | so does a lookup |
| `ClientIds.ConfirmSafe` | tc_client/SAL/nfs4_clientid.c:721-788 | so does confirmation, also when the key is taken |
| `ClientIds.RemoveSafe` | tc_client/SAL/nfs4_clientid.c:632-705 | so does removal from either table |
| `ClientIds.ExpireMarkSafe` | tc_client/SAL/nfs4_clientid.c:817-830 | so does the first part of expiry |
| `ClientIds.ExpireFinishSafe` | tc_client/SAL/nfs4_clientid.c:845-865 | so does the rest, whatever happened in between |
| `ClientIds.RunSafe` | tc_client/SAL/nfs4_clientid.c:580-1019 | in every run each record is in exactly the table its state names, its count is that slot plus its holders, and no assertion fails |
| `ClientIds.StartsEmpty` | tc_client/SAL/nfs4_clientid.c:1159-1198 | so do the empty tables that every run starts from |
| `ClientIds.FindIffTabled` | tc_client/SAL/nfs4_clientid.c:1030-1081 | lookup finds a record if and only if one with that id is in the table, and ids of another epoch are stale |
| `ClientIds.OthersStay` | tc_client/SAL/nfs4_clientid.c:580-865 | an operation on one record leaves every other record to be found where it was |
| `ClientIds.InsertEffect` | tc_client/SAL/nfs4_clientid.c:580-623 | a new record is found among the unconfirmed, with one reference, if its client id was free there; otherwise nothing changes |
| `ClientIds.ConfirmMoves` | tc_client/SAL/nfs4_clientid.c:752-788 | confirming a record whose client id is free among the confirmed moves it there with its count: it is found there and no longer among the unconfirmed |
| `ClientIds.ConfirmLoses` | tc_client/SAL/nfs4_clientid.c:752-788 | otherwise the record is in no table afterwards and lasts exactly if somebody holds it |
| `ClientIds.RemoveEffect` | tc_client/SAL/nfs4_clientid.c:632-705 | a removed record is in no table and lasts exactly if somebody holds it |
| `ClientIds.ExpireMarkEffect` | tc_client/SAL/nfs4_clientid.c:817-830 | a record marked expired is still found where it was, with its count; marking it again does nothing |
| `ClientIds.ExpireFinishEffect` | tc_client/SAL/nfs4_clientid.c:845-865 | the rest of its expiry leaves it in no table, to last exactly if somebody holds it |
| `ClientIds.GetEffect` | tc_client/SAL/nfs4_clientid.c:1030-1081 | a lookup that finds a record adds one reference and one holder, and one that does not changes nothing |
| `ClientIds.ReleaseEffect` | tc_client/SAL/nfs4_clientid.c:336-373 | letting go of a record frees it if and only if no table and nobody else has it |
| `ClientIds.AssertionFailsIff` | tc_client/SAL/nfs4_clientid.c:336-373 | the assertion fails exactly when a record that is not expired loses its last reference |
| `ClientIds.ClientTables.DecRef` | tc_client/SAL/nfs4_clientid.c:336-373 | the count, the free at zero and the assertion before it, which holds whenever a counted reference is given up; counts stay exact |
| `ClientIds.ClientTables.InsertClient` | tc_client/SAL/nfs4_clientid.c:580-623 | the unconfirmed table gains the record; tables and counts stay exact |
| `ClientIds.ClientTables.GetClient` | tc_client/SAL/nfs4_clientid.c:1030-1081 | lookup takes a reference for the caller; tables and counts stay exact |
| `ClientIds.ClientTables.ConfirmClient` | tc_client/SAL/nfs4_clientid.c:721-788 | the record moves between the tables, or expires when the key is taken; no assertion fails and tables and counts stay exact |
| `ClientIds.ClientTables.RemoveClient` | tc_client/SAL/nfs4_clientid.c:632-705 | the record leaves its table and loses the reference of the table; no assertion fails and tables and counts stay exact |
| `ClientIds.ClientTables.MarkExpired` | tc_client/SAL/nfs4_clientid.c:817-830 | the record is marked while it is still tabled; tables and counts stay exact |
| `ClientIds.ClientTables.FinishExpiry` | tc_client/SAL/nfs4_clientid.c:845-865 | the record leaves the table it was in when marked; no assertion fails and tables and counts stay exact |
| `Ranges.Canonical` | tc_client/NodeList/nodelist_range.c:183-260 | sorted, disjoint, non-adjacent ranges are unique for the set they denote |
| `Ranges.BoundedIffMembers` | tc_client/NodeList/nodelist_range.c:16-37 | bounds stay inside the long range exactly if all members do |
| `Ranges.MergePass` | tc_client/NodeList/nodelist_range.c:183-260 | one merging pass over a normal list adds exactly the range and keeps the list normal; a reversed range replaces everything |
| `Ranges.ReversedRangeLoses` | tc_client/NodeList/nodelist_range.c:183-260 | with reversed bounds the result is the union if and only if the list was empty |
| `Ranges.LeftOver` | tc_client/NodeList/nodelist_range.c:277-356 | cutting one range out of another leaves exactly the parts before and after it |
| `Ranges.SortNormal` | tc_client/NodeList/nodelist_range.c:484-490 | sorting a normal list changes nothing |
| `Ranges.RangeList.AddRange` | tc_client/NodeList/nodelist_range.c:183-260 | adding denotes set union and keeps the normal form |
| `Ranges.RangeList.RemoveRange` | tc_client/NodeList/nodelist_range.c:277-356 | removing denotes set difference and keeps the normal form |
| `Ranges.RangeList.AddAll` | tc_client/NodeList/nodelist_range.c:262-275 | adding several ranges denotes the union of all |
| `Ranges.AddInAnyOrder` | tc_client/NodeList/nodelist_range.c:183-260 | the final array does not depend on the order of the additions |
| `RangeText.ParseList` | tc_client/NodeList/nodelist_range.c:373-482 | the parser reads every well-formed list item by item |
| `RangeText.WidthIsLongest` | tc_client/NodeList/nodelist_range.c:419-424 | the width kept is that of the longest zero-led number |
| `RangeText.TakeText` | tc_client/NodeList/nodelist_range.c:410-462 | one number starts an interval, closes one or stands alone |
| `RangeText.AddList` | tc_client/NodeList/nodelist_range.c:373-482 | the loop over the text, for every text: what is added and what is returned |
| `RangeText.AddWellFormedList` | tc_client/NodeList/nodelist_range.c:373-482 | a well-formed list adds exactly the union of its intervals and returns the longest width, or -1 at the first number too large |
| `Acl.CheckAceGroup` | tc_client/FSAL/access_check.c:29-42 | the group test covers the primary and all other groups |
| `Acl.WhomAnEntryIsFor` | tc_client/FSAL/access_check.c:44-137 | to whom an entry applies, for OWNER@, GROUP@, EVERYONE@, groups, users and root, and to which objects |
| `Acl.VerdictIsFirst` | tc_client/FSAL/access_check.c:391-500 | what the loop knows about a bit is what the first entry that speaks about it says |
| `Acl.ScanAces` | tc_client/FSAL/access_check.c:391-500 | the loop with its early exits keeps the masks in step with the first entries |
| `Acl.CheckAccessAcl` | tc_client/FSAL/access_check.c:313-533 | access is granted if and only if each requested bit is finally allowed, whatever is asked about denied bits; exactly when a refusal is EPERM; with CONTINUE the masks are exact; denied bits are reported if and only if a needed bit is denied, and without CONTINUE they are those of the first entry that does so |
| `Acl.RuleForOthers` | tc_client/FSAL/access_check.c:391-500 | for a caller other than root: a bit is allowed if and only if some ALLOW entry names it with no DENY entry before; the owner needs no entry for four bits |
| `Acl.RuleForRoot` | tc_client/FSAL/access_check.c:337-371 | root is granted everything but EXECUTE, on directories too, which needs an ALLOW entry |
| `Acl.RootExample` | tc_client/FSAL/access_check.c:349-360 | root may not search a directory without entries |
| `FileStates.ShareConflictSymmetric` | tc_client/SAL/nfs4_state.c:187-207 | share conflicts do not depend on the order |
| `FileStates.WhatDelegationsExclude` | tc_client/SAL/nfs4_state.c:187-241 | a read delegation is excluded by writers, a write delegation by everyone, and states of other kinds by nothing |
| `FileStates.AddInv` | tc_client/SAL/nfs4_state.c:259-418 | adding a state without conflict keeps lists, table, pins and compatibility |
| `FileStates.AddStatusIs` | tc_client/SAL/nfs4_state.c:259-418 | an addition succeeds if and only if no state of the file excludes it, its stateid is free and the file is or can be pinned; and which error it is otherwise |
| `FileStates.AddEffect` | tc_client/SAL/nfs4_state.c:350-415 | an added state is at the end of both lists and found by its stateid, and nothing else changes |
| `FileStates.DelInv` | tc_client/SAL/nfs4_state.c:471-519 | so does deleting one |
| `FileStates.DelEffect` | tc_client/SAL/nfs4_state.c:471-519 | a deleted state is in no list and not found, and the others keep their order |
| `FileStates.WipeInv` | tc_client/SAL/nfs4_state.c:549-563 | so does wiping a file |
| `FileStates.WipeFile` | tc_client/SAL/nfs4_state.c:549-563 | a wipe removes exactly the states of the file and unpins it |
| `FileStates.UpgradeCompatible` | tc_client/SAL/state_share.c:273-355 | share modes that conflict with no state of the file may be added to a state: all shares stay compatible |
| `FileStates.DowngradeCompatible` | tc_client/Protocols/NFS/nfs4_op_open_downgrade.c:128-152 | a downgrade to fewer share modes keeps all shares compatible |
| `FileStates.ReshareEffect` | tc_client/SAL/state_share.c:343-346 | an upgrade or downgrade changes the share modes of that state and nothing else |
| `FileStates.RunInv` | tc_client/SAL/nfs4_state.c:259-563 | in every run of additions, upgrades, downgrades, deletions and wipes the file lists, the owner lists and the stateid table agree, a file is pinned once exactly if it has states, and its shares are pairwise compatible |
| `FileStates.StartsEmpty` | tc_client/SAL/nfs4_state_id.c:217-231 | the empty tables satisfy it |
| `FileStates.StateTable.FindConflict` | tc_client/SAL/nfs4_state.c:325-345 | the loop over the states of the file finds a conflict exactly if there is one |
| `FileStates.StateTable.AddState` | tc_client/SAL/nfs4_state.c:259-418 | the status, and the state linked everywhere or nowhere; lists, table, pins and compatibility stay right |
| `FileStates.StateTable.DelState` | tc_client/SAL/nfs4_state.c:471-519 | the state unlinked everywhere; lists, table, pins and compatibility stay right |
| `FileStates.StateTable.WipeStates` | tc_client/SAL/nfs4_state.c:549-563 | the loop deletes every state of the file and leaves it unpinned; lists, table, pins and compatibility stay right |
| `FileStates.StateTable.CheckSpecialStateid` | tc_client/SAL/nfs4_state_id.c:795-887 | anonymous I/O is refused if and only if a share with that access and no deny would conflict |
| `FileStates.DeniesAccess` | tc_client/SAL/nfs4_state_id.c:830-880 | which deny modes refuse which anonymous I/O |
| `Shares.ExcludesIsConflict` | tc_client/SAL/state_share.c:496-531 | clashing bits are the conflict of two share states |
| `Shares.ClashesIff` | tc_client/SAL/state_share.c:496-531 | the counters refuse an open if and only if a share or an I/O in progress excludes it, or what has been lost does |
| `Shares.OpenGrantedIff` | tc_client/SAL/state_share.c:496-531 | an open is granted if and only if nobody, no I/O in progress and nothing lost excludes it; a back end that refuses stops it only if some mode is new to the file |
| `Shares.UnionIsUsed` | tc_client/SAL/state_share.c:589-630 | the back end is told exactly the modes that somebody uses or that are lost |
| `Shares.GrantedHasNoConflict` | tc_client/SAL/state_share.c:496-531 | what the counters grant conflicts with no state in the list of the file |
| `Shares.AddInv` | tc_client/SAL/state_share.c:111-180 | an open keeps the counters accounted for and the shares compatible with each other and with I/O in progress |
| `Shares.UpgradeInv` | tc_client/SAL/state_share.c:273-355 | so does an upgrade |
| `Shares.DowngradeInv` | tc_client/Protocols/NFS/nfs4_op_open_downgrade.c:128-168 | so does every downgrade, counted or not |
| `Shares.CloseInv` | tc_client/Protocols/NFS/nfs4_op_close.c:254-267 | so does a close, whether or not the back end accepts it |
| `Shares.RunInv` | tc_client/SAL/state_share.c:111-677 | in every run the shares are compatible with each other and with I/O in progress, and each counter is the number of its users plus what has been lost |
| `Shares.RunRemembers` | tc_client/SAL/state_share.c:438-488 | in every run a state holds what its opens, upgrades and downgrades have left it, and remembers each mode it was opened with |
| `Shares.DowngradeValidIff` | tc_client/Protocols/NFS/nfs4_op_open_downgrade.c:128-258 | in every run a downgrade is invalid if and only if it asks for more than the state holds or, in version 4.0, for an access or a deny mode it was never opened with |
| `Shares.IoKeepsOut` | tc_client/SAL/state_share.c:638-677 | anonymous I/O keeps out whoever would exclude it while it lasts, and leaves nothing behind |
| `Shares.RunExactIff` | tc_client/Protocols/NFS/nfs4_op_open_downgrade.c:128-152 | a counter is the number of its users if and only if no downgrade above version 4.0 has given up that mode and no refused close has had it |
| `Shares.LostIsRefused` | tc_client/SAL/state_share.c:496-531 | a mode that is lost refuses every open against it after every run, whatever has been closed |
| `Shares.LostExample` | tc_client/Protocols/NFS/nfs4_op_open_downgrade.c:128-152 | opened, downgraded in version 4.1 and closed, a file with no state refuses what the downgrade gave up |
| `Shares.UpgradeAgainstItself` | tc_client/SAL/state_share.c:291-300 | an owner alone on a file is refused an upgrade if and only if it clashes with its own share |
| `Shares.SelfConflictExample` | tc_client/SAL/state_share.c:291-300 | an owner cannot add what it denies, on a file that nobody else uses |
| `Shares.DowngradeUndoesUpgrade` | tc_client/SAL/state_share.c:369-436 | a downgrade of version 4.0 to what a state had restores shares and counters |
| `Shares.FileShares.CheckConflict` | tc_client/SAL/state_share.c:496-531 | the four tests find a clash exactly if there is one |
| `Shares.FileShares.AddShare` | tc_client/SAL/state_share.c:111-180 | the status and the whole new state; a push that is refused leaves the counters as they were |
| `Shares.FileShares.UpgradeShare` | tc_client/SAL/state_share.c:273-355 | the same for an upgrade, with the union of the share modes |
| `Shares.FileShares.DowngradeShare` | tc_client/Protocols/NFS/nfs4_op_open_downgrade.c:128-273 | when a downgrade is invalid, and the whole new state in both minor versions |
| `Shares.FileShares.CloseShare` | tc_client/SAL/state_share.c:197-258 | the share is gone in any case, and the counters follow if the back end accepts |
| `Shares.FileShares.StartIo` | tc_client/SAL/state_share.c:638-658 | anonymous I/O is counted while it lasts, and refused on a clash |
| `Shares.FileShares.FinishIo` | tc_client/SAL/state_share.c:665-677 | and counted off |
| `Seqids.StateRecord.UpdateStateid` | tc_client/SAL/nfs4_state_id.c:756-784 | the sequence number moves on and is never zero |
| `Seqids.AfterIsCycle` | tc_client/SAL/nfs4_state_id.c:756-765 | n updates move n places in the cycle 1 to 2^32 - 1 |
| `Seqids.IssuedBefore` | tc_client/SAL/nfs4_state_id.c:625-677 | a number issued n updates ago, 1 <= n < 2^31, is old across wrap-around, or a replay for n = 1; never current or bad |
| `Seqids.JustIssued` | tc_client/SAL/nfs4_state_id.c:625-677 | the number last issued is current, or a replay where replays are looked for |
| `Seqids.ZeroIsCurrent` | tc_client/SAL/nfs4_state_id.c:620-623 | zero stands for the current number, except for layouts |
| `Seqids.NotYetIssued` | tc_client/SAL/nfs4_state_id.c:640-677 | a number n updates ahead is bad if and only if the signed difference can tell |
| `Seqids.TooManyUpdates` | tc_client/SAL/nfs4_state_id.c:640-677 | 2^31 updates are too many for the signed comparison |
| `Seqids.ReplayIsPredecessor` | tc_client/SAL/nfs4_state_id.c:631-655 | the replay test accepts exactly the immediate predecessor in the cycle |
| `FsIndex.CompareIsKeyOrder` | tc_client/FSAL/commonlib.c:534-568 | the comparison is the order of one number, so total and transitive |
| `FsIndex.ReIndexIsAtomic` | tc_client/FSAL/commonlib.c:660-711 | a success moves this file system and no other, a duplicate leaves the index as it was, and the fatal error is unreachable |
| `FsIndex.SplitAndJoin` | tc_client/FSAL/commonlib.c:766-826 | a 64-bit fsid split in two and joined again is the same if and only if its low half is 1, or it is 0 |
| `FsIndex.SplitExample` | tc_client/FSAL/commonlib.c:820-826 | an fsid that the split loses |
| `FsIndex.WordsAreKept` | tc_client/FSAL/commonlib.c:779-803 | a change to a type with two words keeps both, and one to the first word only and back restores the fsid |
| `FsIndex.SquashedHalves` | tc_client/include/fsal_api.h:1159-1162 | two words are squashed half by half with exclusive or, the halves of the second changing places |
| `FsIndex.FoldsIffLowHalvesAreTruth` | tc_client/FSAL/commonlib.c:810-819 | two words are folded by exclusive or, as the comment says, if and only if both low halves are 1, or 0 for the word 0 |
| `FsIndex.FoldExample` | tc_client/FSAL/commonlib.c:810-819 | a pair of words that is not folded so |
| `FsIndex.DeviceIffNotWords` | tc_client/FSAL/commonlib.c:804-828 | a change to the device type takes the device numbers if and only if the fsid is not one or two 64-bit words, or these happen to give the same numbers |
| `FsIndex.DeviceExample` | tc_client/FSAL/commonlib.c:804-828 | a change to the device type that does not take the device numbers |
| `FsIndex.FsTable.LookupFsid` | tc_client/FSAL/commonlib.c:570-588 | the descent finds a file system if and only if one that compares equal is indexed |
| `FsIndex.FsTable.ReIndex` | tc_client/FSAL/commonlib.c:660-711 | remove, change, insert, and put back on a duplicate |
| `FsIndex.FsTable.ChangeFsidType` | tc_client/FSAL/commonlib.c:754-838 | every change of type keeps the index ordered, also the one that retypes in place; when it is invalid, when it is a duplicate, and what changes |
| `Queues.QueueSet.Enqueue` | tc_client/MainNFSD/nfs_rpc_dispatcher_thread.c:939-990 | the queue of the request kind gains it at the end, the others are unchanged |
| `Queues.WhichQueue` | tc_client/MainNFSD/nfs_rpc_dispatcher_thread.c:939-975 | which requests go to which queue, and which to none |
| `Queues.QueueSet.Consume` | tc_client/MainNFSD/nfs_rpc_dispatcher_thread.c:1032-1090 | the first request of the one queue that the two lists stand for, also when requests arrive between the two locks |
| `Queues.QueueSet.Dequeue` | tc_client/MainNFSD/nfs_rpc_dispatcher_thread.c:1092-1142 | a round takes the first request of the first queue it finds not empty |
| `Queues.EmptyRound` | tc_client/MainNFSD/nfs_rpc_dispatcher_thread.c:1092-1142 | a round that comes back empty has found every queue empty when it looked |
| `Queues.Fifo` | tc_client/MainNFSD/nfs_rpc_dispatcher_thread.c:939-1090 | in every run what was taken and what is left are what was put, in order, and both sizes are the lengths |
| `Owners.Owner.Save` | tc_client/SAL/nfs4_owner.c:575-614 | seqid, operation, file and response are all replaced |
| `Owners.CheckSeqid` | tc_client/SAL/nfs4_owner.c:636-707 | execute, replay or refuse |
| `Owners.RunStandsAtLast` | tc_client/SAL/nfs4_owner.c:575-707 | in every run the saved executions have consecutive numbers modulo 2^32 and the owner stands at the last |
| `Owners.AtMostOnce` | tc_client/SAL/nfs4_owner.c:575-707 | a number is executed again only after 2^32 saved executions |
| `Owners.NewOwnerStartsAnywhere` | tc_client/SAL/nfs4_owner.c:650-657 | an owner without a saved request executes any number, and replays it if it was saved |
| `Owners.ContinuesFromSaved` | tc_client/SAL/nfs4_owner.c:650-670 | an owner with a saved entry continues with the next number |
| `Owners.RetransmissionsAreReplayed` | tc_client/SAL/nfs4_owner.c:676-706 | until the next number comes, the same request gets the saved response, the same number with another operation or file and every other number is refused, and the owner does not change |
| `CbSlots.Session.Scan` | tc_client/MainNFSD/nfs_rpc_callback.c:1184-1194 | the scan finds the first free slot and the highest slot in use |
| `CbSlots.Session.FindSlot` | tc_client/MainNFSD/nfs_rpc_callback.c:1177-1221 | a slot is reserved if and only if one is free, at once or after one wait, below the client limit |
| `CbSlots.Session.ReleaseSlot` | tc_client/MainNFSD/nfs_rpc_callback.c:1231-1240 | a slot is freed and an unsent reservation gives its number back |
| `CbSlots.SlotDiscipline` | tc_client/MainNFSD/nfs_rpc_callback.c:1295-1341 | in every run no two calls under way share a slot, and the numbers sent on a slot are consecutive, whatever reservations were given up |
| `CbSlots.ReserveHolds` | tc_client/MainNFSD/nfs_rpc_callback.c:1177-1221 | a reservation gives the call its slot with the number after the last one sent there |
| `CbSlots.SubmitSendsNext` | tc_client/MainNFSD/nfs_rpc_callback.c:1295-1341 | submitting it sends that number on that slot and nothing elsewhere |
| `CbSlots.ReleaseFrees` | tc_client/MainNFSD/nfs_rpc_callback.c:1231-1240 | the end of a call frees its slot for the number after the last one sent |
| `CbSlots.CallOnWireIsLast` | tc_client/MainNFSD/nfs_rpc_callback.c:1094-1096 | a call on the wire carries the last number sent on its slot |

## Left out

- Names of PATH_MAX characters and more, and an IP part with an opening parenthesis: the histories are about names below that limit with the address as the server prints it.
- Old directories of earlier starts (`nfs4_clean_old_recov_dir`) and the creation of the recovery directories.
- Expiry of clients when an IP address moves, which ignores leases by design.
- Dirents.DirIndex.QpInsert: does not model the linear-probe fallback, because quadratic probing fails only with about 2^30 keys taken; it reports that failure instead.
- Dirents.DirIndex.ListFrom: leaves out errors of an object other than staleness, which end the call with that error.
- Dupreq.Drc.StartRequest: is one step under the lock of the dictionary partition, where the source raises the retirement window and enters the queue under the lock of the cache inside it.
- Reference counts of the duplicate request caches themselves, their recycling, and requests that are not cached.
- The mode-bit access check that is used when an object has no list.
- Shares.FileShares.DowngradeShare: is one step above version 4.0 too, where the source holds no lock of the file.
- Shares of the NLM protocol and delegations in the counters of a file.
- FileStates.StateTable.AddState: leaves out delegations, that is the recall of conflicting delegations before an add and their own conflict rules.
- Owner references taken by open states on expiry: memory is not reclaimed there, so only safety is proved.
- The device index of file systems, which is the same code with a simpler key; balancing of the trees.
- Ranges.SortNormal: qsort is modelled as insertion by the same comparison, so nothing is said about ranges that compare equal and differ.
- Node lists made of several sub-lists, their copy and removal: set semantics do not hold there.
- Waking of worker threads and of waiters for slots: no liveness is claimed.
- Allocation failures, logging and statistics counters.
- Drivers, benchmarks, sockets, XDR, GSS, DBus and configuration: plumbing without laws of its own.
