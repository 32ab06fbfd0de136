# Verified models of the NFS server

This project models the parts of the Linux NFS server under `fs/nfsd` whose correctness is least
obvious from reading one function, and proves what they promise. Each module follows one component:

- **AclTypes, AclForward, AclReverse, AclSort, AclConvert, AclRoundTrip** - translation between POSIX
  ACLs and NFSv4 ACE lists (section 5.11 of RFC 3530). What an ACL grants is defined twice and
  independently: by the POSIX algorithm and by first-match evaluation of ACEs.
- **OpenState** - open and lock stateids of a file, its open counts, three shared descriptors and
  share reservations (section 8.9 of RFC 3530).
- **SessionSlots** - session slots and their replay cache (section 2.10.6.1 of RFC 5661).
- **DrcMemory** - accounting of the memory those caches reserve.
- **ClientTables** - confirmed and unconfirmed clients in four hash tables (section 18.35 of RFC 5661,
  sections 14.2.33 and 14.2.34 of RFC 3530).
- **Lease** - the list of clients ordered by renewal, and its reaping.
- **StateidGen** - stateid generation numbers.
- **ReaddirWriter** - writing READDIRPLUS entries across reserved pages.
- **CompoundReader** - reading a compound request across a head buffer and pages.
- **ReplyCache** - the duplicate-request cache and its caller.
- **UpcallIds** - transaction ids of upcalls.

The state machines are given twice. A specification on values says what each operation does to the
state and what it answers; invariants, results over whole runs, round trips and refinements are lemmas
about it. A class with the fields the source updates in place does the same step by step, and its
contracts equate its model before and after with the specification.

`dafny verify dfyconfig.toml` checks everything.

## What does not hold, and when it does

Some properties one would expect are false of the code. Each has a lemma with a failing run and one
that says exactly when the property holds.

- A new open whose truncate fails stays counted as long as others hold the file's record
  (`FailedTruncateLeaks`, `AccountingOverRuns`), and its descriptor stays open when the record is freed
  (`FailedTruncateOrphans`, `LastReleaseCloses`, `OrphansOverRuns`); an upgrade gives its count back.
- An owner can be refused because of its own earlier OPEN, though nobody else's reservation is touched
  (`OwnReservationRefuses`, `OwnerDeniedExactly`).
- A session created with fewer than 80 cached bytes, or whose allocation fails after a reduced grant,
  unbalances the reserved total (`SmallRequestLeaks`, `CreateBalancesExactly`); exactly 80 divides by
  zero (`EightyBytesDivideByZero`, `DivideErrorExactly`). `SoundExactly` joins the two conditions.
- A client with state can be displaced by an older incarnation (`StackingDisplacesNewer`): by exactly
  those unconfirmed records of its name that can be confirmed (`DisplacedByExactly`). It takes an
  EXCHANGE_ID that leaves two unconfirmed records of one name: without one for that name it cannot
  happen (`DisplacedByNewer`), and with one it always can, as long as the 32-bit clientid counter has
  not come round (`FirstStackingOpensTheWay`).
- Two generations exactly half the range apart are each judged old by the other (`VerdictsOppose`).
- A call that ends after its cache entry has been superseded leaves two current entries for its key
  (`LateFinishDuplicates`, `StepKeyedFor`).
- The dispatcher passes on the cache type of the procedure, which is none for a v4 compound even when
  the decoder asked for caching, so such replies are never stored (`UncachedTypeIsRepeated`). The
  comments at `fs/nfsd/nfs4xdr.c:1650-1659` say otherwise; the model follows the code.
- When an entry is refused after one whose cookie was split over two pages, the final write of that
  cookie puts its second word behind the page; the cookie itself is right already (`BoundaryOverrun`,
  and for all inputs `Readdirplus`).
- The size estimate of an entry leaves out one word of a 64-byte file handle. An entry can then end
  exactly with its page; the reply is counted too long, or the next entry finds no page to be written
  to (`PageEdge`, `EdgeExactly`, and for all inputs `Readdirplus`).
- A reply to an upcall that cannot be copied leaves the upcall off the list with its waiter asleep
  (`FailedCopyStrands`, `StrandsExactly`).

## Model

| member | source | states |
|---|---|---|
| AclForward.ModeBitsExact | fs/nfsd/nfs4acl.c:65-97 | A permission's mask bits are in an allow or deny mask exactly when the permission is, and no two permissions share a bit. |
| AclForward.SummarizePosixAcl | fs/nfsd/nfs4acl.c:174-216 | One pass over the flat entries yields the owner, group, other and mask permissions and the unions over named users and groups. |
| AclForward.UserAcesDecide | fs/nfsd/nfs4acl.c:259-280 | First-match evaluation of the named-user ACEs decides each permission bit as the requester's own entry, masked, does, and leaves everyone else undecided. |
| AclForward.GroupDeniesDecide | fs/nfsd/nfs4acl.c:322-337 | The named-group denials refuse exactly the bits that "other" grants and some group of the requester withholds. |
| AclForward.ForwardIsExact | fs/nfsd/nfs4acl.c:218-346 | For every valid ACL, requester and permission, first-match evaluation of the emitted ACEs grants the bit if and only if the POSIX algorithm does, several groups and an owner who is also a named user included. |
| AclForward.Emit | fs/nfsd/nfs4acl.c:133-163 | At most two ACEs are emitted for each POSIX entry. |
| AclForward.PosixToNfsv4One | fs/nfsd/nfs4acl.c:218-346 | The step-by-step filling of the ACE array never exceeds its size and leaves exactly the specified ACEs. |
| AclForward.PosixToNfsv4 | fs/nfsd/nfs4acl.c:133-163 | Access and default ACL, either of which may be absent, translated into one array of two ACEs per entry that is always large enough. |
| AclReverse.ProcessOneSound | fs/nfsd/nfs4acl.c:622-691 | Each ACE keeps the invariant: once first-match evaluation has denied a bit, the requester's accumulator, or the one for everyone if it has no entry, holds the denial. |
| AclReverse.ProcessOneShape | fs/nfsd/nfs4acl.c:622-691 | Each ACE adds at most one named id, and named ids stay distinct. |
| AclReverse.ProcessAllSound | fs/nfsd/nfs4acl.c:693-752 | The invariant holds after any list of accepted ACEs. |
| AclReverse.StateGrantsSoundly | fs/nfsd/nfs4acl.c:491-576 | What the produced ACL grants from an accumulator state is granted by the ACEs that state stands for. |
| AclReverse.ReverseIsConservative | fs/nfsd/nfs4acl.c:578-752 | For every ACE list the converter accepts and every requester, each r, w, x bit the produced ACL grants, mask applied, is granted bit for bit by first-match evaluation of the effective ACEs. |
| AclSort.SwapRemovesInversion | fs/nfsd/nfs4acl.c:348-367 | A swap of neighbours out of order leaves fewer inversions. |
| AclSort.BubblePass | fs/nfsd/nfs4acl.c:348-367 | One pass keeps the entries and either finds the range strictly ascending or reduces its inversions. |
| AclSort.SortPaclRange | fs/nfsd/nfs4acl.c:348-367 | The in-place sort terminates with a permutation of the range in strictly ascending order. |
| AclSort.SortPacl | fs/nfsd/nfs4acl.c:369-389 | Users and groups of a flat ACL end up in order, everything else stays. |
| AclSort.ReorderedGrantsSame | fs/nfsd/nfs4acl.c:369-389 | Sorting changes nobody's access. |
| AclSort.SortedIsUnique | fs/nfsd/nfs4acl.c:348-389 | A list with the same entries that is already ascending is the sorted one. |
| AclConvert.AceStateArray.FindUid | fs/nfsd/nfs4acl.c:590-604 | Finds the id or appends it with the denials and allowances of everyone; the array never overflows. |
| AclConvert.AceStateArray.DenyBits | fs/nfsd/nfs4acl.c:606-612 | Denies the bits to every element, in place. |
| AclConvert.AceStateArray.AllowBits | fs/nfsd/nfs4acl.c:614-620 | Allows the bits to every element, in place. |
| AclConvert.PosixAclState.ProcessOneV4Ace | fs/nfsd/nfs4acl.c:622-691 | The in-place accumulator step equals the specified one. |
| AclConvert.PosixAclState.FillEntries | fs/nfsd/nfs4acl.c:526-557 | Writes one entry per named id, collects the mask, and fails exactly when some id was denied a bit that cannot be denied. |
| AclConvert.PosixAclState.PosixStateToAcl | fs/nfsd/nfs4acl.c:491-576 | Fills the entry array with the ACL of the state, or an empty default ACL, and fails exactly when a denial is not expressible. |
| AclConvert.ProcessAces | fs/nfsd/nfs4acl.c:699-728 | Sorts the ACEs into effective and inheritable ones and stops at the first it does not accept. |
| AclConvert.Nfsv4ToPosix | fs/nfsd/nfs4acl.c:693-752 | The whole in-place conversion succeeds exactly when the specification does, with sorted arrays that hold its entries. |
| AclConvert.ConvertedArrayIsConservative | fs/nfsd/nfs4acl.c:578-752 | End to end, for what the sorted arrays hold: the ACL in either array is valid, each r, w, x bit it grants a requester is granted by first-match evaluation of the ACEs selected for it, and only the default ACL is absent, exactly when no ACE is inheritable. |
| AclRoundTrip.NormalizedGrantsSame | fs/nfsd/nfs4acl.c:491-576 | The ACL that comes back grants every requester what the original does, even when the original had no mask entry. |
| AclRoundTrip.EmitConverts | fs/nfsd/nfs4acl.c:218-346 | No denial that translation emits is rejected on the way back, and the result has the same ids with owner, other and every masked group-class permission unchanged. |
| AclRoundTrip.RoundTrip | fs/nfsd/nfs4acl.c:133-752 | Translating and converting back succeeds exactly when there is no default ACL or the object is a directory, with that result for both ACLs; an absent access ACL comes back as one that grants nothing. |
| AclRoundTrip.RoundTripSorted | fs/nfsd/nfs4acl.c:369-389 | The final sort leaves the round-trip result as it is. |
| OpenState.PutBacked | fs/nfsd/nfs4state.c:216-238 | Giving up a use lowers the counts by exactly that use and keeps a usable descriptor behind every positive count. |
| OpenState.StepKeeps | fs/nfsd/nfs4state.c:2704-3076 | Every open, upgrade, downgrade, close, lock and delegation operation, and the freeing of a record nobody holds, keeps the accounting and the share reservations. |
| OpenState.ReleaseLocksKeeps | fs/nfsd/nfs4state.c:597-607 | Releasing the locks under an open takes their uses with them. |
| OpenState.AccountingOverRuns | fs/nfsd/nfs4state.c:142-238 | Over every run the counts of a file cover its stateids' READ, WRITE and BOTH bits, and equal them exactly when no new open has failed in its truncate under a record that others held, since the inode last was without a record. |
| OpenState.DescriptorsOverRuns | fs/nfsd/state.h:386-427 | A positive count always has a usable descriptor, and all three are closed exactly when both counts are zero. |
| OpenState.LastReleaseCloses | fs/nfsd/nfs4state.c:142-151 | When the last stateid or delegation goes, the record is freed, and a descriptor stays open without a record exactly when such an open failed under it, or the operation was one. |
| OpenState.OrphansOverRuns | fs/nfsd/nfs4state.c:142-151 | Over every run: some descriptor has been orphaned so exactly when some record of the inode ended that way. |
| OpenState.FailedTruncateLeaks | fs/nfsd/nfs4state.c:3035-3040 | The concrete run: one owner has the file open for reading, another's OPEN for writing fails in its truncate, and the count of writers is one with no stateid that writes. |
| OpenState.FailedTruncateOrphans | fs/nfsd/nfs4state.c:3035-3075 | The same OPEN with nobody else holding the file: the record is freed and one descriptor stays open. |
| OpenState.SharesOverRuns | fs/nfsd/nfs4state.c:2704-2722 | Section 8.9 of RFC 3530 over every run: no open's access meets another's deny, and each owner has one open stateid for the file at most. |
| OpenState.DeniedExactlyWhenUnsafe | fs/nfsd/nfs4state.c:2704-2722 | A new owner's OPEN is refused as a conflict if and only if granting it would break the reservations. |
| OpenState.OwnerDeniedExactly | fs/nfsd/nfs4state.c:2704-2722 | An owner that has the file open is refused if and only if the upgrade would break the reservations or its request conflicts with its own stateid. |
| OpenState.OwnReservationRefuses | fs/nfsd/nfs4state.c:2704-2722 | The concrete run for the second half: the only owner, reading and denying reading, is refused when it asks for reading again. |
| OpenState.FailedUpgradeRestores | fs/nfsd/nfs4state.c:2773-2799 | A failed upgrade changes no count and no stateid. |
| OpenState.CloseUndoesOpen | fs/nfsd/nfs4state.c:609-614 | Closing a fresh stateid takes back exactly what its OPEN counted. |
| OpenState.DowngradeReaches | fs/nfsd/nfs4state.c:3649-3729 | A granted downgrade leaves exactly the requested share modes and touches no other stateid. |
| OpenState.Nfs4File.PutAccessOne | fs/nfsd/nfs4state.c:216-229 | The in-place decrement and the closing of descriptors equal the specified step. |
| OpenState.Nfs4File.CheckOpen | fs/nfsd/nfs4state.c:2704-2722 | The scan reports a conflict exactly when there is one, and otherwise the owner's stateid. |
| OpenState.Nfs4File.UpgradeOpen | fs/nfsd/nfs4state.c:2773-2799 | Counts, bitmaps and status of an upgrade, its failure paths included. |
| OpenState.Nfs4File.PutFile | fs/nfsd/nfs4state.c:142-151 | Dropping a reference; the last one orphans whatever descriptors are open. |
| OpenState.Nfs4File.ProcessOpen2 | fs/nfsd/nfs4state.c:2992-3076 | OPEN in place, on an inode with or without a record, new open or upgrade, with the reference held meanwhile. |
| OpenState.Nfs4File.OpenDowngrade | fs/nfsd/nfs4state.c:3685-3729 | Clears the dropped access bits with their counts, and the deny bits outside the new mode. |
| OpenState.Nfs4File.ReleaseAllAccess | fs/nfsd/nfs4state.c:532-544 | The loop over the three access bits gives up each that is set. |
| OpenState.Nfs4File.ReleaseStateidLockowners | fs/nfsd/nfs4state.c:597-607 | The loop releases every lock stateid under the open. |
| OpenState.Nfs4File.CloseOpenStateid | fs/nfsd/nfs4state.c:551-614 | Takes the stateid off the list, releases its locks and its own uses, and drops its reference. |
| OpenState.Nfs4File.GetLockAccess | fs/nfsd/nfs4state.c:4013-4022 | Counts a lock's first use of a right when a descriptor can serve it. |
| SessionSlots.StepKeeps | fs/nfsd/nfs4state.c:1994-2077 | Each SEQUENCE and each end of a compound keep a slot equal to its history: last id, use, caching flag and stored reply. |
| SessionSlots.ConsecutiveIds | fs/nfsd/nfs4state.c:1689-1708 | Over every run the ids accepted on a slot are 1, 2, 3, ... modulo 2^32, and only the last may still be running. |
| SessionSlots.IdsRepeatOnlyAfterWrap | fs/nfsd/nfs4state.c:1689-1708 | Two executions on a slot have the same id exactly when a multiple of 2^32 apart. |
| SessionSlots.NoEarlyReexecution | fs/nfsd/nfs4state.c:1689-1708 | An executed id is not executed again before 2^32 - 1 others were. |
| SessionSlots.ExecutesExactlyNext | fs/nfsd/nfs4state.c:1994-2071 | A request runs if and only if it is within the session's limits, its slot is idle and its id is the next one. |
| SessionSlots.BusySlot | fs/nfsd/nfs4state.c:1696-1702 | Nothing else runs on a busy slot, and a copy of the running request is told to wait. |
| SessionSlots.RetryGetsStoredReply | fs/nfsd/nfs4state.c:1493-1539 | An identical retry changes nothing and gets the stored operation count, status and bytes exactly when caching was asked for or SEQUENCE is all it holds. |
| SessionSlots.UnusedSlotReplaysNothing | fs/nfsd/nfs4state.c:2044-2047 | A slot that ran nothing accepts id 1 and refuses id 0 rather than replay it. |
| SessionSlots.OtherSlotsUntouched | fs/nfsd/nfs4state.c:2036-2071 | Traffic on one slot changes no other. |
| SessionSlots.SlotTable.OnSequence | fs/nfsd/nfs4state.c:1994-2071 | The in-place field updates of SEQUENCE and its answer. |
| SessionSlots.SlotTable.EncodeCompoundRes | fs/nfsd/nfs4xdr.c:3681-3689 | Storing the reply and releasing the slot, in place. |
| DrcMemory.GrantFits | fs/nfsd/nfs4state.c:738-752 | A grant is at most 160 slots and 32 KiB, and never takes the total over the maximum. |
| DrcMemory.CreateBalancesExactly | fs/nfsd/nfs4state.c:929-980 | From a balanced pool CREATE_SESSION keeps the balance if and only if it stops in the division without touching the pool, or nothing was granted, or the slots were allocated and more than 80 cached bytes were asked for, or allocation failed and the request equals the grant up to a multiple of 2^32 bytes. |
| DrcMemory.DivideErrorExactly | fs/nfsd/nfs4state.c:720-752 | CREATE_SESSION divides by zero if and only if it asks for exactly 80 cached bytes, whatever the pool, and it has changed nothing by then. |
| DrcMemory.EightyBytesDivideByZero | fs/nfsd/nfs4state.c:720-752 | The concrete run: one request for 80 cached bytes and one slot on a fresh pool of any size. |
| DrcMemory.SoundExactly | fs/nfsd/nfs4state.c:929-980 | From a balanced pool CREATE_SESSION neither divides by zero nor unbalances the pool if and only if it asks for other than 80 bytes and conserves. |
| DrcMemory.FreeBalances | fs/nfsd/nfs4state.c:906-920 | Releasing any session keeps the balance. |
| DrcMemory.MemoryConserved | fs/nfsd/nfs4state.c:738-920 | Over every run of conserving requests the total is the sum of slots times slot size over live sessions, never exceeds the maximum, and is zero exactly when no session lives. |
| DrcMemory.OrdinaryRequestsConserve | fs/nfsd/nfs4state.c:949-954 | Requests for more than 80 bytes conserve when allocation succeeds or had not been reduced. |
| DrcMemory.SmallRequestLeaks | fs/nfsd/nfs4state.c:720-731 | The concrete run: a session asked for with 40 cached bytes leaves 1064 bytes counted once it is gone. |
| DrcMemory.DrcPool.GetDrcMem | fs/nfsd/nfs4state.c:738-752 | The clamped grant and its reservation. |
| DrcMemory.DrcPool.AllocSession | fs/nfsd/nfs4state.c:761-786 | Every buffer is allocated, or every one is given back. |
| DrcMemory.DrcPool.AllocInitSession | fs/nfsd/nfs4state.c:929-980 | The whole sequence with its failure paths, in place. |
| ClientTables.ChainLookupIsScan | fs/nfsd/nfs4state.c:1358-1413 | Looking a key up in the chain it hashes to finds what a scan of every client would. |
| ClientTables.StepKeeps | fs/nfsd/nfs4state.c:1557-2291 | Every operation keeps: no client twice, none both confirmed and unconfirmed, one confirmed client per name and per clientid. |
| ClientTables.ConfirmedOncePerNameAndId | fs/nfsd/nfs4state.c:1334-1413 | That uniqueness over every run, however often the 32-bit clientid counter wraps. |
| ClientTables.StateSurvivesRequests | fs/nfsd/nfs4state.c:1557-1687 | SETCLIENTID, EXCHANGE_ID and DESTROY_CLIENTID never discard a confirmed client that holds state. |
| ClientTables.StateLostOnlyToSameName | fs/nfsd/nfs4state.c:1832-1839 | Lease expiry apart, such a client goes away only when another record of its name is confirmed. |
| ClientTables.StepOrderly | fs/nfsd/nfs4state.c:1612-1672 | For each name: one unconfirmed record, newer than the confirmed one. Every operation keeps this, except an EXCHANGE_ID for that name in case 3 or 5 while an unconfirmed record of the name exists, and that always breaks it. |
| ClientTables.DisplacedByNewer | fs/nfsd/nfs4state.c:1832-1839 | In runs without that for its own name, the record that displaces a client with state was created after it. |
| ClientTables.DisplacedByExactly | fs/nfsd/nfs4state.c:1782-1839 | Some request confirms record u and thereby discards confirmed client c if and only if u is an unconfirmed record of the same name that its clientid finds, with no confirmed client under that clientid. |
| ClientTables.OlderDisplacesNewer | fs/nfsd/nfs4state.c:1782-1839 | From every state that meets the invariant, with two unconfirmed records of one name that their clientids find and no confirmed client of another identity under those ids, CREATE_SESSION for the newer and then for the older discards the newer while it holds a session. |
| ClientTables.RunIdsApart | fs/nfsd/nfs4state.c:1257-1264 | Until the 32-bit counter has come round, records with equal clientids have one name and the next clientid is nobody's. |
| ClientTables.FirstStackingOpensTheWay | fs/nfsd/nfs4state.c:1612-1672 | Over runs too short for that, the first EXCHANGE_ID that stacks a second record for a name always leaves a state in which two more requests displace a newer client with state by an older record. |
| ClientTables.StackingDisplacesNewer | fs/nfsd/nfs4state.c:1637-1672 | The concrete run in which an older record displaces a newer one that holds a session. |
| ClientTables.SetClientidThenConfirm | fs/nfsd/nfs4state.c:2173-2291 | SETCLIENTID and the confirmation of its answer leave a confirmed record with the caller's name, verifier and credential under the returned clientid. |
| ClientTables.ExchangeIdThenSession | fs/nfsd/nfs4state.c:1754-1844 | EXCHANGE_ID for a new record and its first CREATE_SESSION leave that record confirmed, with state. |
| ClientTables.Tables.FindConfirmed | fs/nfsd/nfs4state.c:1358-1402 | The walk of one chain returns the first hit among all confirmed clients. |
| ClientTables.Tables.ExpireClient | fs/nfsd/nfs4state.c:1133-1166 | A client leaves its id chain and its name chain; all four tables still file exactly the two lists. |
| ClientTables.Tables.MoveClient | fs/nfsd/nfs4state.c:1345-1356 | A client moves from the unconfirmed to the confirmed tables. |
| ClientTables.Tables.CreateClient | fs/nfsd/nfs4state.c:1292-1343 | A new record enters both unconfirmed tables with a generated or copied clientid. |
| ClientTables.Tables.OnSetClientid | fs/nfsd/nfs4state.c:2173-2233 | SETCLIENTID in place, every branch and status. |
| ClientTables.Tables.OnSetClientidConfirm | fs/nfsd/nfs4state.c:2236-2291 | SETCLIENTID_CONFIRM in place, every branch and status. |
| ClientTables.Tables.OnExchangeId | fs/nfsd/nfs4state.c:1570-1687 | EXCHANGE_ID in place, cases 1 to 9 of section 18.35.4 of RFC 5661. |
| ClientTables.Tables.OnCreateSession | fs/nfsd/nfs4state.c:1754-1844 | CREATE_SESSION's effect on the tables, every branch and status. |
| ClientTables.Tables.OnDestroyClientid | fs/nfsd/nfs4state.c:2097-2132 | DESTROY_CLIENTID in place. |
| Lease.TimeAfterIsLater | fs/nfsd/nfs4state.c:3181-3182 | The wrapped time comparison is the plain one while times are within half the range. |
| Lease.EarlyExit | fs/nfsd/nfs4state.c:3179-3195 | In a list sorted by renewal time, stopping at the first unexpired lease reaps, keeps and measures what a scan of the whole list would. |
| Lease.StepKeeps | fs/nfsd/nfs4state.c:1029-1046 | Creation, renewal, requests, expiry and reaping keep the list sorted by renewal time under a clock that does not go back. |
| Lease.ReapsExactlyTheIdle | fs/nfsd/nfs4state.c:3179-3202 | A scan of the whole list takes exactly the clients idle for the lease time with no request in flight and keeps all others. |
| Lease.RecentlyRenewedSurvives | fs/nfsd/nfs4state.c:1029-1046 | Over every run: a client listed with a renewal at t0 or later is still listed as long as the run ends before t0 plus the lease time and does not expire it explicitly, whatever passes and requests the run holds. |
| Lease.RenewalLists | fs/nfsd/nfs4state.c:1029-1046 | Renewing a client lists it with the present as its t0. |
| Lease.SleepNeverOvershoots | fs/nfsd/nfs4state.c:3179-3233 | The returned sleep never passes the end of an unexpired lease, and the one-second floor never changes it. |
| Lease.Scan | fs/nfsd/nfs4state.c:3179-3195 | The loop with its early exit takes exactly the clients idle for the lease time with no request in flight, keeps all others, and returns the lists and the sleep of the full scan. |
| Lease.ClientLru.LaundromatPass | fs/nfsd/nfs4state.c:3162-3234 | The pass over the client list, in place. |
| Lease.ClientLru.ReleaseSessionClient | fs/nfsd/nfs4state.c:1104-1117 | The end of a request drops a reference and renews the lease with the last one. |
| StateidGen.CheckByDistance | fs/nfsd/nfs4state.c:3326-3358 | The verdict on a generation depends only on its distance modulo 2^32: same, up to half way behind, or ahead. |
| StateidGen.VerdictsOppose | fs/nfsd/nfs4state.c:3326-3358 | Of two values one judges the other old exactly when it is judged from the future in turn, except half the range apart, where both are old. |
| StateidGen.UpdatesGoRound | fs/nfsd/state.h:298-305 | From any value but zero, k updates lead k places on around the 2^32 - 1 values other than zero, for every k. |
| StateidGen.NeverZero | fs/nfsd/state.h:298-305 | After any number of updates from any value, zero included, the value is not zero. |
| StateidGen.OldExactly | fs/nfsd/nfs4state.c:3326-3358 | After any number k of updates the older value is judged current exactly when k is full turns of 2^32 - 1, old exactly when the gap is at most 2^31, and from the future otherwise. |
| StateidGen.FutureExactly | fs/nfsd/nfs4state.c:3326-3358 | And the newer value checked against the older is judged from the future exactly when the gap is less than 2^31. |
| StateidGen.CurrentOnlyAfterFullTurns | fs/nfsd/nfs4state.c:3326-3358 | An old value is the current one again exactly after full turns. |
| StateidGen.ZeroGeneration | fs/nfsd/nfs4state.c:3332-3339 | A zero generation means the current one with sessions and is judged by distance without. |
| StateidGen.Stateid.UpdateStateid | fs/nfsd/state.h:298-305 | The in-place increment that skips zero. |
| UpcallIds.SearchEnds | fs/nfsd/nfs4recover.c:740-769 | With fewer than 2^32 upcalls outstanding the search ends at a free id after at most as many collisions as there are upcalls. |
| UpcallIds.SearchNeedsAFreeId | fs/nfsd/nfs4recover.c:750-758 | With all 2^32 ids taken it would find none. |
| UpcallIds.StepKeeps | fs/nfsd/nfs4recover.c:740-780 | Allocation, reply and release keep outstanding ids distinct. |
| UpcallIds.OutstandingIdsDistinct | fs/nfsd/nfs4recover.c:740-769 | Outstanding ids are pairwise distinct over every run, across wraparound. |
| UpcallIds.ReplyWakesOne | fs/nfsd/nfs4recover.c:570-615 | A reply wakes somebody exactly when an upcall has its id and the reply can be copied, and then that upcall's waiter; the upcall leaves the list either way, no other does, and the same reply finds nobody a second time. |
| UpcallIds.StrandsExactly | fs/nfsd/nfs4recover.c:592-614 | A reply takes a listed upcall out of reach of every later reply without waking it exactly when it has its id and cannot be copied. |
| UpcallIds.UnlistedNeverWoken | fs/nfsd/nfs4recover.c:592-614 | No run wakes the waiter of an upcall that is off the list. |
| UpcallIds.FailedCopyStrands | fs/nfsd/nfs4recover.c:592-614 | The concrete run: one upcall, and a reply to it whose copy fails. |
| UpcallIds.CldNet.Search | fs/nfsd/nfs4recover.c:750-758 | The restart loop terminates with the first free value from the counter on. |
| UpcallIds.CldNet.AllocCldUpcall | fs/nfsd/nfs4recover.c:740-769 | A new upcall gets that value and the counter moves behind it. |
| UpcallIds.CldNet.CldPipeDowncall | fs/nfsd/nfs4recover.c:592-614 | The list walk, the unlinking before the copy, and the three results. |
| UpcallIds.CldNet.FreeCldUpcall | fs/nfsd/nfs4recover.c:771-780 | Releasing an upcall takes it off the list if it is still there. |
| ReplyCache.ChainSearchIsPoolScan | fs/nfsd/nfscache.c:143-153 | The search of one hash chain finds an entry exactly when some entry of the whole pool matches, and the same one as a search of all chains. |
| ReplyCache.StepKeeps | fs/nfsd/nfscache.c:120-303 | Lookups and updates keep: the LRU list a permutation of the pool with finished entries in order of use, every used entry filed under its id, entries in progress owned by one call each. |
| ReplyCache.EvictsLeastRecent | fs/nfsd/nfscache.c:156-198 | The entry taken over is never in progress, and if it is finished it is the least recently used finished one. |
| ReplyCache.InProgressIsOwned | fs/nfsd/nfscache.c:156-198 | An entry in progress stays with the call that claimed it until that call ends. |
| ReplyCache.StepKeyedFor | fs/nfsd/nfscache.c:143-303 | At most one current entry for a given key: every event keeps this, except the end of a call for that key whose entry outlived its 120 seconds while a retransmission claimed another, and that always breaks it. Other keys do not matter. |
| ReplyCache.CacheIsKeyedMap | fs/nfsd/nfscache.c:48-303 | The same for all keys at once, over every run of a fresh cache in which no superseded call ends. |
| ReplyCache.LateFinishDuplicates | fs/nfsd/nfscache.c:143-303 | The concrete run that leaves two current entries for one key. |
| ReplyCache.RetransmissionFindsEntry | fs/nfsd/nfscache.c:143-239 | In every state, keyed or not, a retransmission with a current entry claims nothing and is answered from a current entry for its key. |
| ReplyCache.RetransmissionAnswer | fs/nfsd/nfscache.c:203-239 | With one current entry for its key, exactly when a retransmission is dropped, answered with the stored words, or executed again. |
| ReplyCache.FinishedCallNotRepeated | fs/nfsd/nfscache.c:203-303 | After a call ends with a cacheable reply, any run that neither takes over nor outdates its entry, nor ends a superseded call for the same key, answers a retransmission with the stored words or drops it, whatever happens to other keys. |
| ReplyCache.TakenExactly | fs/nfsd/nfscache.c:156-198 | A call takes over an idle entry exactly when it claims one at all and no idle entry stands before it in the LRU list. |
| ReplyCache.StoredReplyLasts | fs/nfsd/nfscache.c:96-303 | A stored reply outlives every run within its 120 seconds that brings at most as many calls as there are idle entries before it. |
| ReplyCache.AheadAfterFinish | fs/nfsd/nfscache.c:257-303 | When a call has just ended, that is every entry but its own and those of the calls in progress. |
| ReplyCache.StoredReplyAnswers | fs/nfsd/nfscache.c:203-303 | So after a call ends with a cacheable reply, no other entry for its key being in progress or current, for 120 seconds and through that many calls a retransmission is dropped or answered with the stored words. |
| ReplyCache.UncachedTypeIsRepeated | fs/nfsd/nfssvc.c:652-655 | With the cache type the dispatcher passes for a v4 compound, a retransmission past the delay is executed again. |
| ReplyCache.ClaimIsReleased | fs/nfsd/nfscache.c:156-303 | A call's entry stays its own, in progress under its key, through any calls, ends and claims of others until its one update, which releases it if and only if the cache has not been disabled meanwhile. |
| ReplyCache.DispatchReleases | fs/nfsd/nfssvc.c:581-655 | The special case of lookup, execution and update with nothing in between on an enabled cache: no more entries are in progress than before. |
| ReplyCache.CacheTable.HashRefile | fs/nfsd/nfscache.c:108-113 | An entry moves from the chain of its former id to that of its new one. |
| ReplyCache.CacheTable.FindIdle | fs/nfsd/nfscache.c:156-168 | The LRU walk returns the first entry not in progress, and its guard against a looping list, which is part of the loop, never fires. |
| ReplyCache.CacheTable.CacheLookup | fs/nfsd/nfscache.c:120-239 | The lookup in place: found, claimed, or all entries busy. |
| ReplyCache.CacheTable.CacheUpdate | fs/nfsd/nfscache.c:257-303 | The update in place with its failure paths. |
| ReplyCache.CacheTable.Dispatch | fs/nfsd/nfssvc.c:581-655 | One lookup paired with one update. |
| CompoundReader.ReadBufIsFlat | fs/nfsd/nfs4xdr.c:124-176 | READ_BUF returns the bytes reading the concatenation of head and pages would and consumes them rounded up to four; a failure consumes nothing. |
| CompoundReader.ReadBufFailsOnlyAtEnd | fs/nfsd/nfs4xdr.c:124-156 | For sizes up to a page it fails only at the end of the stream, memory permitting. |
| CompoundReader.OpcodeIsFlat | fs/nfsd/nfs4xdr.c:1606-1637 | The opcode fetch takes the next four bytes across a page boundary, and reports a missing opcode exactly at the end of the stream. |
| CompoundReader.PagedReadingIsFlat | fs/nfsd/nfs4xdr.c:124-176 | Any sequence of reads and opcode fetches returns what it would on the concatenation. |
| CompoundReader.PagedReadingIsPrefix | fs/nfsd/nfs4xdr.c:124-176 | Whatever the sizes and allocations, what is returned is a prefix of that. |
| CompoundReader.CompoundArgs.ReadBytes | fs/nfsd/nfs4xdr.c:124-176 | The moving pointers, page list and page length, in place. |
| CompoundReader.CompoundArgs.FetchOpcode | fs/nfsd/nfs4xdr.c:1613-1637 | The opcode fetch in place. |
| ReaddirWriter.AppendedIsRendered | fs/nfsd/nfs3xdr.c:884-895 | Appending entries one by one, each giving its predecessor its cookie, yields the concatenation in which every cookie is the next entry's offset. |
| ReaddirWriter.RenderedEntry | fs/nfsd/nfs3xdr.c:794-804 | Where each entry lies in the reply, with which cookie. |
| ReaddirWriter.CookiePtrIndex | fs/nfsd/nfs3xdr.c:959-977 | The three cases of a moved cookie, one of them split over two pages, all address its place in the flat reply. |
| ReaddirWriter.Writer.constructor | fs/nfsd/nfs3xdr.c:575-600 | One page reserved per begun page of the byte count, two words kept for the end marks. |
| ReaddirWriter.Writer.WriteCookie | fs/nfsd/nfs3xdr.c:884-895 | Both halves of the last cookie are written; when its second half is no longer known, one word goes behind the page. |
| ReaddirWriter.Writer.Split | fs/nfsd/nfs3xdr.c:958-986 | A split entry fills the current page and continues in the next; the pages hold the flat reply. |
| ReaddirWriter.Writer.MoveBack | fs/nfsd/nfs3xdr.c:949-957 | An entry shorter than estimated goes back whole. |
| ReaddirWriter.Writer.PlaceEntry | fs/nfsd/nfs3xdr.c:915-995 | In any of the three ways, for entries up to one word longer than estimated, only reserved pages are written, the next page exists whenever it is needed, and the pointer ends where the entry does. |
| ReaddirWriter.EdgeExactly | fs/nfsd/nfs3xdr.c:915-933 | The pointer is left at the end of a page exactly by an entry one word longer than its estimate, with a 64-byte file handle, whose estimate fits into the page with that word to spare. |
| ReaddirWriter.EstimatedStaysInPage | fs/nfsd/nfs3xdr.c:906-933 | With all entries as long as estimated at most it never is, and only the room decides how many are taken. |
| ReaddirWriter.Writer.EncodeEntry | fs/nfsd/nfs3xdr.c:871-998 | An entry is refused exactly when its estimate does not fit, finds no page exactly when the pointer stands at the end of one, and otherwise the pages refine one flat append. |
| ReaddirWriter.Writer.Finish | fs/nfsd/nfs3proc.c:503-512 | The last cookie; outside the pages nothing is written unless the cookie was split and a further entry refused. |
| ReaddirWriter.Writer.Readdirplus | fs/nfsd/nfs3proc.c:461-515 | After any run of entries the pages hold the plain concatenation with every cookie right; the word count is its length unless the last entry ends with its page, and then that of all pages; an entry finds no page exactly when it has room and the one before ends so; else a word is written behind a page exactly when an entry was refused after a split cookie. |
| ReaddirWriter.FenceHappens | fs/nfsd/nfs3xdr.c:972-977 | Seventy-nine entries of 13 words end with a split cookie. |
| ReaddirWriter.EightyOffered | fs/nfsd/nfs3xdr.c:906-913 | With 4264 bytes, of eighty such entries the last is refused. |
| ReaddirWriter.BoundaryOverrun | fs/nfsd/nfs3proc.c:461-515 | The concrete run of the two: eighty such entries with 4264 bytes fill two pages, and one word is written outside them. |
| ReaddirWriter.PageEdge | fs/nfsd/nfs3xdr.c:915-933 | The concrete run for the page end: sixteen entries of 64 words with 8192 bytes are counted as two pages, and a seventeenth finds no page. |

## Left out

- ProcessOpen: the hash table of `struct nfs4_file` is one inode's record, present or not; leases are left out, and a delegation is an operation that takes or drops a reference, whose check at an OPEN is one yes-or-no input (`fs/nfsd/nfs4state.c:2993-3076`).
- LockAccess: `nfs4_check_openmode` and the grace-period tests that may refuse a LOCK earlier are left out, so the model allows more runs than the code (`fs/nfsd/nfs4state.c:4114-4150`).
- Close: replay of a v4.0 CLOSE, the list of recently closed owners and seqid handling are not modelled.
- Sequence: one session is modelled; finding it by its id, connections and the callback status flags are left out. The compound that runs after SEQUENCE is an arbitrary reply that counts at least SEQUENCE itself.
- Create: a failed connection is modelled as releasing the session; that the released session stays on the server's lists (`fs/nfsd/nfs4state.c:973-980`) is not.
- Client: client records are values identified by a creation number, with their changing fields in a map, instead of linked objects; the md5 name of a client, the stable-storage upcalls and callback set-up are inputs or left out.
- OpLeaseExpiry: any client may expire at any time; which ones do is the subject of module Lease. Server shutdown is left out.
- LaundromatPass: the delegation and open-owner lists are left out; the sleep they ask for is computed in the source and never used (`fs/nfsd/nfs4state.c:3204-3229`). Times are assumed to stay below a quarter of the range of an unsigned long.
- Lookup: the tick counter is an unbounded integer, so the wrap of a 32-bit `jiffies` after which an idle entry would look current again is not modelled. Allocation failure at start-up and shutdown of the cache are left out.
- ReadBuf: head and page lengths are multiples of four; the bytes are returned as values, so that a later read overwrites the shared 32-byte buffer of an earlier one is not captured; `nfsd4_decode_write`, which steps through pages in its own way, is left out.
- EncodeEntry: the attribute and file-handle part is an input of at most 40 words, what the encoders can produce. Pages are arrays of words, a pointer is a page number with a word number, and no reserved page starts at the address where another ends; what the code does with a pointer that stands in no page is not modelled beyond that it does. Plain READDIR, which stays in one page, is left out.
- Downcall: replies of the wrong length or with an unreadable id change nothing and are left out, and so are wake-ups by closing the pipe.
- SearchEnds: the list lock is dropped between two rounds of the search; the model treats the search as one step.
- Nfsv4ToPosix: running out of memory is left out, and so are ACEs the XDR decoder has already refused.
- ForwardIsExact: the rules for a valid POSIX ACL are stated in the model; `posix_acl_valid` is not part of this model.
- Locks and interleavings: every operation is one atomic step, as the state mutex or a spinlock makes it.
- The VFS, exports, file handles, sunrpc, callbacks, idmap, lockd, the nfsctl file system and the per-procedure XDR tables: opens, truncates and allocations appear as inputs that succeed or fail.
- `nfsd_set_nrthreads` and the escaped path components of `fs/nfsd/nfs4xdr.c:1749-1797`.
- The board drivers, scripts and demonstration programs: plumbing around hardware.
