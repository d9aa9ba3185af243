# Verified models of a proof-of-stake node

A Dafny project that models the parts of this node that keep redundant state, run concurrently, or
compute a known function by an optimised route, and proves what they are for. Each part is modelled
in the form it has in the source: classes with mutable fields and loops where the source updates
things in place, functions where it computes.

| files | what they model |
|---|---|
| `AddrTables`, `AddrSteps`, `AddrManager`, `AddrCheck`, `AddrRuns`, `AddrPolicy` | the address manager: five redundant indexes, every operation for every random draw, its debug check, whole runs, the limits its design promises |
| `AddrDisk`, `AddrRoundTrip` | writing the address manager to a stream that drops most indexes, and rebuilding it |
| `CheckQueue`, `CheckQueueProtocol` | the parallel check queue: its critical sections, and every interleaving of any number of threads |
| `KeccakPlain`, `KeccakBits`, `KeccakFast`, `KeccakSponge` | FIPS 202 on lanes, and what the lanes stand for; the in-place, lane-complemented, renamed permutation; the streaming sponge |
| `FugueRounds`, `FugueStream` | the virtually rotating Fugue-512 state, and its lazy streaming engine |
| `Blake` | BLAKE-512/384 buffering, two-word counter with borrow, padding |
| `StakeModifier`, `StakeKernel` | the 64-round stake modifier selection; the kernel test and timestamp search |
| `SyncCheckpoints` | synchronized checkpoints moving down a growing block tree |
| `Numerals`, `Base58`, `CompactNumber` | positional numerals and the MPI byte format, Base58 and addresses, compact targets |
| `LockedPages`, `BloomFilter` | the stacking page locker, the BIP 37 filter |
| `Numbers`, `Sets`, `BitStrings`, `Pieces` | shared facts |

Hash functions, randomness, the clock, disk and database calls, signature checks, Fugue's SMIX and
BLAKE's compression function are parameters (function values or nondeterministic choices): the results
hold for every choice of them.

Some results that are not visible in one body:

- The address manager's operations start from any state on which its debug check returns 0, and each
  states exactly when it ends in one: `Good_` for positive times, `Attempt_` for times that are not
  negative, `Connected_` and `GetAddr_` always.
- The debug check is not by itself inductive for `Add_`. A new address leaves a state that passes exactly
  when the next id is unused and no entry has the address (`AddrSteps.AdditionChecks`, the shrinking of a
  full bucket included). Both halves can fail on states that pass: the check never looks at the id counter
  (`CheckMissesIdClash`), and an address missing from the index reads as id 0 (`CheckMissesMissingKey`).
  Having run, a check that returns 0 leaves a complete index, so that only the id is left to fail
  (`CompleteIndexSuffices`). The stronger invariant, which is inductive, is proved for every operation.
- `Add_` reads the clock once for the currently-online test and, while it shrinks a bucket, once for each
  entry it looks at; the model takes all these readings, in no assumed order.
- The eviction from a full tried bucket is meant for the least recently reached of the entries inspected.
  The position that is kept for it is the one it was drawn from, and the swap has moved it away from there,
  so it is the one evicted exactly when its draw picked it in place (`OldestStaysIff`; `OldestIsMissed`
  gives the draws that evict a younger one).
- While the master of the check queue waits, some step other than an unprompted wake-up is enabled, every
  such step lowers a measure, and no step raises it: a Wait ends after boundedly many of them
  (`WaitGoesOn`, `WaitIsBounded`).
- Fugue's core, called with an empty piece while a full word is pending, takes that word in, which the
  contract of `Context.Core` says. The state differs from that of a run without the empty piece; the digest
  does not (`HashPieces`).
- The search of the kernel keeps running after a hit, from the new timestamp. For a drift up to the coin's
  own timestamp, which every drift that the wallet accepts is, a verifier confirms what the search returns
  exactly when no hit wraps around 2^32 (`SearchThenCheck`, from `SearchAccepts` and `WrapRejected`;
  `RoomMeansNoWrap` bounds the room that suffices). `WrapBreaks` has the wrap for every drift from 1 to
  2^32 - 10000, and `WrapAccepted` shows why larger drifts are different. This needs that value and target
  have the same sign, which is exactly when a later timestamp keeps every hit (`KeepsHitsIffSameSigns`,
  with `NegativeTargetBreaks` outside).
- With blocks of the chain missing from the index, the next stake modifier is the right one, or the
  computation fails, exactly when the scan of some round comes to a missing block
  (`ComputeNextStakeModifier`, `Unfinishable`).
- The page loops of the page locker end exactly when the last page of the range is not the last page of
  the address space (`LoopEndsIffFits`); there the page counter wraps to zero and the loop runs for ever
  (`LastPageLoops`).

## Model

| member | source | states |
|---|---|---|
| `AddrTables.CountedIsListed` | src/addrman.cpp:435-491 | the counters, positions and bucket counts that the check compares force the random order to list every entry exactly once, at the position the entry knows |
| `AddrTables.InvariantImpliesCheck` | src/addrman.cpp:435-491 | the inductive invariant implies that the debug check returns 0 |
| `AddrCheck.CrossOffTried` | src/addrman.cpp:466-474 | the tried half of the check succeeds exactly when no id occurs more often than it should, and ends empty as well exactly when every tried id, and no other, occurs exactly once in the tried buckets |
| `AddrCheck.CountDownNew` | src/addrman.cpp:476-488 | the new half succeeds exactly when no id occurs in more buckets than it has references, and ends empty as well exactly when every id occurs in as many new buckets as its reference count says |
| `AddrCheck.CheckEntry` | src/addrman.cpp:442-461 | an entry passes exactly when it is filed in one table properly, found under its address, at its place in the random order and with times that are not negative; each code names the first test that fails |
| `AddrCheck.Check` | src/addrman.cpp:435-491 | the check returns 0 exactly on the states described by `CheckPasses`, a missing address reading as id 0, and which inconsistency each of the other codes reports; all it changes is to insert missing addresses as id 0, and when it returns 0 the index holds every entry |
| `AddrManager.AddrMan.Find` | src/addrman.cpp:81-92 | finds exactly the addresses whose id has an entry, with that id; an id without an entry is not found |
| `AddrManager.AddrMan.Create` | src/addrman.cpp:94-104 | a new id, entry, index entry and place at the end of the random order, nothing else changed |
| `AddrManager.AddrMan.SwapRandom` | src/addrman.cpp:106-124 | swaps two places of the random order and the two recorded positions, and nothing else |
| `AddrManager.AddrMan.SelectTried` | src/addrman.cpp:126-148 | shuffles the front of one tried bucket by the draws and returns the position from which the least recently reached of the inspected entries was drawn |
| `AddrManager.OldestStaysIff` | src/addrman.cpp:126-148 | the position returned still holds the least recently reached entry exactly when its draw picked it in place |
| `AddrManager.OldestIsMissed` | src/addrman.cpp:126-148 | for any bucket whose second entry is the oldest inspected, draws under which a younger entry is evicted |
| `AddrManager.AddrMan.ShrinkNew` | src/addrman.cpp:150-202 | takes exactly one id out of the bucket: the first terrible one, by the clock reading of each entry, else the oldest of the four drawn ones; its entry goes with its last reference |
| `AddrManager.AddrMan.MakeTried` | src/addrman.cpp:204-260 | with fewer than 64 ids in the tried bucket of its address, the entry goes to the end of it and nothing else changes; in a full one it takes the position that the draws select, and whoever is there goes to the new bucket of its own address and source if that has room, else to the one the entry came from; in both cases it leaves all new buckets, and check and invariant are kept |
| `AddrManager.AddrMan.FindNewBucket` | src/addrman.cpp:289-305 | an entry that is not tried is found in some new bucket from every starting point: the bail-out cannot be reached |
| `AddrManager.AddrMan.Good` | src/addrman.cpp:262-311 | from any state that passes the check: an address that is already tried gets its times; any other is promoted as `MakeTried` says, with its times; the check passes again exactly when the address was unknown or the time positive |
| `AddrManager.AddrMan.Attempt` | src/addrman.cpp:371-388 | from any state that passes the check: the attempt is recorded and nothing else; the check passes again exactly when the address was unknown or the time not negative |
| `AddrManager.AddrMan.Connected` | src/addrman.cpp:510-528 | from any state that passes the check: the time is refreshed after twenty minutes and nothing else; the check passes again |
| `AddrManager.AddrMan.GetAddr` | src/addrman.cpp:494-508 | from any state that passes the check: returns entries of pairwise different addresses, 23 percent and at most 2500 of them, only permuting the random order; the check passes again |
| `AddrManager.AddrMan.Add` | src/addrman.cpp:313-369 | from any state that passes the check, for every draw and clock reading: the check passes again exactly under `AddPasses`; an unknown address gets an entry, under the next id and in its own bucket, from which one id goes if it is full; a known one takes in the announced time and services, and a reference exactly if the announcement is newer, there are fewer than four, and a draw at odds of one in 2^references succeeds; under the invariant, which is kept, a routable address is known afterwards and at most one address is forgotten, never a tried one nor the one added |
| `AddrSteps.SwapKeeps` | src/addrman.cpp:106-124 | swapping two random positions keeps what the check looks at, and the rest of the invariant |
| `AddrSteps.DeleteKeeps` | src/addrman.cpp:161-170 | dropping the last reference together with the entry, its index entry and its random place keeps what the check looks at, and the rest of the invariant |
| `AddrSteps.DropReferenceKeeps` | src/addrman.cpp:190-199 | dropping one of several references keeps what the check looks at, and the rest of the invariant |
| `AddrSteps.UnlinkKeeps` | src/addrman.cpp:150-202 | taking any id out of a new bucket keeps what the check looks at and the rest of the invariant, and loses no entry but that id's |
| `AddrSteps.FilingKeeps` | src/addrman.cpp:356-366 | filing an id in a new bucket, shrunk first when it is full, keeps what the check looks at and the rest of the invariant |
| `AddrSteps.CreateKeeps` | src/addrman.cpp:94-104 | a created entry with an unused id and address, owed its first bucket, keeps what the check looks at, and the rest of the invariant |
| `AddrSteps.MoveIntoRoomKeeps` | src/addrman.cpp:208-229 | moving an entry to a tried bucket keeps what the check looks at, and with room there the rest of the invariant |
| `AddrSteps.ExchangeKeeps` | src/addrman.cpp:231-259 | exchanging an entry with an evicted tried one keeps what the check looks at, and the rest of the invariant when the evicted one goes to a new bucket with room |
| `AddrSteps.AdditionChecks` | src/addrman.cpp:313-369 | from a state that passes the check, adding an unknown address passes again exactly when the next id is unused and no entry has the address, whether or not the bucket is full |
| `AddrSteps.RefreshedTime` | src/addrman.cpp:323-333 | an announcement changes the time of an entry not at all if it is at most an hour newer, always if it is more than a day newer, to the announced time less the penalty, and never back |
| `AddrRuns.KnownIsBounded` | src/addrman.h:123-133 | a consistent manager knows at most 256 * 64 + 64 * 64 addresses |
| `AddrRuns.Apply` | src/addrman.cpp:262-388 | from any state that passes the check, every operation passes again exactly under its condition `Passes`; the invariant is kept, at most the announced address becomes known, and only an addition forgets, at most one |
| `AddrRuns.TimelyPasses` | src/addrman.cpp:262-388 | the invariant and a positive time for `Good_`, a time that is not negative for `Attempt_`, give the condition of every operation |
| `AddrRuns.CompleteIndexSuffices` | src/addrman.cpp:313-369 | with the index complete, as a check that returns 0 leaves it, only an id in use can make an addition fail |
| `AddrRuns.Run` | src/addrman.cpp:94-388 | after any run from empty the check passes, at most 20480 addresses are known, and at most one address per addition has been forgotten |
| `AddrRuns.CheckMissesIdClash` | src/addrman.cpp:435-491 | a state with all its buckets that passes the check and that the addition of any other address breaks |
| `AddrRuns.CheckMissesMissingKey` | src/addrman.cpp:435-491 | a state with all its buckets and an incomplete index that passes the check and that an addition with an unused id breaks |
| `AddrPolicy.GroupIsLimited` | src/addrman.cpp:11-24 | in every consistent state one network group has at most 4 * 64 tried entries |
| `AddrPolicy.TriedBucketOfGroup` | src/addrman.cpp:11-24 | an address goes to one of four tried buckets that key and group determine, by the hash of the full address |
| `AddrPolicy.SourceIsLimited` | src/addrman.cpp:26-39 | what sources of one group announce goes to 32 new buckets, and the two groups determine which |
| `AddrPolicy.TerribleIff` | src/addrman.cpp:41-59 | which entries may be dropped outright, said of those that stay |
| `AddrPolicy.ReachedStays` | src/addrman.cpp:41-59 | an address that was reached stays for thirty days, and no longer |
| `AddrPolicy.NewcomerStays` | src/addrman.cpp:41-59 | a new address stays if its time is known and not in the future, for thirty days |
| `AddrDisk.Write` | src/addrman.h:275-318 | the stream lists every new entry, then every tried entry, each once, and each new bucket by positions in that order |
| `AddrDisk.Read` | src/addrman.h:319-380 | the loops rebuild exactly the tables that the stream stands for, and count the tried entries that found no room |
| `AddrRoundTrip.RoundTrip` | src/addrman.h:271-380 | reading a stream written from consistent tables loses nothing, gives tables that satisfy the invariant, and they equal the old ones up to a renaming of ids: same entries, same buckets, same reference counts |
| `AddrRoundTrip.NextHasRoom` | src/addrman.h:343-356 | while reading, the next tried entry always finds room in its bucket |
| `AddrRoundTrip.SaveAndLoad` | src/addrman.h:271-380 | saving any consistent manager and loading it into another one loses nothing and keeps all of it up to renaming |
| `CheckQueue.PoppedContents` | src/checkqueue.h:101-108 | a batch and what stays in the queue are together what was in the queue |
| `CheckQueue.BatchIsFairShare` | src/checkqueue.h:94-99 | a batch is the largest number up to the batch size that leaves as many for every thread and every idle one once more, and at least one |
| `CheckQueue.SharedQueue.Loop` | src/checkqueue.h:82-112 | from the empty test to the end of the critical section: leave with the status, block, or take a batch of at least one and at most all |
| `CheckQueue.SharedQueue.Report` | src/checkqueue.h:71-77 | reporting a batch folds its result into the status and takes it off the count |
| `CheckQueue.Execute` | src/checkqueue.h:114-117 | a batch's result is the conjunction of its checks, or failure if it started as failed |
| `CheckQueueProtocol.TopKeeps` | src/checkqueue.h:82-112 | finishing a critical section restores the invariant, and a leaving master's result is the conjunction of everything added |
| `CheckQueueProtocol.StepKeeps` | src/checkqueue.h:62-148 | every atomic step of every thread keeps the invariant: counters, conservation of checks, honest flags, no lost wake-up |
| `CheckQueueProtocol.WaitIsConjunction` | src/checkqueue.h:62-148 | in every interleaving, Wait returns exactly the conjunction of the results of all checks added since the previous Wait |
| `CheckQueueProtocol.CountersAreExact` | src/checkqueue.h:69-112 | in every reachable state nTodo is the queue plus the batches in flight, and nTotal minus nIdle is the number of threads holding a batch |
| `CheckQueueProtocol.ControllerAssertions` | src/checkqueue.h:165-171 | the controller's three assertions hold between a Wait and the next Add |
| `CheckQueueProtocol.BlockedMasterHasWorker` | src/checkqueue.h:69-93 | a blocked master that was not notified always has a worker with a batch in flight, and the queue is empty |
| `CheckQueueProtocol.NeverStuck` | src/checkqueue.h:62-121 | in every reachable state each thread can take its next step: no division by zero, no pop from an empty queue |
| `CheckQueueProtocol.WaitGoesOn` | src/checkqueue.h:62-121 | while the master waits, a step of some thread other than an unprompted wake-up is enabled, and lowers the measure of the checks that are queued, not executed or not reported |
| `CheckQueueProtocol.WaitIsBounded` | src/checkqueue.h:62-121 | while the master waits no step raises that measure, so that there are no more such steps than it was at first |
| `KeccakPlain.OffsetsAreTriangular` | src/keccak.c:1016-1045 | the rotation amounts of rho are the triangular numbers along the walk of section 3.2.2 of FIPS 202 |
| `KeccakPlain.WalkFormula` | src/keccak.c:1016-1045 | the walk goes from (1, 0) by (x, y) to (y, 2x + 3y), as section 3.2.2 of FIPS 202 has it |
| `KeccakPlain.PiFormula` | src/keccak.c:1139-1142 | lane (x, y) comes from lane (x + 3y, x) |
| `KeccakPlain.ConstantsFromRegister` | src/keccak.c:136-149 | the round constants are the output of the shift register of section 3.2.5 of FIPS 202 |
| `KeccakBits.RotationIsShifts` | src/sph_types.h:939 | the rotation of a word by n is (x << n) | (x >> (64 - n)) in 64-bit numbers |
| `KeccakBits.OperationsAreBitwise` | src/keccak.c:358-365 | the other operations on words are ~, ^, & and | on their binary digits |
| `KeccakBits.ThetaOnBits` | src/keccak.c:975-1014 | theta adds the parities of columns (x - 1, z) and (x + 1, z - 1), as section 3.2.1 of FIPS 202 has it |
| `KeccakBits.RhoOnBits` | src/keccak.c:1016-1045 | bit z of a lane along the walk comes from bit z less a triangular number, as section 3.2.2 has it |
| `KeccakBits.PiOnBits` | src/keccak.c:1139-1142 | bit (x, y, z) comes from bit (x + 3y, x, z), as section 3.2.3 has it |
| `KeccakBits.ChiOnBits` | src/keccak.c:1047-1057 | each bit is added the product of the next two of its row, as section 3.2.4 has it |
| `KeccakBits.IotaOnBits` | src/keccak.c:1392-1397 | the constant goes to lane (0, 0) |
| `KeccakBits.ConstantOnBits` | src/keccak.c:136-149 | bit 2^j - 1 of the constant of round i is output j + 7i of the shift register, and the other bits are zero, as section 3.2.5 has it |
| `KeccakFast.NextPlace` | src/keccak.c:1139-1157 | each renaming table is the one before it composed with pi |
| `KeccakFast.ThetaFlip` | src/keccak.c:975-1014 | theta on complemented lanes is theta, with the complement mask moved as expected |
| `KeccakFast.ChiFlip` | src/keccak.c:1047-1135 | the rewritten chi on complemented lanes gives chi of the true lanes with the six output lanes complemented |
| `KeccakFast.RoundFlip` | src/keccak.c:1047-1057 | a whole round preserves the six-lane mask and computes the plain round under it |
| `KeccakFast.ApplyTheta` | src/keccak.c:958-1014 | theta in place under any renaming |
| `KeccakFast.ApplyRho` | src/keccak.c:1016-1045 | rho in place under any renaming |
| `KeccakFast.ApplyKhi` | src/keccak.c:1070-1135 | the five row formulas in place under any renaming |
| `KeccakFast.MoveBack` | src/keccak.c:1313-1347 | the eight three-cycles move every lane back to its own place |
| `KeccakFast.KfElt` | src/keccak.c:1392-1397 | a renamed round takes lanes that stand for n plain rounds to lanes that stand for n + 1 |
| `KeccakFast.KeccakF` | src/keccak.c:1450-1467 | the unrolled, renamed, lane-complemented permutation computes Keccak-f[1600] under the mask |
| `KeccakSponge.PaddingIsPad` | src/keccak.c:1615-1634 | the closing bytes are, on bits, the extra bits followed by pad10*1, in all branches |
| `KeccakSponge.AbsorbIsBlockwise` | src/keccak.c:1585-1600 | absorbing byte blocks one by one is absorbing their bits |
| `KeccakSponge.AddingIsXor` | src/keccak.c:1585-1600 | absorbing a block adds its bits to the first bits of the state |
| `KeccakSponge.Context.Core` | src/keccak.c:1568-1604 | feeding data appends it to what was fed, on both branches, with all full blocks absorbed |
| `KeccakSponge.Context.Init` | src/keccak.c:1525-1566 | the initial lanes stand for the zero state, and the rate follows from the digest size |
| `KeccakSponge.Context.Close` | src/keccak.c:1607-1647 | the digest is KECCAK of everything fed and the extra bits, and the context starts over |
| `KeccakSponge.HashPieces` | src/keccak.c:1525-1647 | for all four sizes and every way to cut the message, the digest is KECCAK of the whole |
| `FugueRounds.ViewTurn` | src/fugue.c:874-882 | turning the names by three words is rotating the state |
| `FugueRounds.Tix4` | src/fugue.c:413-420 | TIX4 under names turned by any offset |
| `FugueRounds.Cmix36` | src/fugue.c:431-438 | CMIX36 under names turned by any offset |
| `FugueRounds.Case0` | src/fugue.c:874-885 | case 0 computes the plain round, which rotates by twelve words |
| `FugueRounds.Case1` | src/fugue.c:887-898 | case 1 computes the plain round |
| `FugueRounds.Case2` | src/fugue.c:900-911 | case 2 computes the plain round and ends where case 0 starts |
| `FugueStream.FourBytes` | src/fugue.c:724-739 | shifting four bytes into a 32-bit word is big-endian decoding, and encoding undoes it |
| `FugueStream.LengthBytes` | src/fugue.c:918-931 | the eight bytes of the length are its base 256 digits, most significant first, modulo 2^64 |
| `FugueStream.CloseCompletes` | src/fugue.c:933-949 | in all branches the closing bytes complete the message to the padded message, with the unset bytes behind it |
| `FugueStream.OnlyJunkPending` | src/fugue.c:933-950 | after the last call the pending word is exactly the four unset bytes, so they never reach the state |
| `FugueStream.Context.Core` | src/fugue.c:863-916 | feeding data appends it to what was fed, and a word stays pending after any byte; an empty piece changes nothing, except that it takes in a pending full word |
| `FugueStream.Context.LastRounds` | src/fugue.c:1056-1087 | the 32 and 13 closing rounds, word by word as the source does them, are those of the plain hash |
| `FugueStream.OutputGroups` | src/fugue.c:1088-1106 | the digest is words 1 to 4, 9 to 12, 18 to 21 and 27 to 30 of the state |
| `FugueStream.GroupWord` | src/fugue.c:1088-1106 | each word of such a group is written out in its place |
| `FugueStream.Context.Close` | src/fugue.c:1049-1109 | the digest is Fugue-512 of everything fed and the extra bits, whatever the unset bytes are |
| `FugueStream.HashPieces` | src/fugue.c:863-954 | every way to cut the message gives the digest of the whole |
| `Blake.AdvanceCounts` | src/blake.c:933-934 | the two-word counter with carry adds 1024 modulo 2^128 |
| `Blake.SetBackThenAdvance` | src/blake.c:961-971 | after the borrow set up in close, one advance gives the exact bit count, or zero for a block without message bits |
| `Blake.LengthField` | src/blake.c:961-988 | the two words written are the message length in 128 bits |
| `Blake.LastCompletes` | src/blake.c:957-989 | the closing bytes complete the message to the padded message in both branches and for both digest sizes |
| `Blake.ChainIsRun` | src/blake.c:905-941 | on blocks full of message, counting as the engine does is the plain hash |
| `Blake.Context.Update` | src/blake.c:905-941 | feeding data appends it to what was fed, on both branches, each full block compressed with the advanced counter |
| `Blake.Context.SetCounterBack` | src/blake.c:963-971 | the counter is left so that the next block sees the exact count |
| `Blake.Context.Close` | src/blake.c:943-994 | the digest is the plain hash of everything fed and the extra bits: every compression sees the message bits so far, or zero for pure padding |
| `Blake.HashPieces` | src/blake.c:905-994 | every way to cut the message gives the hash of the whole |
| `StakeModifier.SelectionInterval` | src/kernel.cpp:72-78 | the interval is the sum of its 64 sections |
| `StakeModifier.SectionsGrow` | src/kernel.cpp:65-70 | the sections grow from a third of the interval to the whole of it |
| `StakeModifier.SelectBlock` | src/kernel.cpp:83-124 | finds the candidate with the smallest selection hash, first of equals, among the free ones up to the stop time, or the earliest free one; fails exactly when none is free or the scan comes to a candidate that is not indexed |
| `StakeModifier.BestIsUnique` | src/kernel.cpp:83-124 | a round has at most one best candidate |
| `StakeModifier.PicksAreDistinct` | src/kernel.cpp:179-194 | no block is selected twice |
| `StakeModifier.PickMeaning` | src/kernel.cpp:80-124 | compared with any free candidate, a pick is in time and has no larger hash, or it is the earlier one when none is in time |
| `StakeModifier.StakeIsFavoured` | src/kernel.cpp:98-121 | who wins a round, by hashes: a proof-of-stake block competes with the hash of its proof divided by 2^32, a proof-of-work block with the hash of its own |
| `StakeModifier.WorkNeedsLeadingZeros` | src/kernel.cpp:104-108 | with hashes of 256 bits a proof-of-work block is picked over a free proof-of-stake one in time only with a hash below 2^224 |
| `StakeModifier.CandidatesInOrder` | src/kernel.cpp:173-174 | candidates come in the order of their times, and of their hashes where those are equal |
| `StakeModifier.SomeFree` | src/kernel.cpp:179-188 | while fewer blocks are selected than there are candidates, one is free |
| `StakeModifier.EntropyBits` | src/kernel.cpp:189-190 | bit r of the modifier is the entropy bit of the block picked in round r |
| `StakeModifier.GetLastStakeModifier` | src/kernel.cpp:51-62 | finds the last block that generated a modifier, or fails |
| `StakeModifier.CollectCandidates` | src/kernel.cpp:164-177 | the candidates are the blocks of the tip's chain reaching back without gap to the start time, sorted |
| `StakeModifier.SelectRounds` | src/kernel.cpp:180-194 | all min(64, n) rounds succeed, each picking the best candidate left, unless the scan of one comes to a candidate that is not indexed, and then it fails |
| `StakeModifier.ComputeNextStakeModifier` | src/kernel.cpp:139-224 | the outcome is the one that the chain of ancestors determines; with an index that lacks blocks of the chain it fails exactly when the scan of a round comes to one of them |
| `StakeModifier.NextIsUnique` | src/kernel.cpp:139-224 | a chain determines its next modifier uniquely, whatever else is in the index |
| `StakeKernel.GetKernelStakeModifier` | src/kernel.cpp:228-258 | takes the first later block that generated a modifier at least a selection interval after the coin's block, and fails exactly when there is none |
| `StakeKernel.AcceptedMeans` | src/kernel.cpp:299-342 | what a verifier accepts, in plain numbers: the age less the minimum counts up to the maximum, and the coin days are one division rounding to zero |
| `StakeKernel.OldCoinsAreEqual` | src/kernel.cpp:29-37 | beyond the maximum age only the hash decides |
| `StakeKernel.YoungCoinsGrow` | src/kernel.cpp:29-37 | up to that age every second counts |
| `StakeKernel.LaterStillHits` | src/kernel.cpp:299-306 | a later timestamp never turns a hit into a miss, when value and target have the same sign |
| `StakeKernel.KeepsHitsIffSameSigns` | src/kernel.cpp:299-306 | later timestamps keep every hit of a coin exactly when its value and target have the same sign, or one is zero |
| `StakeKernel.CheckStakeKernelHash` | src/kernel.cpp:309-377 | check mode accepts exactly what the protocol says, and for a coin beyond the maximum age exactly when the hash is below the target times its coin days at that age; the search succeeds exactly when some timestamp of its first pass hits; with equal signs the timestamp it returns is accepted unless a hit wrapped around 2^32, and for drifts up to the coin's timestamp exactly then |
| `StakeKernel.SearchCourse` | src/kernel.cpp:348-377 | the search goes on after each hit from the timestamp it hit: no try between two hits, and none after the last, hits from where it stands |
| `StakeKernel.SearchAccepts` | src/kernel.cpp:348-377 | as long as no hit wraps, every timestamp the search moves to is accepted |
| `StakeKernel.RoomMeansNoWrap` | src/kernel.cpp:348-360 | with room for the sum of all tries below 2^32 no hit wraps |
| `StakeKernel.WrapRejected` | src/kernel.cpp:348-377 | for a drift up to the coin's timestamp, a search in which a hit wraps ends before that timestamp, where no verifier accepts |
| `StakeKernel.SearchThenCheck` | src/kernel.cpp:309-377 | for equal signs and a drift up to the coin's timestamp, a search that succeeds is confirmed by check mode exactly when no hit wrapped; for larger drifts, if none wrapped |
| `StakeKernel.WrapBreaks` | src/kernel.cpp:348-360 | for every drift from 1 to 2^32 - 10000, a coin whose search wraps to a timestamp that is not accepted |
| `StakeKernel.WrapAccepted` | src/kernel.cpp:348-360 | with a drift beyond the coin's timestamp a wrap can land on one that is accepted |
| `StakeKernel.NegativeTargetBreaks` | src/kernel.cpp:299-306 | with a negative target the returned timestamp can fail |
| `SyncCheckpoints.Checkpoints.ValidateSyncCheckpoint` | src/checkpoints.cpp:92-132 | true exactly for indexed strict descendants of the current checkpoint; the invalid mark is set exactly for conflicting branches; the missing-parent errors cannot happen |
| `SyncCheckpoints.Checkpoints.WriteSyncCheckpoint` | src/checkpoints.cpp:134-148 | the checkpoint moves exactly when write and commit succeed |
| `SyncCheckpoints.Checkpoints.AcceptPendingSyncCheckpoint` | src/checkpoints.cpp:150-191 | true exactly when something is pending, indexed and strictly below the checkpoint, in the main chain or made best, and written and committed; then it is the checkpoint and nothing is pending, and otherwise the checkpoint stays; what is pending afterwards and the invalid mark for every answer |
| `SyncCheckpoints.Checkpoints.ProcessSyncCheckpoint` | src/checkpoints.cpp:376-424 | true exactly when the message is signed, its block indexed and strictly below the checkpoint, in the main chain or made best, and written and committed; then it is the checkpoint and nothing is pending, and otherwise the checkpoint stays; a signed block that is not indexed becomes pending; the invalid mark for every answer |
| `SyncCheckpoints.Checkpoints.CheckSync` | src/checkpoints.cpp:204-229 | the exact condition, `Passes`, on mainnet; a block that is not indexed passes exactly when its parent is or lies below the current checkpoint |
| `SyncCheckpoints.Checkpoints.AutoSelectSyncCheckpoint` | src/checkpoints.cpp:194-201 | the latest ancestor of the best block that is an hour older and eight blocks lower, or the genesis block |
| `SyncCheckpoints.OnlyStrictDescendants` | src/checkpoints.cpp:92-191 | over any run without reset the checkpoint only moves to strict, higher descendants |
| `SyncCheckpoints.NeverReturns` | src/checkpoints.cpp:92-191 | a checkpoint that was left is never taken again |
| `SyncCheckpoints.BecomesPending` | src/checkpoints.cpp:382-398 | a signed checkpoint whose block is not indexed becomes pending |
| `SyncCheckpoints.PendingIsTaken` | src/checkpoints.cpp:150-191 | over runs, a pending checkpoint that has come to lie below the current one is taken as soon as an attempt to accept it gets its answers |
| `SyncCheckpoints.DescendsIffPath` | src/checkpoints.cpp:92-132 | descent is a walk from block to parent |
| `SyncCheckpoints.AcceptedBlockDescends` | src/checkpoints.cpp:204-229 | a new block that passes CheckSync lies below the current checkpoint and every earlier one of the run |
| `Numerals.DigitsFacts` | src/base58.h:47-60 | repeated division gives digits in range, without leading zero, of the right value |
| `Numerals.DigitsOfValue` | src/base58.h:86-103 | a numeral without leading zero is the numeral of its value |
| `Numerals.MpiOfValue` | src/bignum.h:295-320 | the MPI bytes of a canonical numeral's value are that numeral |
| `Base58.EncodeBase58` | src/base58.h:28-66 | the loop computes the specified string |
| `Base58.DecodeBase58` | src/base58.h:76-120 | the loops compute the specified bytes, or fail |
| `Base58.AlphabetInOrder` | src/base58.h:25 | the digits in their order |
| `Base58.EncodedMeans` | src/base58.h:28-66 | the string is the number of the bytes in base 58, most significant digit first, with a one for each leading zero byte |
| `Base58.SpacesAre` | src/base58.h:80-94 | the characters that are skipped |
| `Base58.DecodeEncode` | src/base58.h:28-120 | decoding undoes encoding for every byte string, empty and with leading zeros included |
| `Base58.EncodeDecode` | src/base58.h:28-120 | encoding undoes decoding for every accepted string, up to surrounding spaces |
| `Base58.AcceptedStrings` | src/base58.h:76-103 | exactly the strings of alphabet characters with spaces around them are accepted |
| `Base58.CheckDecodeEncode` | src/base58.h:133-161 | the checked layer decodes what it encodes |
| `Base58.CheckEncodeDecode` | src/base58.h:133-161 | an accepted checked string is, stripped, the encoding of its payload |
| `Base58.Address.SetString` | src/base58.h:211-226 | sets version and data from a valid string, and clears them otherwise, an empty payload included |
| `Base58.Address.Set` | src/base58.h:286-299 | stores the id under the version of its kind and network |
| `Base58.Address.Get` | src/base58.h:301-368 | no destination exactly for data that is not valid on this network, a key id exactly for the pubkey version of this network, and the id is the stored data |
| `Base58.AddressRoundTrip` | src/base58.h:211-368 | a destination survives Set, ToString, SetString, Get |
| `Base58.StringRoundTrip` | src/base58.h:211-368 | a string with a destination is, stripped, the string of that destination |
| `CompactNumber.RoundsDown` | src/bignum.h:322-345 | the round trip is the value of the three top bytes, a multiple of 256^(size - 3): at most x, less than that below it, and exact below three bytes |
| `CompactNumber.CompactIs` | src/bignum.h:333-345 | the compact form is the size times 2^24 plus the number cut down or multiplied up to three bytes |
| `CompactNumber.SetCompactIs` | src/bignum.h:322-331 | a compact number stands for its mantissa scaled to its size, bit 23 being a sign |
| `CompactNumber.SizeIs` | src/bignum.h:333-345 | the size is the least number of bytes that leaves the top bit clear |
| `CompactNumber.CompactStable` | src/bignum.h:322-345 | size and compact form are unchanged by the round trip |
| `CompactNumber.Monotone` | src/bignum.h:322-345 | the round trip is monotone |
| `LockedPages.LockedPageManager.LockRange` | src/allocators.h:57-77 | the live ranges gain this one; every page's count is the number of live ranges that touch it, and exactly the pages with a count are locked |
| `LockedPages.LockedPageManager.UnlockRange` | src/allocators.h:80-100 | unlocking a live range never meets a page that is not locked, and undoes one lock of it |
| `LockedPages.LockedWhileTouched` | src/allocators.h:48-100 | a page is locked exactly while some live range touches it, and its count is the number of those |
| `LockedPages.TouchesMeaning` | src/allocators.h:57-77 | for a range that does not wrap, the pages of the loop are those that hold one of its bytes |
| `LockedPages.LoopEndsIffFits` | src/allocators.h:57-77 | the page loop of a range ends exactly when its last page is not the last of the address space |
| `LockedPages.LastPageLoops` | src/allocators.h:57-77 | for the one-byte range at the end of the address space the loop does not end |
| `BloomFilter.Filter.Insert` | src/bloom.cpp:41-52 | sets the bits of the key and no others, and keeps the flags in agreement with the bits |
| `BloomFilter.Filter.Contains` | src/bloom.cpp:68-82 | true exactly when all bits of the key are set |
| `BloomFilter.MarkedMeans` | src/bloom.cpp:35-82 | a key is contained when the bit that each numbered hash function gives it, reduced to the size of the filter, is set |
| `BloomFilter.Filter.UpdateEmptyFull` | src/bloom.cpp:172-183 | the flags become exact |
| `BloomFilter.Filter.IsRelevantAndUpdate` | src/bloom.cpp:103-170 | whatever matched before is relevant, what is relevant matches afterwards; with BLOOM_UPDATE_ALL every matched output is inserted, with BLOOM_UPDATE_P2PUBKEY_ONLY those that pay to keys, otherwise none, and no other bit is set |
| `BloomFilter.Run` | src/bloom.cpp:35-183 | any run of inserts, refreshes and transactions is a history with those guarantees |
| `BloomFilter.ContainedForever` | src/bloom.cpp:35-82 | an inserted key is contained forever after |
| `BloomFilter.SpendIsSeen` | src/bloom.cpp:103-170 | a transaction that spends a matched output which the flags follow is relevant, however much later |
| `BloomFilter.ChainIsSeen` | src/bloom.cpp:103-170 | in a chain of spends of matched outputs that the flags follow, each matched by any key of its own, every transaction is relevant, the first included |
| `BloomFilter.InsertedPushMatches` | src/bloom.cpp:41-82 | an output that pushes a key inserted earlier is matched |

## Left out

- Address selection (`Select_`, `GetChance`): floating point, and an end only with probability one.
- Loading an address file written with another bucket count, and files that no manager wrote.
- AddrManager.AddrMan.Add: which id leaves a full bucket is stated by `ShrinkNew` and not repeated here; the tables have their 64 and 256 buckets throughout, as construction makes them.
- AddrManager.AddrMan.SelectTried: the entry named `-1`, which no manager creates, is the search's sentinel; the choice of the oldest is stated without it.
- Overflow of counters held in machine integers in the address manager, the check queue and the page locker.
- Service bits of addresses are sets of bit positions; the check queue's quit flag is constant during a run.
- CheckQueueProtocol.StepKeeps: notifications are over-approximated (any waiting thread may wake at any time), so eventual completion is stated up to fairness: the steps of a Wait are bounded and never blocked, but which thread runs is not said.
- KeccakFast.KfElt: within a macro, lanes that do not depend on each other are updated at once.
- KeccakFast.ApplyTheta: 64-bit words are sequences of bits, whose numbers are what C computes with (`RotationIsShifts`, `OperationsAreBitwise`). The 32-bit, interleaved and other unroll variants are not modelled.
- Hash tables and initial values of Fugue and BLAKE, SMIX and the BLAKE compression function, the smaller digest sizes of Fugue, and BLAKE-224/256.
- `FugueStream.Context.Close` and `Blake.Context.Close` take the unset or external parts as parameters; the reinitialisation of a BLAKE context after closing is in its callers and not modelled.
- StakeKernel.CheckStakeKernelHash: says nothing about the proof hash that the search leaves behind, nor whether a timestamp found after a wrap is accepted when the drift is beyond the coin's timestamp.
- StakeModifier.ComputeNextStakeModifier: an index that maps a hash of the chain to another block is not covered.
- Resetting the sync checkpoint, hardened checkpoints, and the messages that checkpoints relay.
- SyncCheckpoints.OnlyStrictDescendants: runs without reset.
- CompactNumber.RoundsDown: negative numbers and numbers of 256 bytes or more are not covered.
- Base58 strings are C strings, without embedded zero characters; comparison of address data is not modelled.
- LockedPages.LockedPageManager.LockRange: the page of an address is its page number times the page size, which is what the source's mask gives for its powers of two; ranges whose last page is the last of the address space have no result, because the loop does not end (`LoopEndsIffFits`).
- LockedPages.LockedPageManager.UnlockRange: as for LockRange, and the range must be live, which the source asserts.
- Construction of Bloom filters from a false positive rate: floating point. Filters without data or without hash functions are excluded.
- RPC, networking, wallet, scripts, signatures, the database, mining, and the other hash functions of the chain, which repeat the buffering pattern covered here.
