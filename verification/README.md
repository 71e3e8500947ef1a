# Verified models of the ShionCoin address manager and hash core

A Dafny project about three parts of ShionCoin, a peer-to-peer currency node.

**The address manager** (modules `Addr*`). The node remembers the peers it has heard
of in 256 buckets of untried ("new") and 64 buckets of tried addresses, together with
three indexes that must agree: the records by identifier, the identifier of each network
address, and a random order with back-pointers. `AddrMan.Manager` is that object with its
fields updated in place. Every method is proved against a function on the tables
(`AddrOps`, `AddrAdd`, `AddrPromote`, `AddrMarks`), and those functions are proved to keep
the index invariant `AddrState.Inv`, so it holds after every run (`AddrRuns`). On top of
that come what each operation leaves in the records (`AddrEffects`), the size bound, what can ever be forgotten, what the built-in consistency check
decides, and the round trip through the serialiser. The clock, random numbers, the bucket
hash, address groups and routability are parameters, and every statement holds for all of
them.

**The SIMD message expansion** (modules `Simd*`): the number-theoretic transform modulo
257 on signed 32-bit integers, in place on an array, against the sum it is meant to compute.

**Hash functions** against their specifications: Keccak with complemented and renamed
lanes, SHA-512 and HMAC, BLAKE2s, BLAKE, CubeHash, Skein and scrypt. Words and bytes are
their bits, and `Numbers` says what their operations mean for the numbers they spell. The
constants of Keccak and SHA-512 are derived from their generators (`KeccakConstants`,
`Sha512Constants`). Where the point is buffering, counters or padding rather than the compression
itself, the compression function is a parameter (BLAKE2s, BLAKE, Skein, SHA-256 inside
scrypt), so the result holds for every choice of it. `Streams` holds the law they share.

Five things came out differently from what the code or its comments suggest:

- The entry evicted from a full tried bucket need not be the remembered one, the oldest
  inspected: its position is noted before the swap that moves it.
  `AddrPromote.SelectTriedExact` says exactly when the reported position still holds the
  remembered entry; where several entries are equally old the one evicted instead may be
  just as old. `AddrPromote.SelectTriedMisses` gives draws that evict a more recent entry,
  for every full bucket whose second entry is older than its first, third and fourth.
- The consistency check does not look at bucket sizes, at unused identifiers, at the
  bucket a tried address hashes to, or at index entries of unknown addresses
  (`AddrCheckMeaning.CheckDecidesInv`). None of the four follows from the rest: module
  `AddrBlindSpots` has a manager for each that passes with that one alone wrong.
- Of a record that is written and read back only the time of the last try is lost. The
  records are numbered anew, the random order follows the new numbers, and the order
  inside a tried bucket is not kept (`AddrSerial.Restored`).
- The SHA-512 size field is 64 bits wide, so the padding is the standard one exactly below
  2^61 bytes (`Sha512Padding.PaddingMeetsStandard`).
- The Skein position loses a carry exactly when a message is a positive multiple of 2^64
  bytes (`Skein.WordsExact`).

Verify everything with `dafny verify dfyconfig.toml`.

## Model

| member | source | states |
|---|---|---|
| AddrTypes.TriedBucketsOfGroup | src/libcoin/addrman.cpp:35-47 | For every hash function, all addresses of one group share four tried buckets, hashed from the key, the group and 0 to 3; the hash of the key and the address says which |
| AddrTypes.NewBucketsOfSourceGroup | src/libcoin/addrman.cpp:49-61 | For every hash function, all addresses learned from one source group share 32 new buckets, hashed from the key, the source group and 0 to 31; the hash of the key and both groups says which |
| AddrState.RefsPositive | src/libcoin/addrman.cpp:501-510 | A record is referenced exactly when some new bucket holds it |
| AddrState.RefCountExact | src/libcoin/addrman.cpp:501-514 | In a consistent manager the reference count is the number of new buckets that hold the record |
| AddrState.EmptyInv | src/libcoin/addrman.h:408-416 | The manager as constructed satisfies the index invariant |
| AddrOps.SwapKeepsInv | src/libcoin/addrman.cpp:131-149 | Exchanging two positions of the random order keeps the whole invariant, back-pointers included |
| AddrOps.DeleteEffect | src/libcoin/addrman.cpp:187-194 | Forgetting a record removes it from the three indexes, moves at most one back-pointer and keeps the random order a permutation |
| AddrOps.CreateKeepsInv | src/libcoin/addrman.cpp:119-129 | A record created for an unknown address and given its first reference fits the invariant up to the bucket it still has to enter |
| AddrOps.PutInKeepsInv | src/libcoin/addrman.cpp:384-393 | Entering the bucket settles the open reference |
| AddrOps.ReleaseKeepsInv | src/libcoin/addrman.cpp:175-227 | Taking a record out of one new bucket keeps the invariant, whether or not it was the last reference |
| AddrPromote.SelectFromPermutes | src/libcoin/addrman.cpp:151-173 | Inspecting a tried bucket permutes it and reports one of its positions |
| AddrPromote.SelectTriedExact | src/libcoin/addrman.cpp:151-173 | The remembered entry is the least recently successful of those inspected; the reported position holds that entry exactly when its random draw was zero, and, if no other entry is as old, holds an entry that old exactly then |
| AddrPromote.SelectTriedMisses | src/libcoin/addrman.cpp:160-172 | For every full bucket whose second entry is older than the first, third and fourth there are draws for which the reported position holds a more recent entry than the remembered one |
| AddrPromote.MakeTriedKeepsInv | src/libcoin/addrman.cpp:229-285 | Promotion keeps the invariant and every record; with room nothing else moves, without room exactly one entry of that bucket returns to the new buckets |
| AddrTypes.TerribleIsDeletable | src/libcoin/addrman.cpp:63-81 | The chain of tests drops a record exactly if it was not tried within a minute and is dated over 600 seconds ahead, undated, unseen for 30 days, failed 3 times without any success, or failed 10 times with no success for 7 days |
| AddrAdd.VictimIsRight | src/libcoin/addrman.cpp:175-227 | A full new bucket gives up its lowest-numbered deletable entry, in the terms of the row above, or else the longest unseen of the four at the drawn positions |
| AddrAdd.ShrinkKeepsInv | src/libcoin/addrman.cpp:175-227 | Making room removes one entry and forgets at most one record, new and with a single reference |
| AddrAdd.PlaceKeepsInv | src/libcoin/addrman.cpp:384-392 | Placing a reference keeps the invariant, and the record just placed is never the one that goes |
| AddrAdd.AddKeepsInv | src/libcoin/addrman.cpp:338-394 | Adding any address keeps the invariant, knows it afterwards if it is routable, and forgets at most one new record |
| AddrAdd.AddKnown | src/libcoin/addrman.cpp:345-376 | A repeated advertisement adds no record and reports nothing new |
| AddrAdd.AddUnknown | src/libcoin/addrman.cpp:377-394 | An unknown routable address gets the next identifier as an untried record and is reported as new |
| AddrEffects.ShrinkEffect | src/libcoin/addrman.cpp:175-227 | Making room takes one entry out of one bucket and changes no statistics and no other reference count |
| AddrEffects.PlaceEffect | src/libcoin/addrman.cpp:384-392 | A reference is counted exactly if the chosen bucket did not hold the record; other buckets and all statistics stay |
| AddrEffects.AddKnownRecord | src/libcoin/addrman.cpp:345-393 | The whole record after a repeated advertisement: when and to what its time changes, the united services, exactly when and where it gets a further reference, and that nothing else changes |
| AddrEffects.TimeForward | src/libcoin/addrman.cpp:349-353 | Without a negative penalty the time of a known record never goes back and moves by over an hour or not at all |
| AddrEffects.ServicesUnite | src/libcoin/addrman.cpp:356 | The services are the union of both |
| AddrEffects.AddUnknownRecord | src/libcoin/addrman.cpp:377-393 | The whole record made for an unknown address, with its time less the penalty, in exactly one bucket |
| AddrEffects.ScanFirst | src/libcoin/addrman.cpp:314-326 | The scan finds the first bucket holding the record on a round from the random start |
| AddrEffects.PromotionPlaces | src/libcoin/addrman.cpp:229-285 | Which tried bucket a promoted record enters and where, and to which new bucket the entry it replaces returns |
| AddrEffects.FindExactly | src/libcoin/addrman.cpp:287-302 | The record an operation is about is the one with exactly that address and port |
| AddrEffects.ConnectedEffect | src/libcoin/addrman.cpp:535-553 | The time becomes that of the connection exactly if it is over 1200 seconds newer; nothing else changes |
| AddrMarks.ScanFinds | src/libcoin/addrman.cpp:314-326 | The scan from a random bucket wraps around and finds every referenced record |
| AddrMarks.ScanSucceeds | src/libcoin/addrman.cpp:314-330 | In a consistent manager the bail-out for a new record found in no bucket is never taken |
| AddrMarks.GoodKeepsInv | src/libcoin/addrman.cpp:287-336 | Marking good keeps the invariant; an exactly matching record is tried afterwards, at most one other leaves tried, nothing is forgotten |
| AddrMarks.AttemptKeepsInv | src/libcoin/addrman.cpp:396-413 | Recording an attempt keeps the invariant |
| AddrMarks.ConnectedKeepsInv | src/libcoin/addrman.cpp:535-553 | Recording a connection keeps the invariant |
| AddrMarks.ShuffleEffect | src/libcoin/addrman.cpp:519-533 | Sampling changes the manager only by permuting the random order beyond the finished prefix, with back-pointers in step |
| AddrMarks.SampleDistinct | src/libcoin/addrman.cpp:519-533 | A sample holds the addresses of known records, pairwise different |
| AddrStats.GoodStats | src/libcoin/addrman.cpp:287-312 | The whole exactly matching record after marking good: success, try and time stamped, no attempts, tried, unreferenced, the rest kept; the statistics of all other records stay |
| AddrStats.RecentlyTriedIsSafe | src/libcoin/addrman.cpp:63-81 | A record attempted or marked good is not terrible during the next minute, whatever else it says |
| AddrStats.AttemptsAddUp | src/libcoin/addrman.cpp:396-413 | Any number of attempts adds up in one record and changes nothing else |
| AddrStats.ThreeStrikes | src/libcoin/addrman.cpp:74-75 | A record that never worked is terrible a minute after its third attempt |
| AddrRuns.StepKeepsInv | src/libcoin/addrman.cpp:287-553 | Every operation keeps the invariant; only adding forgets a record, one at most, never a tried one |
| AddrRuns.Run | src/libcoin/addrman.cpp:119-553 | Every state reachable from the constructor by any operations, clock readings and random draws satisfies the whole index invariant |
| AddrRuns.StepTimes | src/libcoin/addrman.cpp:473-486 | Time stamps that pass the check stay so exactly when the recorded time is one the check accepts |
| AddrRuns.RunTimes | src/libcoin/addrman.cpp:473-486 | Runs that record positive times keep time stamps the check accepts |
| AddrRuns.RunTriedMonotone | src/libcoin/addrman.cpp:229-336 | The number of tried records never drops along a run |
| AddrRuns.RunForgets | src/libcoin/addrman.cpp:175-227 | A record that disappears along a run was new, had one reference and went during an addition |
| AddrBounds.InvBounded | src/libcoin/addrman.h:148-158 | The counters add up to the number of records, and both tables are within their sizes |
| AddrBounds.RunBounded | src/libcoin/addrman.h:418-422 | No run ever holds more than 64*64 + 256*64 addresses |
| AddrCheck.CheckRecords | src/libcoin/addrman.cpp:467-486 | The record loop accepts exactly when every record passes, and collects the tried identifiers and new reference counts |
| AddrCheck.CheckTried | src/libcoin/addrman.cpp:491-499 | The tried loop ends with nothing left exactly when the tried identifiers occur once each and nothing else occurs |
| AddrCheck.CheckNew | src/libcoin/addrman.cpp:501-510 | The new loop ends with nothing left exactly when every reference count equals the number of buckets |
| AddrCheckMeaning.Pigeonhole | src/libcoin/addrman.cpp:465-486 | If every record sits at its position and positions are as many as records, the random order is a permutation |
| AddrCheckMeaning.PassesMeansConsistent | src/libcoin/addrman.cpp:460-516 | With every stored address indexed, the check passes exactly when refcounts, tried entries, counters, random order and times are consistent |
| AddrCheckMeaning.CheckDecidesInv | src/libcoin/addrman.cpp:460-516 | The invariant with good times holds exactly when the check passes and the four things it does not look at hold |
| AddrBlindSpots.OverlooksIdCount | src/libcoin/addrman.cpp:460-516 | Whatever the next identifier is, the verdict of the check is the same |
| AddrBlindSpots.OverlooksStaleAddress | src/libcoin/addrman.cpp:467-486 | An index entry for an address no record has never changes the verdict |
| AddrBlindSpots.OverlooksTriedBuckets | src/libcoin/addrman.cpp:491-499 | Spreading the tried entries over the buckets in another way, of any sizes, never changes the verdict |
| AddrBlindSpots.IdCountSlips | src/libcoin/addrman.cpp:460-516 | A manager that passes with only the next identifier wrong |
| AddrBlindSpots.StaleAddressSlips | src/libcoin/addrman.cpp:460-516 | A manager that passes with only a stale index entry |
| AddrBlindSpots.WrongBucketSlips | src/libcoin/addrman.cpp:491-499 | For every address and every bucket it does not hash to, a manager that passes with that address in that bucket and nothing else wrong |
| AddrBlindSpots.OverfullBucketSlips | src/libcoin/addrman.cpp:501-510 | For every number above the bucket size, a manager that passes with that many entries in one bucket and nothing else wrong |
| AddrCheckMeaning.RunPasses | src/libcoin/addrman.cpp:460-516 | The check passes on every run that records positive times |
| AddrSerial.OrderIsBijective | src/libcoin/addrman.h:309-332 | The written order lists every record once, new ones first, each group by identifier |
| AddrSerial.EncodeLayout | src/libcoin/addrman.h:298-343 | The stream is version 0, the key, both counters, 256, the persistent fields of every record with new ones first, and the buckets |
| AddrSerial.BucketsLayout | src/libcoin/addrman.h:333-343 | Each bucket in its place as its size and its members |
| AddrSerial.IndicesMeaning | src/libcoin/addrman.h:333-343 | A member is written as its position among the records |
| AddrSerial.RestoredInv | src/libcoin/addrman.h:344-404 | A manager restored from its own stream satisfies the invariant again and is as large as before |
| AddrSerial.RestoredTimes | src/libcoin/addrman.h:344-404 | Its time stamps pass the check again |
| AddrRead.TriedHasRoom | src/libcoin/addrman.h:368-386 | Before a tried record is read back its bucket has room, so none is lost |
| AddrRead.RefsSoFar | src/libcoin/addrman.h:387-403 | While references are read back no record reaches the limit early |
| AddrWrite.WriteNew | src/libcoin/addrman.h:309-321 | The first writing loop emits the new records in identifier order and numbers them |
| AddrWrite.WriteTried | src/libcoin/addrman.h:322-332 | The second loop emits the tried records in identifier order |
| AddrWrite.WriteBuckets | src/libcoin/addrman.h:333-343 | The third loop emits each bucket as its size and the numbers of its members |
| AddrMan.Manager.constructor | src/libcoin/addrman.h:408-416 | A new manager has empty tables and is consistent |
| AddrMan.Manager.Find | src/libcoin/addrman.cpp:106-117 | Finds the record of a network address, or nothing exactly when no record has it |
| AddrMan.Manager.Create | src/libcoin/addrman.cpp:119-129 | Appends a record under the next identifier to all three indexes |
| AddrMan.Manager.SwapRandom | src/libcoin/addrman.cpp:131-149 | Swaps two positions with their back-pointers |
| AddrMan.Manager.SelectTried | src/libcoin/addrman.cpp:151-173 | Permutes the inspected prefix and reports the position the specification reports |
| AddrMan.Manager.ShrinkNew | src/libcoin/addrman.cpp:175-227 | Removes the specified victim; returns 0 exactly when some entry was deletable in the terms of AddrTypes.TerribleIsDeletable, and 1 otherwise |
| AddrMan.Manager.MakeTried | src/libcoin/addrman.cpp:229-285 | Performs the specified promotion and leaves a consistent manager |
| AddrMan.Manager.Good | src/libcoin/addrman.cpp:287-336 | Performs the specified marking and leaves a consistent manager |
| AddrMan.Manager.Add | src/libcoin/addrman.cpp:338-394 | Performs the specified addition, reports the specified novelty and leaves a consistent manager |
| AddrMan.Manager.Attempt | src/libcoin/addrman.cpp:396-413 | Records the attempt and leaves a consistent manager |
| AddrMan.Manager.Check | src/libcoin/addrman.cpp:460-516 | Returns 0 exactly when the specified tests pass, and does so on every consistent manager with good times; reading may insert index entries but never on a consistent manager |
| AddrMan.Manager.GetAddr | src/libcoin/addrman.cpp:519-533 | Appends exactly the specified sample, the smaller of 2500 and 23 percent of the addresses, and only reorders the manager |
| AddrMan.Manager.Connected | src/libcoin/addrman.cpp:535-553 | Refreshes the time only when it is over twenty minutes old and leaves a consistent manager |
| AddrMan.FindTerrible | src/libcoin/addrman.cpp:179-198 | The first loop over a full bucket finds the first terrible entry in identifier order |
| AddrMan.FindOldest | src/libcoin/addrman.cpp:200-218 | The second loop finds the longest unseen of the four picked entries |
| AddrMan.FindBucket | src/libcoin/addrman.cpp:315-326 | The wrapping scan from a random bucket finds the bucket the specification finds, or reports -1 |
| AddrMan.WantsRef | src/libcoin/addrman.cpp:358-375 | The four early returns together are the specified condition for a further reference |
| AddrMan.Factor | src/libcoin/addrman.cpp:371-373 | The chance of a further reference is one in 2^n for n references |
| AddrMan.Manager.Serialize | src/libcoin/addrman.h:298-343 | A consistent manager is written as its encoding |
| AddrMan.Manager.Unserialize | src/libcoin/addrman.h:298-404 | A stream written by a consistent manager is read back completely: the k-th written record becomes record k with all persistent fields, buckets and counters, and the result is consistent |
| AddrMan.Copy | src/libcoin/addrman.h:298-404 | Writing one manager and reading it into another restores it, with the same size and counters |
| SimdTable.TablePowers | src/libalgo/sph_simd.c:60-86 | Entry v of the table is 41^v modulo 257, for all 256 entries |
| SimdMath.Root256 | src/libalgo/sph_simd.c:60-86 | 41^128 is -1 and 41^256 is 1 modulo 257 |
| SimdMath.Decimate | src/libalgo/sph_simd.c:96-134 | The transform splits into the transforms of the even and the odd inputs, exactly |
| SimdMath.Butterfly | src/libalgo/sph_simd.c:96-134 | Two coefficients of the whole from one coefficient of each half |
| SimdFft.Reds1 | src/libalgo/sph_simd.c:88-93 | The first reduction is congruent modulo 257, with the documented range |
| SimdFft.Reds2 | src/libalgo/sph_simd.c:88-94 | The second reduction is congruent modulo 257, with the documented range for every 32-bit input |
| SimdFft.Fft8Ranges | src/libalgo/sph_simd.c:136-168 | The eight points lie in the documented ranges for every input byte |
| SimdFft.Fft8Correct | src/libalgo/sph_simd.c:136-168 | They are the eight coefficients of the transform of four inputs and four zeros |
| SimdFft.Fft16 | src/libalgo/sph_simd.c:170-197 | Stores the sixteen coefficients of eight strided inputs, within 591723, without 32-bit overflow |
| SimdFft.FftLoop | src/libalgo/sph_simd.c:96-134 | From two half-length transforms to the whole one, with the skipped first twiddle factor, at twice the range and without overflow |
| SimdExpand.Fft32 | src/libalgo/sph_simd.c:199-206 | 32 coefficients of sixteen inputs, within 1183446 |
| SimdExpand.Fft64 | src/libalgo/sph_simd.c:208-215 | 64 coefficients of 32 inputs, within 2366892 |
| SimdExpand.Fft128 | src/libalgo/sph_simd.c:242-249 | 128 coefficients of 64 inputs, within 4733784 |
| SimdExpand.Fft256 | src/libalgo/sph_simd.c:270-281 | 256 coefficients of 128 inputs, within 9467568 |
| SimdExpand.CentreUnique | src/libalgo/sph_simd.c:1389-1410 | The representative in -128..128 is the only one |
| SimdExpand.Reduce | src/libalgo/sph_simd.c:1389-1410 | After offset, three reductions and the comparison every entry is that representative of its old value plus offset |
| SimdExpand.ExpandBig | src/libalgo/sph_simd.c:1389-1410 | Every q[i] is the representative of coefficient i of the transform of the 128 input bytes plus its offset |
| SimdExpand.ExpandSmall | src/libalgo/sph_simd.c:886-910 | The same for 64 bytes and 128 coefficients at the root 41^2 |
| Words.StoreLoad | src/libalgo/sph_types.h:1805-1960 | Little-endian encoding and decoding are inverse to each other |
| KeccakConstants.OffsetsAreTriangular | src/libalgo/sph_keccak.c:1016-1045 | The rotation amounts are the triangular numbers along the walk of section 3.2.2 of FIPS 202 |
| KeccakConstants.FirstOffset | src/libalgo/sph_keccak.c:1016-1045 | The one lane the walk leaves out does not rotate |
| KeccakConstants.ConstantsAreGenerated | src/libalgo/sph_keccak.c:136-149 | Every round constant is spelled by the shift register of section 3.2.5 of FIPS 202 |
| Numbers.RolMeaning | src/libalgo/sph_types.h:948 | Left rotation is the two shifts of the macro, and multiplies by 2^n with the overflow added below |
| Numbers.LogicValues | src/libalgo/sph_keccak.c:957-1135 | Exclusive or, and, or, not as sums and differences of numbers |
| Numbers.LoadLEValue | src/libalgo/sph_types.h:1805-1960 | Little-endian decoding gives the number the bytes spell to base 256 |
| KeccakMasks.ThetaFlip | src/libalgo/sph_keccak.c:957-1014 | Theta carries any set of complemented lanes along as column parities |
| KeccakMasks.MaskReturns | src/libalgo/sph_keccak.c:1047-1056 | Theta and pi take the six stored complements to the twelve that chi expects |
| KeccakChi.KhiIsChi | src/libalgo/sph_keccak.c:1058-1135 | The five row formulas with one complement each are chi, from the entering mask to the stored one |
| KeccakNames.Follows | src/libalgo/sph_keccak.c:1139-1157 | Each list of lane names is the one before it followed by pi |
| KeccakNames.NamesNaming | src/libalgo/sph_keccak.c:1139-1157 | Each list names every word exactly once |
| KeccakRounds.StoredRound | src/libalgo/sph_keccak.c:1392-1397 | One round on the stored state is the round of FIPS 202, stored again |
| KeccakRounds.ThetaStep | src/libalgo/sph_keccak.c:957-1014 | Theta in place under any naming |
| KeccakRounds.RhoStep | src/libalgo/sph_keccak.c:1016-1045 | Rho in place under any naming |
| KeccakRounds.RowsApart | src/libalgo/sph_keccak.c:1070-1135 | Doing the five rows one after the other, each on what the others left, is the whole complemented chi |
| KeccakRounds.KhiRowStep | src/libalgo/sph_keccak.c:1070-1135 | One row in place under any naming, all other words kept |
| KeccakRounds.KhiStep | src/libalgo/sph_keccak.c:1070-1135 | The complemented chi in place, row after row, under any naming |
| KeccakRounds.RoundStep | src/libalgo/sph_keccak.c:1392-1397 | Theta and rho under one list of names and chi under the next make one whole round, pi included |
| KeccakRounds.Restore | src/libalgo/sph_keccak.c:1313-1347 | The moves after eight rounds bring every word back under its first name |
| KeccakRounds.EightRounds | src/libalgo/sph_keccak.c:1452-1467 | Eight rounds and the moves restore naming and mask |
| KeccakRounds.Permute | src/libalgo/sph_keccak.c:1452-1467 | The stored state becomes the stored form of Keccak-f[1600] of what it stands for |
| KeccakSponge.PaddedBits | src/libalgo/sph_keccak.c:1607-1633 | A message with n extra bits is hashed as its bits, the extra bits and pad10*1, nothing else |
| KeccakSponge.PaddedWhole | src/libalgo/sph_keccak.c:1607-1633 | A padded message is a whole number of blocks |
| KeccakSponge.InputBits | src/libalgo/sph_keccak.c:183-188 | Bit 64(5y + x) + z of a block goes to bit z of lane A[x, y], as section 3.1.2 of FIPS 202 numbers them; the rest of the state stays |
| KeccakSponge.SqueezeBits | src/libalgo/sph_keccak.c:1643-1645 | The output takes the bits of the lanes in the same order |
| KeccakContext.InputFlip | src/libalgo/sph_keccak.c:183-188 | Adding a block commutes with complementing lanes |
| KeccakContext.Context.Init | src/libalgo/sph_keccak.c:1525-1565 | A fresh context stands for the zero state and the empty message |
| KeccakContext.Context.InputBlock | src/libalgo/sph_keccak.c:183-188 | A block is added to the lanes it covers |
| KeccakContext.Context.Core | src/libalgo/sph_keccak.c:1568-1603 | Feeding data in pieces of any length is feeding their concatenation |
| KeccakContext.Context.Close | src/libalgo/sph_keccak.c:1607-1647 | The digest is the first bytes of the sponge state after the padded message, and the context starts afresh |
| Words.AddValue | src/libalgo/sha512.cpp:57-63 | Adding words bit by bit is adding numbers modulo 2^64 |
| Numbers.ShrValue | src/libalgo/sha512.cpp:51-54 | A right shift divides |
| Numbers.ShlValue | src/libalgo/sha512.cpp:51-54 | A left shift multiplies modulo 2^64 |
| Numbers.RorMeaning | src/libalgo/sha512.cpp:51-54 | Right rotation as a number |
| Numbers.FromNatValue | src/libalgo/sha512.cpp:68-75 | A number written into a word is that number modulo 2^64 |
| Numbers.LoadBEValue | src/libalgo/sha512.cpp:36-41 | Big-endian decoding gives the number the bytes spell |
| Numbers.StoreValue | src/libalgo/sha512.cpp:30-34 | Both encodings spell the value of the word |
| Numbers.Int8Value | src/libalgo/sha512.cpp:217-223 | A number in eight bytes is spelled modulo 2^64 |
| Sha512Constants.ConstantsAreCubeRoots | src/libalgo/sha512.cpp:84-167 | Every round constant is the first 64 fractional bits of the cube root of its prime |
| Sha512Constants.InitialIsSquareRoots | src/libalgo/sha512.cpp:66-76 | The start value is the first 64 fractional bits of the square roots of the first eight primes |
| Sha512Transform.FastForms | src/libalgo/sha512.cpp:49-50 | The rewritten choice and majority functions are those of FIPS 180-4 |
| Sha512Transform.FastSigmas | src/libalgo/sha512.cpp:51-54 | The four shift formulas are the rotations of FIPS 180-4 |
| Sha512Transform.RoundInPlace | src/libalgo/sha512.cpp:57-63 | Changing two of eight variables and rotating their roles is one round |
| Sha512Transform.WindowNext | src/libalgo/sha512.cpp:101-170 | The word made from the 16-word window is the next word of the schedule |
| Sha512Transform.Step | src/libalgo/sha512.cpp:57-63 | One round in place, for any rotation of the variables |
| Sha512Transform.EightSteps | src/libalgo/sha512.cpp:84-91 | Eight rounds bring the variables back into their first roles |
| Sha512Transform.Transform | src/libalgo/sha512.cpp:79-177 | For every state and block the result is the compression of section 6.4.2 of FIPS 180-4 |
| Sha512.WrapPosition | src/libalgo/sha512.cpp:194 | The position in a block survives wrap-around of the 64-bit byte counter |
| Sha512.PaddedWhole | src/libalgo/sha512.cpp:217-223 | A padded message is a whole number of blocks |
| Sha512Padding.PaddingMeetsStandard | src/libalgo/sha512.cpp:217-223 | The padding is that of section 5.1.2 of FIPS 180-4 exactly for messages under 2^61 bytes |
| Sha512Padding.PaddingFails | src/libalgo/sha512.cpp:220-221 | It is not the standard one for a message of 2^61 bytes |
| Sha512.Hasher.Write | src/libalgo/sha512.cpp:191-215 | Writes of any lengths add up to one write of their concatenation |
| Sha512.Hasher.Finalize | src/libalgo/sha512.cpp:217-232 | The result is the digest of everything written |
| Sha512.Hasher.Reset | src/libalgo/sha512.cpp:234-239 | A reset hasher stands for the empty message |
| HmacSha512.PadNumbers | src/libalgo/hmac_sha512.cpp:41-47 | The two pad bytes are the numbers 0x36 and 0x5c |
| HmacSha512.PadBits | src/libalgo/hmac_sha512.cpp:41-47 | Padding turns over exactly the bits of 0x36 or 0x5c in every byte |
| HmacSha512.BlockKeyMeaning | src/libalgo/hmac_sha512.cpp:33-39 | A key of up to 128 bytes is followed by zeros, a longer one acts like its digest |
| HmacSha512.Authenticator.constructor | src/libalgo/hmac_sha512.cpp:30-48 | For every key length the outer hasher holds the key block with the bits of 0x5c turned over in every byte and the inner one that with those of 0x36 |
| HmacSha512.Authenticator.Write | src/libalgo/hmac_sha512.h:45-49 | Writes add up |
| HmacSha512.Authenticator.Finalize | src/libalgo/hmac_sha512.cpp:50-55 | The result is HMAC of section 2 of RFC 2104 of everything written |
| Blake2s.Increment | src/libalgo/blake2s.c:70-75 | The two-word counter counts modulo 2^64, the carry found by comparison |
| Blake2s.OneShotFold | src/libalgo/blake2s.c:274-302 | Compressing early what cannot be last leaves the one-shot result as it was |
| Blake2s.LastIsHeld | src/libalgo/blake2s.c:274-302 | Of a message longer than the buffer more than one block is always held back |
| Blake2s.CountExact | src/libalgo/blake2s.c:274-302 | Every byte is either counted as compressed or held |
| Blake2s.Hasher.Init | src/libalgo/blake2s.c:159-178 | Refuses exactly the output lengths outside 1 to 32 |
| Blake2s.Hasher.InitKey | src/libalgo/blake2s.c:180-210 | Refuses exactly bad output or key lengths; otherwise the zero-filled key is the first block |
| Blake2s.Hasher.Update | src/libalgo/blake2s.c:274-302 | Updates of any lengths add up to their concatenation, with the counter equal to the bytes compressed modulo 2^64 |
| Blake2s.Hasher.Final | src/libalgo/blake2s.c:304-327 | The digest is that of section 3.3 of RFC 7693 for any compression function |
| Blake2s.Hash | src/libalgo/blake2s.c:329-352 | The one-call form succeeds exactly for legal lengths and returns that digest |
| Blake.IncPair | src/libalgo/sph_blake.c:835-836 | Counting one block up in two words, with the carry shown by a small low word |
| Blake.SetBackPair | src/libalgo/sph_blake.c:863-873 | The set-back counter stepped once is the count of all message bits, or zero for padding alone, and the length words need no carry |
| BlakeSpec.FillerBits | src/libalgo/sph_blake.c:861-892 | The padding is the extra bits, a one, zeros and the size mark |
| BlakeSpec.FillerLength | src/libalgo/sph_blake.c:874-892 | It leaves exactly the room of the length field, in this block or the next |
| BlakeSpec.LengthFieldValue | src/libalgo/sph_blake.c:874-892 | The length field spells the bit count modulo 2^64 or 2^128, most significant byte first |
| BlakeContext.MessageBlocks | src/libalgo/sph_blake.c:807-843 | While whole message blocks come, the counter each is compressed under is the count of message bits |
| BlakeContext.Context.Core | src/libalgo/sph_blake.c:807-843 | Data in pieces of any length, from any chain value and counter |
| BlakeContext.Context.Write | src/libalgo/sph_blake.c:912-948 | Writes add up to their concatenation |
| BlakeContext.Context.Close | src/libalgo/sph_blake.c:845-896 | For every message and 0 to 7 extra bits, both variants, each block is compressed under the specified counter and the length field is the big-endian bit length modulo 2^64 or 2^128 |
| CubeHash.LowFollows | src/libalgo/sph_cubehash.c:267-465 | The low words named in each half-round are those of the half-round before, swapped as the definition says |
| CubeHash.HighFollows | src/libalgo/sph_cubehash.c:267-465 | The same for the high words |
| CubeHash.Even | src/libalgo/sph_cubehash.c:267-364 | The even round is one round of the definition under the names it leaves behind |
| CubeHash.Odd | src/libalgo/sph_cubehash.c:366-463 | The odd round is the next one and brings every word back under its first name |
| CubeHash.Pair | src/libalgo/sph_cubehash.c:267-463 | Both together are two rounds with all four swaps carried out |
| CubeHash.SixteenRounds | src/libalgo/sph_cubehash.c:473-532 | Sixteen rounds at every unroll setting |
| CubeHash.RoundInverse | src/libalgo/sph_cubehash.c:267-364 | A round can be undone from both sides, over any words that obey five laws |
| CubeWords.Invertible | src/libalgo/sph_cubehash.c:267-364 | 32-bit words obey them, so CubeHash rounds are a bijection |
| Skein.WordsExact | src/libalgo/sph_skein.c:634-635 | The position words of the tweak are right exactly when adding the last bytes does not carry; otherwise they are 2^64 too low |
| Skein.PositionLosesCarry | src/libalgo/sph_skein.c:634-635 | A last full block that ends at byte 2^64 gets position 0 |
| Skein.ChainFold | src/libalgo/sph_skein.c:858-905 | Compressing every block that cannot be the last leaves the result as it was |
| Skein.HeldBytes | src/libalgo/sph_skein.c:858-905 | After any message but the empty one 1 to 64 bytes are held, and all bytes are accounted for |
| Skein.Context.Core | src/libalgo/sph_skein.c:858-905 | Data in pieces of any length adds up to its concatenation |
| Skein.Context.Close | src/libalgo/sph_skein.c:952-1003 | For every message and 0 to 7 extra bits the digest has the first flag on the first block alone, the final flag on the last alone and true positions, except that the last position is 2^64 too low exactly for positive multiples of 2^64 bytes |
| Pbkdf2.PadKey | src/libalgo/scrypt.c:93-104 | A block of one value with the key added is the zero-filled key with that value added throughout |
| Pbkdf2.KeyBlockMeaning | src/libalgo/scrypt.c:83-90 | A key of up to 64 bytes is followed by zeros, a longer one acts like its digest |
| Numbers.Int4Value | src/libalgo/scrypt.c:160 | A block number in four bytes is spelled modulo 2^32, most significant byte first |
| Pbkdf2.HmacInit | src/libalgo/scrypt.c:76-108 | The inner and the outer computation are fed the key block with the bits of 0x36 and of 0x5c turned over in every byte |
| Pbkdf2.HmacFinal | src/libalgo/scrypt.c:119-135 | The result is HMAC of the text fed in |
| Pbkdf2.BlockOf | src/libalgo/scrypt.c:158-179 | One output block is the sum of its c iterated values |
| Pbkdf2.Derive | src/libalgo/scrypt.c:142-190 | For every iteration count and every length up to 32*(2^32-1) the output is that prefix of T_1, T_2, ...; a count of 0 works like 1 |
| Scrypt.IndexOf | src/libalgo/scrypt.c:286 | Ten bits of one word are the last block as a number modulo 1024 |
| Words.SumValue | src/libalgo/sha512.cpp:57-63 | Adding words of any width bit by bit is adding numbers modulo the power of two |
| Words32.AddValue | src/libalgo/scrypt.c:217-241 | The same for 32-bit words |
| Words32.XorValue | src/libalgo/scrypt.c:217-241 | Exclusive or of 32-bit words as a number |
| Words32.RolValue | src/libalgo/scrypt.c:193 | Left rotation of a 32-bit word as a number |
| Words32.RorValue | src/libalgo/sph_cubehash.c:267-364 | Right rotation of a 32-bit word as a number |
| Salsa.RunDoubleRound | src/libalgo/scrypt.c:217-241 | The 32 assignments in their order are a column round and a row round made of quarter-rounds |
| Salsa.RunRounds | src/libalgo/scrypt.c:217-241 | Four passes of the loop are the eight rounds of Salsa20/8 |
| Scrypt.XorSalsa | src/libalgo/scrypt.c:195-259 | One half is replaced by Salsa20/8 of the exclusive or of both halves, the other half is kept |
| Scrypt.MixInPlace | src/libalgo/scrypt.c:282-283 | Two calls in a row are scryptBlockMix for r = 1 |
| Scrypt.RoMixInPlace | src/libalgo/scrypt.c:280-291 | Both loops are scryptROMix for N = 1024, every index in bounds |
| Scrypt.WordsValue | src/libalgo/scrypt.c:277-278 | Each word is the number its four bytes spell, least significant first |
| Scrypt.BytesWords | src/libalgo/scrypt.c:277-294 | Encoding the words and decoding them changes nothing |
| Scrypt.Hash | src/libalgo/scrypt.c:261-297 | The result is scrypt with N = 1024, r = 1, p = 1 of the input as password and salt |
| Streams.FoldAppend | src/libalgo/sph_keccak.c:1568-1603 | Buffered block processing depends only on the concatenation of the pieces |

## Left out

- Choosing a peer to connect to (`Select_`, `GetChance`): a weighted random choice in floating point that changes nothing.
- The address database file, locking, logging and the debug build's automatic checks around each operation.
- The concrete bucket hash, address grouping and key: any functions of the right types are allowed.
- The byte encoding of the serialised stream: the model reads and writes a sequence of numbers, keys and records.
- AddrMan.Manager.Unserialize: states nothing for streams the writer did not produce; the path for a different number of buckets, which re-adds the records, is modelled, and a bucket number outside the table makes the model stop where the original would index out of bounds.
- AddrMan.Manager.Attempt: the attempt counter does not wrap at 32 bits.
- AddrPromote.SelectTriedExact: the eviction of the oldest inspected entry is stated with its exact condition, because it does not hold without one.
- The offset tables of the SIMD expansion are parameters between 0 and 256; the SIMD block counter, step functions and the small-footprint transform are not modelled.
- The 32-bit interleaved build of Keccak and unroll settings other than the default of eight rounds.
- That the eighty numbers whose cube roots give the SHA-512 constants are the first eighty primes: they are listed.
- The parameter block, the compression rounds and the tree mode of BLAKE2s; the compression rounds and salt of BLAKE; Threefish inside Skein; SHA-256 inside scrypt.
- Skein.Context.Close: the 64-bit block counter does not wrap, which takes 2^70 bytes; the small variant, which is compiled out, is not modelled.
- The buffering and finishing of CubeHash, which repeat those of the other functions.
- Sha512.Hasher.Finalize: for messages of 2^61 bytes or more it states the digest with the truncated size field.
- The other hash functions (BMW, ECHO, Fugue, Groestl, Hamsi, JH, Luffa, SHAvite, Shabal, SHA-2 small, Whirlpool) and the chained proof-of-work hashes built from them.
- The rest of the node: transactions, scripts, blocks, wallets, the network protocol, RPC and the user interface.
