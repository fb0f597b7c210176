# Verified models of xfs_copy and xfs_db

This project models the algorithmic parts of two programs of xfsprogs, `xfs_copy` and `xfs_db`, in
Dafny, and proves what they promise. Every file is one module.

| module | what it models |
|---|---|
| `CopyProtocol` | the main thread and the target threads of xfs_copy, as a transition system over the loads, stores, locks and unlocks they do |
| `CopyPlan` | what xfs_copy writes for one allocation group (AG): the header, the gaps between the free extents, the tail |
| `Superblock` | what xfs_copy changes in a superblock that it writes to a target |
| `CopyImage` | the bytes that end up on a target: main pass, closing superblock pass, and the in-progress mark |
| `NameHash` | the directory and attribute name hash, plain and case-folding |
| `Obfuscate` | hash-preserving obfuscation of a name |
| `Alternates` | further names with the same hash, made by flipping pairs of bits |
| `FoldedHash` | what those alternates do to the case-folding hash |
| `NameTables` | the table of used names and the table of remapped names of xfs_metadump, over a whole dump |
| `FullDirectory` | a dump in which a directory runs out of alternate names |
| `Bmap` | lookup in an extent B-tree and the enumeration loop of the `bmap` command |
| `FreeSpace` | the checker's block type map and its scan of the two free-space trees of an AG |
| `BlkEnts`, `BlkLoop` | the entries of the checker's block map, and an extent set block by block |
| `BlkMap` | the checker's map from file offsets to blocks |
| `RtBitmap` | the checker's summary of the realtime bitmap |
| `DirChunks` | how xfs_metadump gathers extents into whole directory blocks |
| `BitField` | bit fields in big-endian buffers and the arithmetic fuzzers |
| `FieldPath` | scanning and printing field paths |
| `PathGrammar` | which paths the scanner accepts, and what they name |
| `BtHeight` | the B-tree height calculator |
| `Arith` | products, quotients, powers of two, and the bits and digits of numbers |

`dafny verify dfyconfig.toml` checks the whole project.

Conventions. Objects that the programs change in place are classes or arrays, loops are loops, and
each such method is proved against a function or predicate on values; what the programs promise is
then proved about those. Machine arithmetic is written out: 64-bit sizes in `CopyPlan`, `Bmap` and
`BtHeight`, 32-bit block numbers in `FreeSpace`, words of the hash in `NameHash`. Reads are lookups,
and writes that may fail do so nondeterministically. Every lemma switches automatic induction off,
so that its body is its proof.

Some properties that one would expect do not hold of the code. For each of them the model keeps the
code as it is, gives an input where the property fails, and proves exactly when it holds:

* The data copies of an AG stay off its header if and only if `TailClear`: there is no free extent,
  or the last one ends past the header as it was written, or nothing is left behind it. The tail
  copy has no lower bound, unlike the copies in front of a free extent. With an I/O size that
  divides the block size it always holds (`CopyPlan.CopyAg`, `CopyPlan.TailNotAlwaysClear`). For the
  same reason the in-progress mark survives the main pass if and only if `SuperblockSafe`, which such
  an I/O size ensures as well (`CopyImage.InProgressUntilLastWrite`, `CopyImage.UnsafeExample`,
  `CopyImage.AlignedIsSafe`).
* Alternates are different names exactly up to one exception: for names of six bytes or more,
  sequence numbers whose exclusive or is 1027 give the same name, because three rows of the table
  cancel (`Alternates.AlternatesDiffer`, `Alternates.TripleIsOriginal`).
* Alternates keep the plain hash, but the case-folding one if and only if the bits that the sequence
  number selects turn no byte into one that is folded or back (`FoldedHash.FoldedHashKept`,
  `FoldedHash.AlternateChangesFoldedHash`). Recorded entries are always pairwise different. Recorded
  names are too while each is filed under its own hash: always without ascii-ci, and with it exactly
  as long as the alternates chosen keep the folds (`NameTables.RecordedNamesDistinct`,
  `NameTables.FiledUnderOwnFold`). Otherwise two can be the same (`NameTables.FoldedNamesCollide`).
* A directory entry and its parent pointer need not get the same new name, for two reasons. If the
  one seen first was filed in the remap table, they do if and only if the later is not exempt because
  of lost+found, or the earlier kept its name anyway (`NameTables.SameKeySameName`); they part when
  lost+found is dumped before the root that names it (`NameTables.LateLostFound`). An entry that is
  not exempt is filed if and only if its new name was not recorded before, that is, unless every
  alternate was taken (`NameTables.FiledUnlessTaken`); otherwise its parent pointer can get any
  obfuscation of the name at all (`NameTables.UnfiledIsFree`, `FullDirectory.UnfiledNamesPart`,
  `FullDirectory.SecretParts`).
* The checker's block map takes an extent in if and only if `ExtFits`. Behind everything that is
  mapped every extent of at least one block fits. Elsewhere no entry may start at offset 0, nor the
  extent if it has several blocks; the extent may not start just before an entry; and if it reaches
  the next entry, that must be the last, with consecutive blocks from where the extent ends
  (`BlkMap.SetExt`, `BlkLoop.LoopUpdates`, `BlkEnts.PrependExample`).
* The enumeration loop of the `bmap` command runs forever if and only if an extent reaches over the
  end of the range (`Bmap.LoopsForever`, `Bmap.StraddleExample`).
* The realtime summary counts every run if and only if the bitmap has a bit for every extent or does
  not end inside a run (`RtBitmap.ProcessRtBitmap`, `RtBitmap.ShortBitmapExample`).
* The height is right if and only if none of two sums overflows (`BtHeight.CalcHeight`,
  `BtHeight.WrapExample`). In the default mode the worst case halves what is left after the average
  case, three quarters of the best.

## Model

| member | source | states |
|---|---|---|
| CopyProtocol.InitInv | copy/xfs_copy.c:939-982 | the mutexes and threads as main sets them up satisfy the protocol invariant |
| CopyProtocol.StepKeepsInv | copy/xfs_copy.c:190-251 | every step of main or of a thread, successful or failing, keeps the invariant |
| CopyProtocol.RunInv | copy/xfs_copy.c:223-251 | the invariant holds in every state of every interleaving of any number of targets |
| CopyProtocol.NoUnlockFault | copy/xfs_copy.c:223-251 | no mutex is ever unlocked while it is unlocked |
| CopyProtocol.WorkingCountsPending | copy/xfs_copy.c:484-514 | while main waits, num_working is the number of threads that have not finished the round |
| CopyProtocol.MainResumesQuiet | copy/xfs_copy.c:484-514 | main gets past mainwait only when num_working is zero and no thread uses the shared buffer |
| CopyProtocol.AbortsOnlyWhenAllFailed | copy/xfs_copy.c:484-514 | main gives up only when every target has failed |
| CopyProtocol.DoomedByIo | copy/xfs_copy.c:190-220 | a thread is on its way out exactly when an earlier step of its own failed to seek or wrote short |
| CopyProtocol.InactiveMeansFailedIo | copy/xfs_copy.c:190-251 | a target is INACTIVE only if its own thread failed to seek or wrote short before, and between rounds exactly then |
| CopyProtocol.AbortMeansFailedIo | copy/xfs_copy.c:484-514 | main gives up only if every thread has failed to seek or written short |
| CopyProtocol.NoFailureNoLoss | copy/xfs_copy.c:190-251 | a target whose thread never failed to seek or wrote short stays ACTIVE, main does not give up, and between rounds it has received every buffer |
| CopyProtocol.SentIsPublished | copy/xfs_copy.c:484-514 | the buffers accounted as sent are those main published along the run |
| CopyProtocol.ActiveTargetsHaveEverything | copy/xfs_copy.c:190-251 | between rounds every target still ACTIVE has received exactly main's buffers in order, whichever others failed and when |
| CopyProtocol.AtMostOneBehind | copy/xfs_copy.c:190-251 | in mid-round a target that has not failed is at most the current buffer behind |
| CopyProtocol.NoDataRace | copy/xfs_copy.c:190-251 | no two threads are ever about to touch the same unlocked variable with one of them writing |
| CopyProtocol.MainFootprint | copy/xfs_copy.c:484-514 | what main does next depends on the unlocked variables it reads alone, and changes those alone that it writes |
| CopyProtocol.ThreadFootprint | copy/xfs_copy.c:190-251 | the same of a target thread |
| CopyProtocol.StepUsesBudget | copy/xfs_copy.c:484-514 | every step inside a round uses up some of a finite budget |
| CopyProtocol.NoDeadlock | copy/xfs_copy.c:223-251 | inside a round some thread can always move |
| CopyProtocol.RoundTerminates | copy/xfs_copy.c:484-514 | however the threads are scheduled, a round has at most as many steps as its budget |
| CopyPlan.CopySizeForward | copy/xfs_copy.c:1098-1110 | the size computed in unsigned 64-bit arithmetic is the distance rounded up when the copy goes forward |
| CopyPlan.CopySizeWraps | copy/xfs_copy.c:1098-1110 | the size is zero when the free extent starts less than one I/O unit before the copy would |
| CopyPlan.HeaderFacts | copy/xfs_copy.c:437-481 | position and length of the AG header as read and written, aligned to the I/O size |
| CopyPlan.ReadWbuf | copy/xfs_copy.c:382-435 | the range that is asked for, aligned outwards; that it aborts exactly when that exceeds the buffer; and exactly when a read that the end of the source cuts short counts as a full one |
| CopyPlan.CopyExtent | copy/xfs_copy.c:1110-1140 | the chunk loop tiles the range without gap or overlap, every chunk fits the buffer, and it never aborts |
| CopyPlan.CopyGap | copy/xfs_copy.c:1098-1140 | the copy of one gap tiles it rounded up to the I/O size, or copies nothing |
| CopyPlan.CopyRecord | copy/xfs_copy.c:1085-1148 | one free-space record keeps what the record loop has achieved so far |
| CopyPlan.CopyRecords | copy/xfs_copy.c:1085-1174 | over all leaves, everything below the last free extent that is not free has been written |
| CopyPlan.CopyAg | copy/xfs_copy.c:996-1211 | every byte that is not free is written, every chunk fits the buffer, the header stays as written exactly when TailClear, and aligned geometries copy used space only |
| CopyPlan.AlignedTail | copy/xfs_copy.c:1176-1211 | with an I/O size that divides the block size the tail copy never reaches the header |
| CopyPlan.TailNotAlwaysClear | copy/xfs_copy.c:1176-1211 | a geometry and a free extent with which the tail copy overwrites the header |
| CopyImage.FillBuffers | copy/xfs_copy.c:996-1015 | buffers hold source data, except that the first one has in-progress set |
| CopyImage.CopyAllAgs | copy/xfs_copy.c:996-1211 | after all AGs every byte that is not free has been written, and only the first write touches the in-progress byte exactly when SuperblockSafe |
| Superblock.UpdateUuid | copy/xfs_copy.c:516-547 | the target's UUID goes in; on a filesystem with checksums and no metadata UUID a different one also sets bit 2 of the feature byte at 219, keeps its other bits, and keeps the source's UUID at 248; otherwise those stay; the checksum is right, and nothing else changes |
| Superblock.UpdatedAgain | copy/xfs_copy.c:1226-1234 | updating the same buffer for one target after the other leaves what an earlier target needed |
| Superblock.SameUuidKeeps | copy/xfs_copy.c:516-547 | a superblock with this UUID and a right checksum stays as it is |
| CopyImage.CloseSuperblock | copy/xfs_copy.c:1223-1235 | one header, read once and updated in place for each target in turn |
| CopyImage.SuperblockPass | copy/xfs_copy.c:1213-1236 | to every target the new log unless duplicating, then the AG headers backwards, each the source's with the superblock updated for the target and sb_inprogress cleared in AG 0 |
| CopyImage.ClosingIsFinal | copy/xfs_copy.c:1213-1236 | only the last of these writes reaches the in-progress byte, and clears it, exactly when the new log stays off it |
| CopyImage.InProgressUntilLastWrite | copy/xfs_copy.c:1213-1236 | in-progress is set after every proper prefix of a target's writes and clear at the end, exactly when SuperblockSafe |
| CopyImage.UnsafeExample | copy/xfs_copy.c:1176-1211 | a geometry and a free extent with which a data copy reaches the superblock of AG 0 |
| CopyImage.AlignedIsSafe | copy/xfs_copy.c:1176-1211 | with an I/O size that divides the block size the main pass never rewrites the superblock of AG 0 |
| CopyImage.ActiveTargetIsCopy | copy/xfs_copy.c:996-1236 | however threads interleave and fail, a target still ACTIVE equals the source on every byte that is not free, outside of the new log and of the UUID, feature, metadata UUID and checksum bytes that change in the superblocks |
| CopyImage.FlawlessTargetIsCopy | copy/xfs_copy.c:996-1236 | the same of every target whose own I/O never failed, whatever happened to the others |
| CopyImage.DuplicateIsExact | copy/xfs_copy.c:955-959 | a duplicate equals the source on every byte that is not free, if the source's first superblock is in order |
| CopyImage.SuperblockStamped | copy/xfs_copy.c:1226-1235 | in the end each superblock is the source's, updated for the target, with a right checksum |
| CopyImage.LogFormatted | copy/xfs_copy.c:1387-1413 | in the end the log is the new one, where no header reaches |
| NameHash.DaHashName | libxfs/xfs_da_btree.c:2249-2278 | the unrolled hash equals the fold one character at a time |
| NameHash.XfrmEdges | libxfs/xfs_dir2.h:293-309 | the first and last byte of each range that is folded, and those just outside |
| Obfuscate.FillPrefix | db/obfuscate.c:76-88 | the prefix becomes the characters drawn, and its hash is accumulated |
| Obfuscate.SolveFive | db/obfuscate.c:100-122 | the five bytes follow the chain of carries; it gives up exactly at a byte that ascii-ci would fold |
| Obfuscate.ChainSpread | db/obfuscate.c:90-139 | with the wrap-around fixup of the first byte the five bytes contribute exactly the wanted hash, for every carry pattern |
| Obfuscate.SolvedName | db/obfuscate.c:90-98 | a name whose last five bytes contribute the rotated prefix hash xor the wanted hash has the wanted hash |
| Obfuscate.TailFacts | db/obfuscate.c:90-139 | for every remaining hash the tail has five valid bytes that contribute it, the first of them below 0x20 |
| Obfuscate.AttemptFacts | db/obfuscate.c:76-139 | an attempt keeps its prefix, is a valid name, has the wanted hash, and has a control character behind the prefix |
| Obfuscate.ScrambledFacts | db/obfuscate.c:27-141 | a name obfuscated successfully is valid, has the wanted hash, and has a control character fifth from the end, unlike any ordinary name |
| Obfuscate.SolveTail | db/obfuscate.c:98-139 | the last five bytes become the tail of the remaining hash, unless ascii-ci folds a byte of it, and then another attempt is asked for |
| Obfuscate.ObfuscateName | db/obfuscate.c:27-141 | for any characters drawn: names under five bytes stay; others become the attempt from the first draws that is not refused, without ascii-ci the very first; the old name is kept exactly when the first 1001 attempts are all refused |
| Alternates.FlipBitInPlace | db/obfuscate.c:227-294 | flips both bits of the selected row or neither |
| Alternates.FindAlternateInPlace | db/obfuscate.c:365-393 | leaves the name as its value-level specification says, partial flips included |
| Alternates.FlipKeeps | db/obfuscate.c:227-294 | one flip keeps length and plain hash and never makes a valid name invalid |
| Alternates.AlternateKeeps | db/obfuscate.c:365-393 | whatever is returned, length and plain hash are kept and valid names stay valid |
| Alternates.FoundInRange | db/obfuscate.c:365-393 | a sequence number that succeeds uses only rows that exist for the length |
| Alternates.Kernel | db/obfuscate.c:238-257 | which combinations of rows cancel: none but the empty one and, from six bytes on, 1027 |
| Alternates.AlternatesDiffer | db/obfuscate.c:365-393 | two successful sequence numbers give the same name exactly when they are equal or differ by 1027 on six bytes or more |
| Alternates.TripleIsOriginal | db/obfuscate.c:244-254 | alternate 1027 of a six-byte name is the name itself |
| FoldedHash.FoldedHashIs | libxfs/xfs_dir2.c:70-81 | the case-folding hash is the plain hash xor a word that depends on which bytes are folded alone |
| FoldedHash.FoldedHashesAgree | libxfs/xfs_dir2.c:70-81 | names of one plain hash that differ in the last six bytes at most have one case-folding hash exactly when the same bytes are folded |
| FoldedHash.FoundByte | db/obfuscate.c:365-393 | every byte of an alternate, from the name and the sequence number |
| FoldedHash.FoldedHashKept | db/obfuscate.c:365-393 | an alternate keeps the case-folding hash exactly when its bits turn no byte into one that is folded or back |
| FoldedHash.AlternateChangesFoldedHash | db/obfuscate.c:365-393 | an alternate whose case-folding hash is not that of the name |
| NameTables.SearchBound | db/metadump.c:1003-1033 | the search for an alternate ends at a power of two fixed by the length, and no later number ever succeeds |
| NameTables.MetaDump.NameClear | db/metadump.c:775-787 | the table of used names becomes empty, and nothing else changes |
| NameTables.MetaDump.ObfuscateInPlace | db/metadump.c:1110-1118 | the name becomes an obfuscation of itself, or stays |
| NameTables.MetaDump.NameFind | db/metadump.c:793-804 | finds an entry exactly when it was recorded |
| NameTables.MetaDump.NameAdd | db/metadump.c:810-827 | records an entry in its chain |
| NameTables.MetaDump.RemapFind | db/metadump.c:876-903 | finds a remapping exactly when the key is recorded, with its new name |
| NameTables.MetaDump.RemapAdd | db/metadump.c:905-932 | records a remapping, still one entry per key |
| NameTables.MetaDump.FindFree | db/metadump.c:1013-1024 | the loop ends with the first alternate nobody uses, or because all are taken |
| NameTables.MetaDump.HandleDuplicateName | db/metadump.c:1003-1033 | always ends, with the first unused alternate of the same plain hash, or with the name untouched only if every alternate is taken |
| NameTables.MetaDump.Rename | db/metadump.c:1110-1135 | obfuscates, avoids used names and records the outcome |
| NameTables.MetaDump.ObfuscateAttr | db/metadump.c:1053-1135 | one step of the dump's transition system for an extended attribute |
| NameTables.MetaDump.ObfuscateDirent | db/metadump.c:1053-1156 | one step of the dump's transition system for a directory entry |
| NameTables.MetaDump.ObfuscatePptr | db/metadump.c:1313-1390 | one step of the dump's transition system for a parent pointer |
| NameTables.RecordedNamesDistinct | db/metadump.c:1110-1135 | in every dump all entries recorded between clears are pairwise different, and so are the names if each is filed under its own hash, as without ascii-ci all are |
| NameTables.RecordedSinceClear | db/metadump.c:775-787 | at every point of a dump the table of used names holds exactly what the events since the last clear have produced |
| NameTables.FreshNameKept | db/metadump.c:1003-1033 | a new name is an alternate of an obfuscation of the old one, and that obfuscation itself unless an event since the last clear has produced it |
| NameTables.NamesGetObfuscated | db/metadump.c:1110-1135 | without ascii-ci an attribute or entry of five bytes or more, without a control character fifth from the end, gets another name, unless an event since the last clear has produced what obfuscation makes of it |
| NameTables.PointersGetObfuscated | db/metadump.c:1354-1384 | a parent pointer with a new key gets an obfuscation of its name, and the key is filed with it |
| NameTables.ClearForgets | db/metadump.c:2701-2721 | after a clear the same short name is used again |
| NameTables.FiledUnderOwnFold | db/metadump.c:1110-1135 | on ascii-ci a recorded name is filed under its own hash exactly when the alternate chosen keeps the folds |
| NameTables.FoldedNamesCollide | db/metadump.c:1003-1033 | a dump on ascii-ci in which one name is recorded twice |
| NameTables.OrphanageSettles | db/metadump.c:957-992 | the inode taken for lost+found is that of an exempt root entry of this name and stays the same to the end of the dump |
| NameTables.LostFoundStays | db/metadump.c:957-992 | once the root has given away the inode of lost+found, its entries keep their name, and so do those in it that are called after their own inode |
| NameTables.OrphanNameIs | db/metadump.c:989-991 | such a name is the inode in decimal |
| NameTables.NextKeepsRemap | db/metadump.c:1087-1156 | one event never changes or drops a remapping, uses a recorded one and files a new one |
| NameTables.RemapPersists | db/metadump.c:835-932 | a remapping stays the same to the end of the dump |
| NameTables.KnownKeyDecides | db/metadump.c:1354-1384 | once a key is recorded, every later entry or parent pointer with it gets the name filed, or its own if lost+found exempts it |
| NameTables.FiledUnlessTaken | db/metadump.c:1119-1156 | an entry or parent pointer that is not exempt is in the remap table afterwards, unless it is an entry whose alternates were all taken; exactly then its new name was already recorded |
| NameTables.UnfiledIsFree | db/metadump.c:1354-1384 | after an entry that was not filed, its parent pointer can get any obfuscation of the name |
| NameTables.SameKeySameName | db/metadump.c:1354-1384 | an entry and a parent pointer of one key, in either order, the earlier of which was filed, end with the same name exactly when the later is not exempt or the earlier kept its name |
| NameTables.LateLostFound | db/metadump.c:957-992 | a dump in which an entry is renamed and its parent pointer is not |
| FullDirectory.FillTo | db/metadump.c:1053-1135 | a dump whose entries take any number of alternates of a name one by one |
| FullDirectory.UnfiledNamesPart | db/metadump.c:1119-1125 | for any names of one hash, a dump in which an entry and its parent pointer are renamed differently |
| FullDirectory.SecretParts | db/metadump.c:1119-1125 | such a dump, for names that obfuscation computes |
| Bmap.OneExtentClips | db/bmap.c:272-308 | bmap_one_extent skips, stops, or emits the intersection with the range |
| Bmap.ScanRecords | db/bmap.c:75-80 | the record loop with its moving cursor yields the clipped records of the fork so far, until full or past the end |
| Bmap.SelectChild | db/bmap.c:342-362 | the last child whose key is not past the offset, or the first |
| Bmap.FindLeaf | db/bmap.c:83-102 | the descent arrives at a leaf before which no record reaches past the offset |
| Bmap.WalkLeaves | db/bmap.c:103-124 | the walk along the right siblings completes the clipped list |
| Bmap.Lookup | db/bmap.c:30-129 | for every fork format, offset, length and count: the first nex extents of the flattened record list clipped to the range |
| Bmap.ClippedMapsSame | db/bmap.c:272-308 | clipping maps exactly the offsets of the range that the fork maps, to the same blocks |
| Bmap.Enumerate | db/bmap.c:240-262 | the loop of single lookups lists exactly the clipped extents and ends, unless an extent straddles the end |
| Bmap.WholeForkListed | db/bmap.c:233-262 | without a range it lists every extent of the fork once, in order |
| Bmap.LoopsForever | db/bmap.c:240-262 | the loop runs forever exactly when an extent reaches over the end of the range |
| Bmap.StraddleExample | db/bmap.c:240-262 | a range that ends inside an extent, on which the loop never ends |
| FreeSpace.Checker.CheckRange | db/check.c:1285-1330 | passes exactly the ranges that end inside the AG, and those whose end wraps around 2^32 to a place inside it |
| FreeSpace.Checker.CheckDbmap | db/check.c:1209-1242 | adds no error exactly when all blocks exist and have the expected type |
| FreeSpace.Checker.CheckSetDbmap | db/check.c:1467-1505 | adds no error exactly when the claim finds what it expects, and marks the blocks either way |
| FreeSpace.Checker.ScanLeaf | db/check.c:4126-4156 | adds no error exactly when the claims of its records are accepted in order and by-block records ascend; then the counters are what the claims imply |
| FreeSpace.Checker.ScanBlock | db/check.c:4098-4247 | adds no error exactly when the subtree is sound and its claims are accepted in order; then the counters are what the claims imply |
| FreeSpace.Checker.ScanTree | db/check.c:3999-4022 | adds no error exactly when there is at least one level, the block is readable, the subtree is sound and its claims are accepted |
| FreeSpace.Checker.ScanFreeSpace | db/check.c:3810-3820 | adds no error exactly when both trees are sound and all their claims are accepted; then the free-block counter is the number of blocks left FREE2, and longest is the maximum |
| FreeSpace.AcceptedIff | db/check.c:1467-1505 | all claims of a scan are accepted exactly when each lies in the AG and takes unknown blocks: for a tree block or a by-block record claimed by nothing before, for a by-count record by one by-block record only |
| FreeSpace.HealthyExample | db/check.c:4098-4247 | a group with one leaf in each tree whose scan adds no error |
| FreeSpace.OneOfEachTree | db/check.c:4172-4247 | a block of a by-count record was unknown, is in exactly one by-block record, and nothing else claims it |
| FreeSpace.CountRecordsDisjoint | db/check.c:4172-4247 | by-count records are pairwise disjoint |
| FreeSpace.FreeBlocksCounted | db/check.c:4216-4222 | the counted blocks are those left FREE2, so the 32-bit counter has not wrapped |
| FreeSpace.LongestIsMax | db/check.c:4221-4222 | longest is the maximum over the records |
| FreeSpace.SharedStaysShared | db/check.c:1447-1505 | over any sequence of accepted claims a shared data block never becomes plain data |
| FreeSpace.SharedIfTwice | db/check.c:1486-1495 | a block that extents of files claim once is data, one claimed more often is shared data |
| FreeSpace.DataAcceptedIff | db/check.c:1447-1505 | extents of files are accepted exactly when they lie in the AG, on blocks nothing else has claimed, and without reflink only once |
| BlkMap.BlkMap.SetExt | db/check.c:699-730 | the map gains exactly the offsets of the extent if and only if the extent fits; behind everything mapped it always does |
| BlkMap.BlkMap.SetBlk | db/check.c:655-697 | the search for the place of one block and the change made there, as its value-level specification says |
| BlkMap.BlkMap.SetBlks | db/check.c:728-729 | the loop over the blocks, and whether it leaves freed entries in use |
| BlkLoop.PutsAre | db/check.c:655-697 | from the second block on the loop stays in one entry |
| BlkLoop.DanglesIs | db/check.c:732-745 | the loop leaves freed entries in use exactly when it reaches an entry that is not the last |
| BlkLoop.FittingHolds | db/check.c:699-730 | an extent that fits is added to the map |
| BlkLoop.ZeroFails | db/check.c:668-672 | an entry at offset 0, or an extent of several blocks that starts there, breaks the order |
| BlkLoop.PrependFails | db/check.c:480-500 | an extent just before an entry gets a wrong first block |
| BlkLoop.TailFails | db/check.c:685-696 | reaching the last entry fails if its blocks from there on are not consecutive |
| BlkLoop.LoopUpdates | db/check.c:699-730 | set block by block, an extent is added to the map if and only if it fits |
| BlkEnts.SetBlkUpdates | db/check.c:655-697 | setting one block anywhere updates the map at that offset exactly when the block fits |
| BlkEnts.BadJoin | db/check.c:732-745 | closing a gap fails when the entry taken in is not the last, or its blocks are not consecutive |
| BlkEnts.PrependExample | db/check.c:480-500 | a block set just before an entry is stored as the block after it |
| BlkMap.BlkMap.Get | db/check.c:528-543 | lookup |
| BlkMap.BlkMap.GetN | db/check.c:545-590 | maximally merged extents that equal lookup at every offset of the window and map nothing else |
| BlkMap.BlkMap.NextOff | db/check.c:627-653 | the least mapped offset after the given one, or none |
| BlkMap.BlkMap.VisitAll | db/check.c:3398-3399 | the callers' loop visits every mapped offset once, in order |
| BlkMap.PushDescribes | db/check.c:570-584 | one more offset keeps the extents merged and exact |
| RtBitmap.HighBitIsLog | libxfs/xfs_bit.h:36-39 | the high bit is the floor of the binary logarithm |
| RtBitmap.SumOffsUnique | libxfs/xfs_rtbitmap.h:269-275 | different entries of the summary have different offsets |
| RtBitmap.ScanBit | db/check.c:3432-3454 | one bit opens, continues or closes a run and keeps the tally |
| RtBitmap.ScanBlock | db/check.c:3432-3454 | the bits of one block, up to the last extent |
| RtBitmap.StrayIsOutside | db/check.c:3458-3464 | where a run left open by a bitmap that is too short is counted is no entry of the summary |
| RtBitmap.MissedRun | db/check.c:3458-3464 | a run that its own entry does not count leaves the summary incomplete |
| RtBitmap.ProcessRtBitmap | db/check.c:3371-3466 | free extents are the total length of the runs, and every entry grows by the number of maximal runs of its size that start in its block, exactly when the bitmap does not end inside a run before the last extent |
| RtBitmap.ShortBitmapExample | db/check.c:3458-3464 | a whole block, all free, and one extent more than it has bits |
| DirChunks.DirMap.AddPiece | db/metadump.c:2034-2044 | one piece continues the blocks taken in and completes the map at fsbcount blocks |
| DirChunks.DirMap.Process | db/metadump.c:2016-2088 | every map completed, whether or not it could be read and written, has exactly fsbcount blocks in at most fsbcount pieces, and the completed maps plus the pending one are the input in order |
| DirChunks.PiecesFit | db/metadump.c:2042-2044 | a map never has more pieces than blocks |
| BitField.SetBitL | db/bit.c:25-45 | sets one bit and keeps all others |
| BitField.SetBitVal | db/bit.c:129-146 | the field gets the input's bits and all others stay, by bits or by bytes |
| BitField.ScrapeBits | db/bit.c:85-107 | the bit loop reads the field's number, sign-extended if asked |
| BitField.GetBitVal | db/bit.c:46-107 | the aligned fast paths and the loop compute the same, signed or not |
| BitField.FormatNumber | db/fuzz.c:234-268 | the formatted bytes read back as the number modulo 2^width |
| BitField.WriteField | db/fuzz.c:284-290 | writing a formatted value gives that value modulo 2^width and keeps all other bits |
| BitField.FuzzAdd | db/fuzz.c:271-292 | adds 137 or 2017 modulo 2^width, refuses widths above 64 |
| BitField.FuzzSub | db/fuzz.c:294-315 | subtracts the same modulo 2^width |
| BitField.AddThenSub | db/fuzz.c:271-315 | add followed by subtract restores the buffer |
| FieldPath.Split | db/flist.c:317-401 | the token loop yields the tokens of the path, or fails on a bad character or open quote |
| FieldPath.Scan | db/flist.c:249-315 | the chain that the path spells, or a syntax error |
| FieldPath.PathTokens | db/print.c:102-121 | a printed path splits into the tokens of its chain |
| FieldPath.ToksBack | db/flist.c:266-307 | those tokens are scanned back into the chain, single indices without an upper end |
| FieldPath.PrintThenScan | db/flist.c:159-171 | printing a chain and scanning it gives the chain after the single-index normalisation |
| FieldPath.ScanAloneExact | db/flist.c:249-315 | without the normalisation exactly when no index is a single one |
| PathGrammar.GrammarAccepted | db/flist.c:249-401 | every path made of names, indices and dots by the grammar is accepted, and gives one node per name with the values of its indices |
| PathGrammar.AcceptedIsGrammar | db/flist.c:249-401 | every path that is accepted is one of the grammar, with these nodes |
| PathGrammar.Refused | db/flist.c:266-307 | a quote, a dot at the end, or a bracket without its partner is never accepted |
| PathGrammar.QuotedToken | db/flist.c:363-373 | a quoted text reaches to the last quote there is |
| PathGrammar.OpenQuote | db/flist.c:363-373 | a quote that is not closed is an error |
| PathGrammar.HexNumber | db/flist.c:279-295 | after 0x every further digit counts sixteenfold |
| PathGrammar.OctalNumber | db/flist.c:279-295 | after a 0 every further digit counts eightfold, and 8 and 9 are refused |
| PathGrammar.DecimalNumber | db/flist.c:279-295 | otherwise every further digit counts tenfold |
| PathGrammar.NumberShape | db/flist.c:279-295 | a number has nothing but digits, and the x of 0x |
| PathGrammar.IntWraps | db/flist.c:279-295 | an index beyond an int wraps around modulo 2^32, and one beyond an unsigned long is -1 |
| PathGrammar.SingleIndex | db/flist.c:276-306 | a name with one index in brackets is one node with the value of the number, whatever its notation |
| PathGrammar.HexIndex | db/flist.c:276-306 | name[0x10] is index 16 |
| BtHeight.CeilCeil | db/btheight.c:113-125 | rounding up level by level is rounding up once |
| BtHeight.CalcHeight | db/btheight.c:97-136 | the level count is the least that holds the records if and only if no sum overflows, and the total is the sum of the levels' blocks modulo 2^64 |
| BtHeight.WrappedIsWrong | db/btheight.c:113 | when a sum overflows the loop stops with a level count that is too low |
| BtHeight.WrapExample | db/btheight.c:113 | an input whose first sum overflows |
| BtHeight.HeightMono | db/btheight.c:308-383 | fuller blocks never make a tree taller |
| BtHeight.PlanIs | db/btheight.c:308-383 | the geometry of each scenario and its guard: full blocks, three quarters rounded down, half of the last rounded down; at least 2 and 4, in the worst case 1 and 2 |
| BtHeight.Report | db/btheight.c:289-383 | for any choice of scenarios, those calculated are the ones planned up to the first whose guard refuses it, and a later one is never shorter |

## Left out

- CopyPlan.CopyAg: the source is as large as the filesystem, or larger by at least one I/O unit; in between the last read is short.
- CopyImage.FillBuffers: bytes past the end of the source, which are whatever the buffer held before, are taken to be the source's; read errors are not modelled.
- CopyImage.SuperblockPass: the writes of the new log, formatted in one piece or cleared in several, are a parameter; so is the checksum function.
- CopyImage.ActiveTargetIsCopy: says nothing about the closing writes to a target that fails in them, whose result the code ignores.
- NameTables.MetaDump.ObfuscateDirent: skipping a leading slash, which no directory entry has, is not modelled; neither is running out of memory.
- Bmap.Lookup: the tree is well formed, as its own format demands (keys are the first offsets of the children, leaves are linked and not empty, records ascend); damaged trees are not modelled.
- FreeSpace.Checker.ScanTree: of a tree of zero levels, which is always an error, only the root is looked at; the code follows its pointers at levels below zero. The counters fdblocks and agfbtreeblks are not modelled.
- BlkMap.BlkMap.SetExt: memory that the code frees while it is still in use is never taken to be in order again, whatever it would hold.
- RtBitmap.ProcessRtBitmap: every block is readable, and run lengths fit a C int, that is, fewer than 2^31 realtime extents; marking the extents in the realtime block map is not modelled. Where the code would count a run outside of the array, the model counts nothing.
- BitField.ScrapeBits: the little-endian host's branch; or-ing a bit below all that is set is written as a sum.
- FieldPath.PrintThenScan: chains as the parser leaves them, with names of the scanner's alphabet and indices that are not negative; resolving names against field tables and expanding arrays and structures is not modelled.
- Command lines, messages, progress, signals, computing CRCs, verifiers, transactions and the buffer cache.
- The SIGCHLD handler of xfs_copy, obfuscation of symlink targets, the other fuzzers, and the other scans of the checker.
