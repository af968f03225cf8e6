# A Btrfs driver, modelled and verified

This project models the parts of a read-write Btrfs driver where a mistake loses data:
how a commit survives a power cut, how a file's extent items are cut, shared, copied and
merged, how each extent's reference count keeps up with the items naming it, how a block
group is moved while the volume is in use, where data and chunks are placed, and how the
indexes and encodings in between agree with the simple things they stand for. Each
component of the driver is a Dafny module, and `dafny verify dfyconfig.toml` checks them
all.

The entities:

- A **file** is a list of extent items, each naming a stretch of one extent, or a hole.
  What a byte of a file reads is symbolic: zero, or one place in one extent. An
  **extent tree** holds for each extent its length and the multiset of references to it.
  The central invariant, `Accounted`, is that an extent's references are exactly the
  items naming it, over all files.
- A **device** is a map of tree blocks and superblock copies (commits), or of bytes
  (relocation). A crash leaves what was flushed and any part of what was not.
- A **chunk map** is the ordered list of chunks; a chunk maps a logical byte and a copy's
  number to a place on a device.
- A **tree** of the B-tree reader is stored in blocks found by address; its meaning is
  its items in key order. Deletes and puts by key are a map from keys to edits.

The files, by component:

| component | files |
|---|---|
| commit protocol | `Commit.dfy` |
| address translation, placement, trim | `ChunkMap.dfy`, `Allocator.dfy`, `Placement.dfy`, `Trim.dfy` |
| free space and the checker | `FreeSpace.dfy` |
| clone and dedupe | `FileItems.dfy`, `Cut.dfy`, `Clones.dfy`, `Extents.dfy`, `Clone.dfy`, `Reflink.dfy` |
| copy-on-write writes | `CowPlan.dfy`, `CowWrite.dfy`, `CowHoles.dfy`, `CowTree.dfy`, `Replace.dfy`, `CowCommit.dfy`, `CowVolume.dfy` |
| defragment | `Defrag.dfy`, `DefragVolume.dfy` |
| relocation | `NewChunk.dfy`, `Moving.dfy`, `Midway.dfy`, `KeptFiles.dfy`, `RelocationPlan.dfy`, `Relocate.dfy` |
| shared-reference expansion | `SharedRefs.dfy`, `ExpandRefs.dfy`, `ItemsNaming.dfy` |
| inline references | `Backref.dfy` |
| B-tree reader | `BTree.dfy` |
| checksum tree | `Keyed.dfy`, `Csum.dfy`, `CsumDescent.dfy` |
| LZO framing | `Lzo.dfy` |
| shared values | `Base.dfy` |

Parameters stand for what the driver gets from elsewhere: the hash of a data reference,
the LZO1X codec, digests, what a place in an extent holds, the fresh extents an
allocation gives, the visitor of a walk, and whether a device write or a commit fails.

## Model

| member | source | states |
|---|---|---|
| `Commit.Volume.CommitWith` | src/commit.rs:250-318 | The writes and flushes a commit issues, in order, and the device they leave; refused untouched on a read-only volume and, exactly, where a newer superblock is on the device; a block of the wrong size stops it after the blocks before it |
| `Commit.CommitIsCrashSafe` | src/commit.rs:250-318 | Cut off after any number of its operations, with any subset of the unflushed writes landed, a commit leaves a newest superblock that is the old or the new one, every block of whose tree is intact; it is the old one up to the first flush and the new one at the end |
| `Commit.EveryMountIsOldOrNew` | src/commit.rs:237-318 | Over any run of mounts, commits and crashes, each mount finds the state before or after the attempt that preceded it, whole, one generation on |
| `Commit.ImageKeepsFields` | src/commit.rs:344-505 | The superblock built from the copy at the first offset is the one built from the mounted superblock exactly when the fields the change leaves alone agree between the two |
| `Commit.NoFieldLost` | src/commit.rs:438-439 | Where superblock copies land in the order issued, over any run of commits and crashes the mounted superblock is the first one with the fields of every change that landed, in turn, and no other field lost |
| `Commit.StaleFirstCopyLosesAField` | src/commit.rs:438-439 | Where they land out of order, a commit after the crash can put an old value back into a field it does not set |
| `ChunkMap.MappingIsInjective` | src/chunk.rs:662-738 | Under every profile, two addresses and copies at one place of one stripe are the same address and copy |
| `ChunkMap.RunIsContiguous` | src/chunk.rs:662-738 | Every byte of a mapped run maps to the byte as far along, with the rest of the run after it |
| `ChunkMap.StripesContainedIffWholeRows` | src/check.rs:755-762 | Every mapped run stays inside the device extent the checker expects of its stripe exactly when the chunk is a whole number of rows of stripes |
| `ChunkMap.RaggedRowsEscape` | src/chunk.rs:1242-1258 | In a chunk that is not, the last byte the ragged last row puts on the first stripe lies past that device extent |
| `ChunkMap.DeviceByteHasOneOwner` | src/chunk.rs:662-738 | With disjoint device extents, one byte of one device is the image of at most one logical byte and copy of the whole volume |
| `ChunkMap.Map.Insert` | src/chunk.rs:874-894 | The map stays ordered; a chunk goes in exactly when it overlaps none, and all else stays as it was |
| `ChunkMap.ChunkForFindsTheChunk` | src/chunk.rs:912-920 | The bisection over an ordered map gives a chunk exactly when that chunk is in the map and covers the address |
| `FreeSpace.Gaps` | src/block_group.rs:244-270 | The gaps and the taken runs split the group's bytes between them, in order; refused exactly where a run starts inside what came before |
| `FreeSpace.DecodeBitmap` | src/block_group.rs:368-405 | The runs decoded, and to the byte what they hold: the set bits' sectors and, after a set last bit, the bytes past the last whole sector; refused exactly where the item is too short |
| `FreeSpace.BitmapExactIff` | src/block_group.rs:368-405 | Those are exactly the set bits' sectors if and only if the length is whole sectors, or there is none, or the last bit is clear |
| `FreeSpace.LastSectorOverruns` | src/block_group.rs:398-404 | A bitmap whose run goes on over bytes no bit speaks for |
| `FreeSpace.CachedFreeExtents` | src/block_group.rs:340-432 | A group's free-space items hold exactly the bytes their extents and bitmaps record, apart from one another where the items are; refused exactly where an item cannot be read |
| `FreeSpace.ComparisonIsByteEquality` | src/check.rs:824-843 | Two merged lists are equal exactly when they hold the same bytes and the second has no empty run left |
| `FreeSpace.EmptyRunBreaksComparison` | src/check.rs:824-843 | Two lists of the same bytes the comparison tells apart |
| `FreeSpace.Checker.FreeSpace` | src/check.rs:807-858 | The findings are, group by group, a record that cannot be read, or the two records not describing the same bytes, and nothing else |
| `FreeSpace.Checker.Checksums` | src/check.rs:860-881 | A checksum range is reported exactly when one of its bytes lies in no data extent |
| `Trim.TrimRanges` | src/trim.rs:61-99 | Each range lies where a copy of its logical bytes does, and each copy of each byte is discarded as many times as the groups list it free; refused for parity, and not for runs inside one chunk |
| `Trim.EachFreeCopyOnce` | src/trim.rs:61-99 | For a true free list, that is once for each copy of a free byte and never for another byte |
| `Trim.NothingAllocatedIsDiscarded` | src/trim.rs:61-99 | A discarded device byte is no allocated logical byte's image under any copy |
| `Trim.DiscardsCopyExactlyWhen` | src/trim.rs:61-99 | A byte of a superblock copy is discarded exactly when some copy of some free byte lies on one |
| `Trim.CrossingDiscarded` | src/block_group.rs:500-509 | An empty DUP group across 64 MiB on its device is such a free run |
| `Allocator.OnSuperblockCopy` | src/block_group.rs:515-535 | A range in one stripe row is reported exactly when some copy of it shares a row with a superblock copy |
| `Allocator.SuperblockRowIn` | src/block_group.rs:736-749 | Nothing is reported exactly when the whole range is clear on every copy, and otherwise the end of a row that is not |
| `Allocator.RowIsAllOrNothing` | src/block_group.rs:515-535 | All bytes of a row are clear or none is, so skipping to a row's end skips no place that would have done |
| `Allocator.FindExtentsIn` | src/block_group.rs:669-725 | Each extent chosen is sector-aligned, in a run that was free, apart from the others and clear of every superblock row on every copy; free bytes are conserved; a length is refused for room only where no clear aligned place is left; in one clear run as long as the sum, extents are packed from its start |
| `Allocator.ClearOfTheCopies` | src/block_group.rs:515-535 | So no copy of a chosen byte lies on a superblock copy |
| `Placement.PlaceStripes` | src/balance.rs:1752-1795 | The stripes chosen are allowed places, ascending and apart; none are returned only where no set of that many allowed, disjoint places exists |
| `Placement.StripeClearOfCopies` | src/balance.rs:1752-1795 | An allowed place is past the first MiB and off every superblock copy |
| `NewChunk.AllocateChunk` | src/balance.rs:853-1020 | The chunk lies after every other, on the device with the most unallocated space that has places for its copies; the map stays sound, and the chunk is clear of superblock rows throughout; refused only for want of a device or a profile it places |
| `Cut.CutRange` | src/clone.rs:670-714 | The items covered, the edits and the second halves of a cut; refused exactly where an item ends past the largest offset |
| `Cut.CutLeavesBothSides` | src/clone.rs:670-714 | Applied in key order, the cut's edits leave exactly the parts of the file's items before the range and after it |
| `Cut.CutConserves` | src/clone.rs:670-714 | Per extent and reference, what is left and what is covered name it as often as the file did and the second halves add; each second half has a first half beside it |
| `Clones.RemappedByEdits` | src/clone.rs:262-347 | The cut's edits and the clone's puts leave the destination's outer parts with the source's windowed items between |
| `Clones.RemappedReads` | src/clone.rs:507-590 | That file reads the source's bytes in the range and its own everywhere else, holes included, also when source and destination are one |
| `Extents.DropCovered` | src/clone.rs:378-427 | Refused exactly where a covered item's extent is unrecorded or disagrees; otherwise every covered item's reference is settled: released when they are all there are, dropped when others remain |
| `Extents.SettleRefs` | src/transaction.rs:589-640 | Fitting releases, drops and shares are all applied, and leave the extent tree they amount to |
| `Clone.ClonesAccountedAt` | src/clone.rs:262-347 | With a clone's releases, drops and shares applied, an extent's references are again the items naming it, over every file |
| `Reflink.CountedBytes` | src/clone.rs:728-749 | The bytes counted are those of the items as edited, or the sum overflows 64 bits |
| `Reflink.Compare` | src/clone.rs:149-172 | Piece by piece, two ranges are found the same exactly when each byte is |
| `Reflink.FileSystem.Remap` | src/clone.rs:262-370 | A remap happens exactly when the stated conditions hold and otherwise changes nothing; it changes one file, which reads the source's bytes in the range and its own elsewhere, and leaves every file's items sorted, their bytes counted and every reference count right |
| `Reflink.FileSystem.CloneRange` | src/clone.rs:94-108 | The same of a clone with its range rules: a refusal changes nothing, a zero length clones to the source's end |
| `Reflink.FileSystem.DedupeRange` | src/clone.rs:127-145 | No byte of any file changes; the destination's range is shared only when the two hold the same bytes |
| `CowPlan.PlanCowTargets` | src/cow_write.rs:1424-1601 | The targets ascend, are disjoint, cover what is written and the old last sector, each one whole item or hole sectors, none needless; each is marked shared exactly when others name its extent; refused exactly where something wanted cannot be replaced, given right counts |
| `CowPlan.NotSharedIsWhole` | src/cow_write.rs:1576-1599 | An extent not marked shared is named by the plan's items and by nothing else in any file |
| `CowWrite.CowGaps` | src/cow_write.rs:1327-1353 | The gaps are exactly the bytes of the stretch that no item covers |
| `CowWrite.HolesTrimmed` | src/cow_write.rs:1359-1408 | Where the volume records its holes, the edits of those a plan meets leave each hole's parts around the first target meeting it |
| `CowWrite.EditsLeaveWrite` | src/cow_write.rs:605-655 | The holes' edits, the gaps' holes and the copies' items, by key, leave one file: the items kept, trimmed or, with no-holes, whole unless a copy takes their key, and those recorded and copied |
| `CowWrite.WriteOverlays` | src/cow_write.rs:481-817 | That file reads the written data over the old contents and zeros past the old end, with no-holes, where explicit holes stand untrimmed, or without |
| `CowWrite.EverySectorOnce` | src/cow_write.rs:499-512 | Without no-holes, every byte up to the new end lies in exactly one item, if it did before and no hole meets two targets |
| `CowWrite.NoneTwiceUnlessHoleRunsOn` | src/cow_write.rs:1384-1385 | Where the volume records its holes, after a write no byte lies in two items if and only if no explicit hole over the file's last sector runs on into the sector the write starts in, past another sector between |
| `CowWrite.HolePastTheEnd` | src/cow_write.rs:1384-1385 | A write after which a byte lies in two items |
| `CowHoles.NoneTwiceUnlessKeyKept` | src/cow_write.rs:1368 | With no-holes, no byte lies in two items if and only if every explicit hole over a sector the write fills starts where an extent filling one does, told from the file and the write alone |
| `CowHoles.HoleLeftWhole` | src/cow_write.rs:1368 | A write on a no-holes volume after which a byte lies in two items |
| `CowHoles.NoneTwiceUnlessHoleLeft` | src/cow_write.rs:1359-1408 | On every volume, the one condition or the other |
| `CowTree.AfterOwn` | src/cow_write.rs:605-655 | No two items after a write share a key, with no-holes or without, so the tree holds them all |
| `CowCommit.DropsSettle` | src/cow_write.rs:624-673 | The releases and drops of the targets settle exactly the items moved |
| `CowCommit.WriteAccounted` | src/transaction.rs:220-271 | After a write the extent tree agrees with every file's items again, and the transaction accepts every release and drop |
| `Replace.ReplacedAccounted` | src/transaction.rs:220-271 | The same of any exchange of items for whole-extent copies: one reference dropped for each item given up, one added for each copy |
| `CowVolume.FillCopies` | src/cow_write.rs:562-588 | Each copy's buffer, read and overlaid, and cut into its extents, holds what the file is to read there |
| `CowVolume.StoredHold` | src/cow_write.rs:562-660 | Written to fresh extents, the copies hold that and change nothing any file read |
| `CowVolume.WriteCow` | src/cow_write.rs:481-817 | The write whole, on every volume, of the tree it leaves in key order: refused exactly where something it must replace cannot be; otherwise it reads as overlaid, every count is right, its items lie in order and apart exactly unless an explicit hole is left under a copy, and without no-holes every byte is then in one |
| `Defrag.RunsGood` | src/defrag.rs:114-142 | Each run is two or more adjoining movable items, no longer than the target, each shorter than it, and cannot be taken further; runs are disjoint and ascend |
| `Defrag.NoPairLeft` | src/defrag.rs:114-142 | Two neighbours that would fit in one run are never both left out |
| `Defrag.GiveUp` | src/defrag.rs:266-300 | Each old item is settled: its extent released, or its reference dropped |
| `Defrag.DefragAccounted` | src/defrag.rs:261-300 | After a defragment every reference count is right again |
| `Defrag.EditsLeaveRewrite` | src/defrag.rs:266-300 | The edits by key leave exactly the rewritten list |
| `Defrag.ReportExact` | src/defrag.rs:224-300 | The file has as many fewer items as the report says |
| `DefragVolume.FillRuns` | src/defrag.rs:244-259 | Each run's buffer, read from the file, holds what its one copy is to read |
| `DefragVolume.CheckMembers` | src/defrag.rs:416-453 | Nothing is refused exactly when no item of a run has a window outside its extent, an extent no newer than the last snapshot, or a start before its offset; otherwise the first such item is |
| `DefragVolume.Defragment` | src/defrag.rs:189-412 | The defragment whole, refused exactly for a target below a sector or such an item: every byte reads as before, the items are the rewritten list, sorted, as many as reported and of as many bytes, and every count is right; with no run nothing changes |
| `KeptFiles.CrashKeepsFiles` | src/balance.rs:580-680 | At a moment of a relocation that is kept, whatever part of the writes under way has landed, every file reads what it did before the relocation |
| `KeptFiles.CrashKeepsCounts` | src/balance.rs:580-680 | ... and every extent's count is the number of items naming it |
| `Midway.BatchFits` | src/balance.rs:769-775 | Whatever has been moved, the next batch fits in what is left of the new chunk, at the places that pack it |
| `RelocationPlan.PlanMade` | src/balance.rs:393-415 | A fresh chunk, and extents adding up to the group's used bytes, make a plan whose every batch fits |
| `Relocate.Volume.CopyExtent` | src/balance.rs:585-594 | A copy in pieces: only the place is written, and it holds the extent's bytes when all reads and writes succeed |
| `Relocate.Volume.MoveDataExtents` | src/balance.rs:580-680 | A batch always finds room; moved, each extent has its record, items and bytes at its new address; failed, everything is where it was; every moment keeps every file |
| `Relocate.Volume.RemoveBlockGroup` | src/balance.rs:1024-1108 | Only an empty group of one chunk is removed, and only it; a refusal changes nothing |
| `Relocate.Volume.RelocateBlockGroup` | src/balance.rs:393-435 | Every moment of the whole run keeps every file, each extent in one group; done, the old group is gone and all it held is in the new one, in the profile wanted; failed, the committed batches stay, and no new group if there was none; it never runs out of room or finds the old group still in use |
| `SharedRefs.Collect` | src/balance.rs:1403-1470 | An extent's references are read out exactly when they are data references, name each shared parent once, and add up to the record's count |
| `SharedRefs.FindKeyed` | src/balance.rs:1472-1514 | Each item the references name is listed once, and refused exactly where one names another number of items than it counts |
| `ExpandRefs.AllLeaves` | src/balance.rs:1515-1597 | Each item of each shared leaf is listed once for every tree that shares the leaf, and counted for each; refused exactly where a leaf does not hold as many as its reference counts, or an item starts before its extent |
| `ItemsNaming.WriteBack` | src/balance.rs:1606-1678 | The expanded counts are written into the record or into references of their own, each name's count the old one and its share; a hash another name holds is refused, and only that or an overflow |
| `ItemsNaming.FileItemsNaming` | src/balance.rs:1402-1684 | The items listed are exactly those named, once each, and the new record counts its inline, kept and expanded references, each name's being its own and the shared leaves' |
| `ItemsNaming.ListedAgainstCounted` | src/balance.rs:1576-1587 | A name's items are never more than its new count, and are as many exactly where no item is named both by a reference of its own and by a shared leaf, or by two references |
| `ItemsNaming.ListedOnceCountedTwice` | src/balance.rs:1576-1587 | A record that adds up whose one item is listed once and counted twice |
| `Backref.EncodeDecoded` | src/backref.rs:152-222 | A record read and rebuilt is the bytes it was read from |
| `Backref.DecodeEncoded` | src/backref.rs:152-222 | Every record that fits is read back from its bytes |
| `Backref.EarlyStopFinds` | src/backref.rs:478-583 | On an ordered list the scan that stops early finds a reference exactly when the list has it |
| `Backref.AddInlineDataRef` | src/backref.rs:511-583 | The bytes of an added reference parse to the specified list; refused exactly where the bytes do not parse or a count is at its limit |
| `Backref.DropInlineDataRef` | src/backref.rs:344-383 | The same of a drop, with the last reference refused and an absent one reported |
| `Backref.AddDataKeeps` | src/backref.rs:511-583 | An add keeps the order of the list and its total equal to its counts |
| `Backref.DropDataKeeps` | src/backref.rs:344-383 | So does a drop |
| `Backref.SharedEditsKeep` | src/backref.rs:641-691 | So does adding a shared reference, and taking one moves its count out |
| `Backref.TreeEditsKeep` | src/backref.rs:612-723 | So do adding and dropping a tree's reference |
| `Backref.KeyedDataKeeps` | src/backref.rs:260-332 | So does writing back a data reference whose count was taken |
| `Backref.EditsParseBack` | src/backref.rs:231-332 | The list each of these leaves can be written and read back |
| `Backref.SameBytesAnyOrder` | src/backref.rs:511-583 | Any number of data references with different hashes leave the same bytes in any order, and one order is refused exactly when another is |
| `Backref.DropGivesBytesBack` | src/backref.rs:344-383 | Dropping what was added gives the item's bytes back |
| `BTree.DescendPath` | src/btree.rs:951-986 | On a well-formed tree the blocks of the path; on any blocks at all, at most eight, ending in a leaf |
| `BTree.LeafInPlace` | src/btree.rs:680-690 | The leaf a descent ends in is the stretch of the items in order around the key |
| `BTree.Search` | src/btree.rs:993-1013 | Search is lookup among the items in order |
| `BTree.WalkState.Walk` | src/btree.rs:1078-1159 | A walk hands the visitor exactly the items at or after the start, in order, until it wants no more; on any blocks at all it ends, having read each at most once |
| `BTree.ForEachFrom` | src/btree.rs:1062-1070 | The same from the root |
| `BTree.FindAll` | src/btree.rs:1022-1041 | Exactly the items of one object and type, in order |
| `Csum.DigestsForRange` | src/csum.rs:85-144 | The map of digests is the flat one restricted to the range, exactly unless the leaf the search ends in begins after the start and the item before that leaf says something of the range |
| `Csum.ReleaseEdits` | src/cow_write.rs:1687-1797 | The edits leave an ordered tree that says what it said of every sector not released, and nothing of those released |
| `Csum.WriteCsums` | src/cow_write.rs:1687-1797 | ... and each copy's digests beside, in order; refused exactly where the space was not fresh |
| `Csum.MoveCsums` | src/cow_write.rs:1804-1866 | Exactly the moved sectors' digests are under their new addresses, every other unchanged, the tree in order; refused exactly where a new address had digests |
| `CsumDescent.SearchesEndAround` | src/btree.rs:951-986 | On every stored, well-formed checksum tree the leaf a search ends in is a stretch of the items around the sector, which is all a lookup asks |
| `CsumDescent.SearchesDescend` | src/csum.rs:85-144 | Where each pointer's key is its child's first, the search ends at the last item at or before the sector, for every sector |
| `CsumDescent.SteppedOver` | src/csum.rs:85-144 | A searchable tree with one looser pointer, whose digest for a sector a lookup there steps over |
| `Lzo.CompressLzo` | src/compression.rs:308-328 | The total, and each segment behind its length, padded where a header would not fit in the sector; refused where a segment or the total is too long |
| `Lzo.DecompressLzo` | src/compression.rs:386-448 | The segments read back by those lengths, or the error met first |
| `Lzo.RoundTripsExactlyWhen` | src/compression.rs:308-448 | For every lossless codec and every input, also with padding after, decompression gives the input back if and only if the sector is four bytes or at least eight |
| `Lzo.FirstHeaderStraddles` | src/compression.rs:308-328 | Between five and seven it does not |
| `Lzo.HeadersHoldLengths` | src/compression.rs:308-328 | At each header of the output stands its segment's length, and where the first does not cross a sector's end none does |

## Findings

Where the code does not have, on every input, a property its surroundings rely on: what
it does, an input that shows it, what is intended, and the theorems that show the input
and say exactly when the property holds.

| locator | as written | input | intended, and exactly when it holds | proved by |
|---|---|---|---|---|
| src/cow_write.rs:1384-1385 | The edits of an explicit hole cut it around the first copied run alone | a file of 100 bytes in one explicit hole of eight 4096-byte sectors, one byte written at 20480: the first sector and the sixth are copied, and the hole still lies over the sixth | After a write no byte lies in two items. On a volume that records its holes it holds unless an explicit hole over the file's last sector reaches past the start of the write's first sector, the old end being inside a sector and a whole sector lying between | `CowWrite.HolePastTheEnd`, `CowWrite.NoneTwiceUnlessHoleRunsOn` |
| src/cow_write.rs:1368 | On a volume with no-holes the explicit holes a write meets are not edited at all, though such a volume may hold some (src/fallocate.rs:752, src/clone.rs:551) | a file of one explicit hole of eight 4096-byte sectors, the second written: the hole still lies over it | After a write no byte lies in two items. On a no-holes volume it holds when every explicit hole lying over a sector the write fills starts where one of the extents that fill it does, as its key is then replaced | `CowHoles.HoleLeftWhole`, `CowHoles.NoneTwiceUnlessKeyKept` |
| src/commit.rs:438-439 | The new superblock is built from the copy at the first offset, whichever copy was mounted | two copies, the commit before cut off with the second landed and not the first: the next commit puts the first copy's old `bytes_used` back | A commit leaves every field it does not set as mounted. It holds when the first copy agrees with the mounted one on those fields, and over every run when superblock writes land in order | `Commit.StaleFirstCopyLosesAField`, `Commit.ImageKeepsFields`, `Commit.NoFieldLost` |
| src/compression.rs:308-328 | No padding is written after the total, while the decoder skips as if it had been | one byte at a sector size of 5, 6 or 7 | What is compressed decompresses to the input. It holds when the sector is 4 bytes or at least 8, as it is on every volume | `Lzo.FirstHeaderStraddles`, `Lzo.RoundTripsExactlyWhen` |
| src/balance.rs:1576-1587 | An item already listed is not listed again, but is counted again | one item in one tree, named by an inline data reference and by its leaf's shared reference: listed once, counted twice | The items re-pointed are as many as the new references count. It holds of a name when none of its items has both a reference of its own and a shared leaf's, or two references | `ItemsNaming.ListedOnceCountedTwice`, `ItemsNaming.ListedAgainstCounted` |
| src/chunk.rs:662-738 | A striped address is mapped whatever the chunk's length | any chunk of RAID0 or RAID10 over several columns whose length is not whole rows, at the last byte its last row puts on the first stripe, which the run mapped from that row's first byte reaches | A mapping stays inside the device extents the checker expects (src/check.rs:755-762). It holds when the length is a multiple of the columns times the stripe length | `ChunkMap.RaggedRowsEscape`, `ChunkMap.StripesContainedIffWholeRows` |
| src/trim.rs:61-99 | Every free run is discarded on every copy; the extent tree the runs come from does not record the superblock copies (src/block_group.rs:507-508) | an empty DUP group of 64 MiB with a stripe at 32 MiB of its device: its trim discards the superblock copy at 64 MiB | A trim leaves the superblock copies alone. It holds exactly when no copy of a free byte lies on one | `Trim.CrossingDiscarded`, `Trim.DiscardsCopyExactlyWhen` |
| src/csum.rs:85-144 | The walk starts at the last item at or before the range in the leaf its descent ends in, or at the range's own start | two leaves, the second pointed at by a key one sector on from the first item and before its own: the first item's second digest is not found | The digests found are all the tree holds for the range. It holds unless that leaf begins after the start and the item before it says something of the range; never where each pointer's key is its child's first | `CsumDescent.SteppedOver`, `Csum.DigestsForRange`, `CsumDescent.SearchesDescend` |
| src/block_group.rs:398-404 | A run still open at the last bit is ended at the item's end | an item of 6000 bytes in 4096-byte sectors with its one bit set: the run goes on over 1904 bytes no bit speaks for | A decoded bitmap holds exactly its set bits' sectors. It holds when the length is whole sectors, or less than one, or the last bit is clear | `FreeSpace.LastSectorOverruns`, `FreeSpace.BitmapExactIff` |
| src/check.rs:824-843 | Two merged lists of runs are compared item by item | a list with an empty run away from the others, against the list without it | The comparison is equality of the bytes the lists hold. It holds when the merged free-space list has no empty run left; the extent tree's gaps never have one | `FreeSpace.EmptyRunBreaksComparison`, `FreeSpace.ComparisonIsByteEquality` |

## Left out

- Commits over several devices: one device's blocks and superblock copies; pools, sprouting and device removal are not modelled.
- Tree-block mirrors, a damaged copy at the first offset, backup roots and superblock fields other than those listed: the superblock is the fields a commit changes.
- `relocate_block_group` for metadata and system groups, for a leaving device, and its log, snapshot and mixed-group refusals: data groups only.
- `Relocate.Volume.MoveDataExtents`: an extent's record keeps its items and count under the new address; the expansion of its shared references is `ItemsNaming.FileItemsNaming` and the move of its digests `Csum.MoveCsums`, proved beside it and not inside its commit.
- `Relocate.Volume.CopyExtent`: a read gives the bytes or fails; mirror retries and digest verification of what is read are not modelled.
- `Relocate.Volume.RelocateBlockGroup`: requires a valid volume whose last chunk ends on a sector and room below 2^64 for one more chunk; devices' `bytes_used` counters and free-space tree edits are not modelled.
- `NewChunk.AllocateChunk`: placing takes single and DUP chunks as the code does; the saturating 64-bit arithmetic of `Placement.PlaceStripes` is unbounded here, so devices are at most 2^64 bytes.
- `Allocator.OnSuperblockCopy`: requires that a chunk's stripes on one device start at the same place in a row, as the stripes of chunks made in whole rows do.
- `Allocator.SuperblockRowIn`: requires the same.
- `Allocator.FindExtentsIn`: requires the same, of every chunk; the groups that are writable and not on a leaving device are taken as given, as one list of free runs.
- `CsumDescent.SearchesDescend`: requires that each pointer's key is its child's first, which a reader does not check; `Csum.ReleaseEdits`, `Csum.WriteCsums` and `Csum.MoveCsums` take their searches to end as it says.
- `CowPlan.PlanCowTargets`: inline data to be moved into an extent, and leaves shared with a snapshot, are not modelled.
- `Commit.NoFieldLost`: takes superblock writes to land in the order issued; `Commit.EveryMountIsOldOrNew` does not.
- Inline file data: clone and copy-on-write refuse or exclude it as stated; moving it into an extent is not modelled.
- `CowVolume.WriteCow`: takes no inline items and whole-sector items as the planner's callers do; writes through preallocated items, growing into preallocation, compressed copies, `nbytes`, the inode item and item-size limits are not modelled.
- `Reflink.FileSystem.Remap`: inode flags, verity, no-holes refusals and leaves shared with snapshots are not modelled; an extent's references are the items naming it.
- `Reflink.FileSystem.DedupeRange`: requires a destination that ends more than a sector below 2^64; file sizes are at most 2^63 - 1.
- `Defrag.RunsGood`: takes no empty item; which items may move is a flag of each item, movable.
- `DefragVolume.Defragment`: each extent's generation and the last snapshot's are given; the refusal of what is not a regular file, and of a leaf shared with a snapshot, are not modelled.
- `Csum.WriteCsums`: the order of the tree is stated for items and copies at sector addresses; digests' byte alignment in an item, and how the cap on an item's digests is reached, are not modelled.
- `Backref.DropGivesBytesBack`: of a record whose references so named count at least one, as every record written does.
- `ItemsNaming.WriteBack`: stops at an overflow or a taken hash, whichever comes first, so a clash behind an overflow is reported as the overflow.
- `BTree.WalkState.Walk`: the visitor does not fail; block parsing, checksums, caches and mirrors are the map of blocks.
- RAID5 and RAID6 placement and rebuild; the LZO1X, zlib and zstd codecs; digests and the data-reference hash.
- The rest of the checker, send, logs, subvolumes, namespaces, inodes, mkfs, the command line and the C interface.
