# A model of the littlefs engine

littlefs keeps a file system on a device of erasable blocks so that losing power at any
moment does no harm. This project models the engine of version 2.1, `src/lfs/lfs.c` with its
helpers `src/lfs/lfs_util.c` and `src/lfs/lfs_util.h`, and proves what its parts are for. It
assumes an honest device, the checks of `lfs_init`, and the configuration of
`src/vfs_lfs.c:46-57`, where `block_cycles` is -1 and nothing is ever relocated.

Directories are logs of tagged attributes, kept in pairs of blocks.

- `Tags`, `Words`, `Util` and `Crc` hold the 32-bit tags, word operations, the arithmetic helpers
  (alignment, bit counts) and the checksum.
- `Log` says what a log means: replaying it gives a sequence of entries, each the list of the
  writes made to it. Everything about directories is stated against `Log.Replay`.
- `Lookup` walks a log backwards for one attribute; `Search` walks it forwards for a name.
- `Compaction` is the theory of the redundancy filter, `Traverse` the traversal that applies
  it, `Split` the compaction that spreads a directory over several pairs.
- `Block` gives the bytes of a log, the forward scan and the backward walk over them; `Committing`
  writes them, with the padding and reset bits of the checksum tags; `Metadata` fetches a block
  and appends to it; `Crash` is about blocks torn by losing power, `Erased` about what a fetch
  takes to be erased in them.
- `Gstate` is the algebra of the global state, spread over all directories by exclusive or, and
  its records in a log; `FileSystem` is the thread of directories, as pairs and logs, with the
  state in memory, and what mounting, committing and dropping do to both.
- `Threads` has the law of the thread: every tail names the pair that comes next, and the last one
  names none. `Appending` takes a commit on the logs down to the bytes of a block.
- `Rename` is the move of a file on those logs, with its crash points and recovery. `Orphans` is
  the theory of threaded and referred directories, `Directories` applies it to mkdir, remove and
  deorphan on the logs, `Replacing` to a rename in the place of a directory; `Entries` says what
  mkdir, remove and dropping leave in every directory. `Formatting` is the device that all of them
  begin with, `Threading` the law of the thread for all of them, and
  `Laid` says that what they commit can be laid out. `Attributes` is about user attributes, and
  `Losses` has the examples in which the global state or a file is lost.

Files are copy-on-write skip lists of blocks. `CtzIndex` is the arithmetic of positions,
`CtzList` the lists, `Files` the read, write, flush and seek of a file on top of them. `Tree` is
the traversal of all blocks in use, by directories, files and open files, and `Alloc` the block
allocator that relies on it. Below are the read and program caches, `Caches`.

Code that changes state in place is modelled by classes and loops, proved against functions on
values; everything else by functions and lemmas. A log in `Lookup`, `Search` and `Traverse` is
a sequence of attributes. `Block.ScanFindsHistory` and `Block.WalkIsReversedLog` say that a fetch
and the backward walk yield exactly that sequence; the forward walk also meets the checksum tags,
one after each segment, and `Forward.WalkIsSealedLog` says so. `Forward.Gather` and
`Metadata.Mdir.Compact` carry the theorem about traversals down to the bytes.

## What the model found

Eleven statements one might expect do not hold of the code. For each there is an input, and the
exact condition under which the code does what it should is proved.

- While a move is pending on a pair, `lfs_dir_getslice` adjusts ids at or below the moved id,
  where ids at or above it would have to be adjusted (lines 503-507). A lookup that tells entries
  apart is right if and only if it is for the moved id itself or past the end:
  `Lookup.PendingMoveShift`, with `Lookup.WrongWhileMoving` as an example.
- In consequence the block traversal during a pending move passes over the first entry of that
  directory. It reports exactly what is used if and only if every block of that entry's file is
  used by something else as well: `Tree.ReportedExactly`, with `Tree.FirstFileMissed` as an
  example.
- `lfs_ctz_index` corrects its first guess once, and on small blocks by one block too many or
  too few: `CtzIndex.IndexRight` has the condition, `CtzIndex.CrookedPosition` a block size that
  `lfs_init` accepts and a position it gets wrong. From 144 bytes on every position is right.
- The size check before splitting a directory leaves room for the rest of the commit exactly
  when half a block, rounded up to a program unit, is at least 40 bytes short of a block:
  `Split.RoomAfterSizeCheck`, with `Split.NoRoomInWholeUnits` as an example.
- A fetch may take the rest of a torn block to be erased although its first byte was programmed
  (lines 818-824): of a torn append it is right if and only if the next word is invalid,
  `Erased.TornIsJudged`. With program units of four bytes or more it always is,
  `Erased.ErasedIsErased`; `Erased.TornByte` is an example in units of one byte.
- A commit that falls back to compaction because the record of the global state is what lacks
  room has by then folded the directory's delta into the global delta, and the compaction folds
  it in again (lines 1755-1769 and 1522). When it succeeds, the global state survives exactly when
  that delta was zero: `FileSystem.Fs.DirCommit`, with `Losses.DoubledDelta` as an example.
- A commit that fails may already have changed the global delta, and nothing takes that back. The
  global state survives if and only if four terms cancel: the move the commit was to finish, the
  directory's own delta once or twice, and what went into pairs that are given up:
  `FileSystem.FailureConserves`.
- `lfs_mkdir` writes the global delta into the new directory before anything refers to it. When
  the commit that links it fails, the global state survives if and only if what the new directory
  has taken is what the failure itself puts into the delta: `Directories.MkdirFails`. In
  `Losses.LostDelta` there is nothing to take, and the state is lost all the same.
- A commit that empties and drops a directory on which a move is pending finishes the move on
  the device but not in memory (lines 1705-1726), and the two are off by exactly that move:
  `FileSystem.Fs.CommitEmptied`, with `Losses.LeftoverMove` as an example. A rename ends like that
  if and only if the old entry was the only one of a pair that is not the first of its directory:
  `Rename.Rename`.
- A rename whose first commit fails does not take back the move that it has prepared (lines
  3231-3252). The next commit to the old directory deletes the entry, though there is no new one:
  `Rename.FailedRename` and `Rename.StaleMove`, with `Losses.LostFile` as an example.
- Renaming an entry onto itself within a directory deletes it: `Rename.OntoItself`. Every other
  rename within a directory deletes exactly the old entry: `Rename.SameDirectory`.

Two more remarks do no harm. `lfs_mount` reduces the allocator's starting offset by the block
size, where the block count was meant (line 3698); the first refill reduces it again, and
`Alloc.Allocator.Mount` starts from the code's offset. A read with a hint of zero at a read
boundary would load nothing and make no progress, but no caller passes such a hint:
`Caches.Bd.Load`.

## Model

| member | source | states |
|---|---|---|
| Tags.UnpackPack | src/lfs/lfs.c:265-303 | A tag packed into a word is valid and comes apart into the same type, id and size, also when the validity bit is flipped. |
| Tags.PackUnpack | src/lfs/lfs.c:265-298 | Conversely the fields of any word pack back into that word, up to the validity bit. |
| Tags.NullWordFields | src/lfs/lfs.c:815-822 | The all-ones word that stands before the first tag takes up four bytes, so the first tag is read right after the revision count. |
| Tags.ToBeFromBe | src/lfs/lfs_util.h:178-199 | Big-endian bytes and words are inverse to each other (bytes to word to bytes). |
| Tags.ToLeFromLe | src/lfs/lfs_util.h:154-175 | The same for little-endian bytes. |
| Log.ReplayConcat | src/lfs/lfs.c:886-915 | Replaying a log and then more attributes is replaying the concatenation: CREATE inserts, DELETE removes, a name past the end extends. |
| Log.ApplySplice | src/lfs/lfs.c:522-533 | At or above a splice, entries move by exactly one id; a CREATE leaves an unnamed entry at its own. |
| Log.ApplyElsewhere | src/lfs/lfs.c:522-533 | Below a splice entries stay, and so do those that a write is not for. |
| Log.NamesComeFirst | src/lfs/lfs.c:1901-1907 | In a well-formed log the first write of every entry is its name and no later one is. |
| Lookup.Get | src/lfs/lfs.c:496-555 | The backward walk with its running id shift returns the newest attribute of the entry now at that id, and nothing exactly when replay says it is absent or deleted. The buffer has the payload as far as there is room, byte for byte, and zeros behind it. |
| Lookup.SameIsMasked | src/lfs/lfs.c:496-536 | Types are the same for a lookup if and only if they agree in the bits 0x700, 0x780 or 0x7ff of the mask. |
| Lookup.NewestMatch | src/lfs/lfs.c:530-540 | What replay says is the newest write of the entry that agrees under the mask, unless that is a deletion. |
| Lookup.PendingMoveLookup | src/lfs/lfs.c:503-507 | What a lookup ought to see while a move is pending: the directory with the moved entry deleted, so ids from the moved one on are one further up. |
| Lookup.PendingMoveShift | src/lfs/lfs.c:503-507 | The code's comparison shifts the wrong ids: on entries that the lookup tells apart it finds what is in the directory without the moved entry if and only if the id is that of the moved entry or past the end. |
| Lookup.WrongWhileMoving | src/lfs/lfs.c:503-507 | An example: with the second of two files on the move, the lookup of the first one's name gives the second one's. |
| Search.SortedIsDistinct | src/lfs/lfs.c:952-963 | In a sorted directory lookups of names are told apart, so the condition of `Lookup.PendingMoveShift` is exact there. |
| Compaction.SameKeyIsKey | src/lfs/lfs.c:630-637 | The mask that the redundancy filter picks compares tags exactly by what they replace: kind for names, structs, splices and tails, full type otherwise. |
| Compaction.KeptAgrees | src/lfs/lfs.c:625-651 | The attributes the filter keeps have, for every entry and key, the same newest value as replaying everything. |
| Compaction.ReplayPlain | src/lfs/lfs.c:886-915 | A list without splices in which names come first is a well-formed log of its own and replays to what can be read off it directly. |
| Compaction.CompactionPreserves | src/lfs/lfs.c:625-752 | Compacting the ids [begin, end) of any settled log yields a settled log whose entries are exactly those entries, renumbered from zero, with the same newest value for every key. |
| Traverse.ScanGroup | src/lfs/lfs.c:625-651 | The filter callback over attributes with one id: dropped, or kept with the id it has after later splices. |
| Traverse.Scan | src/lfs/lfs.c:701-713 | The inner traversal that decides the fate of one tag agrees with the specification of the filter over everything that comes later. |
| Traverse.ExpandElement | src/lfs/lfs.c:722-745 | A FROM_MOVE stands for the newest structs and user attributes of the source entry, a FROM_USERATTRS for its list. |
| Traverse.Traversal | src/lfs/lfs.c:653-752 | One traversal over log, attribute list and pending move emits exactly the surviving attributes of the id range, renumbered, in order. That the log is what the forward walk meets in the block is `Forward.WalkIsSealedLog`. |
| Traverse.SealedHasNoMarkers | src/lfs/lfs.c:640-643 | On disk, where a checksum tag follows everything, no delete marker survives a traversal. |
| Forward.WalkIsSealedLog | src/lfs/lfs.c:659-679 | The forward walk over the bytes of a block, from the revision count to where a fetch ended, meets exactly the committed attributes, with a checksum tag after each segment. |
| Forward.ReadLog | src/lfs/lfs.c:659-679 | The loop that reads tag after tag computes that walk. |
| Forward.SealedReplays | src/lfs/lfs.c:659-679 | The log with its checksum tags replays to the same entries as without them, is as well-formed, and ends in a checksum tag. |
| Forward.CommittedIsLegal | src/lfs/lfs.c:722-733 | A block that holds at least one commit is a legal source of a move. |
| Forward.Gather | src/lfs/lfs.c:653-752 | Traversing a block and the attributes to be committed yields attributes that can be laid out, form a settled log, and replay to the range of the entries of the block's log followed by the attributes. |
| Split.RoomAfterSizeCheck | src/lfs/lfs.c:1439-1470 | Every commit that passes the size check has room for header, tail, global state and checksum if and only if half a block, rounded up to a program unit, is at least 40 bytes short of a block. |
| Split.NoRoomInWholeUnits | src/lfs/lfs.c:1450-1453 | A block of 512 bytes that is one program unit, which the assertions admit, and 476 bytes of attributes pass the check without having room. |
| Split.GatheredIsRange | src/lfs/lfs.c:1559-1566 | What a traversal gathers from an id range is a settled log that replays to that range. |
| Split.Store.Write | src/lfs/lfs.c:1517-1625 | The directory's own part of the global state is fed into the delta; writing fails exactly when attributes, tail, state and checksum do not fit, and the delta then keeps what was fed; otherwise the pair holds the attributes and the given tail, its record of the global state is exactly the fed delta, and no other pair changes. |
| Split.Store.SplitUpper | src/lfs/lfs.c:1376-1406 | The upper half goes to a fresh pair that continues where the directory continued. Whether that succeeds, how many pairs it takes and what becomes of the global delta, in success and failure, follow from the sizes of the entries, the pairs left and the delta alone. |
| Split.Store.SplitLoop | src/lfs/lfs.c:1434-1476 | Splitting until it fits leaves a lower range and a hard-tail chain that together are the whole range, with what the chain took from the global delta in its records. Success, pairs taken and the delta left, also by a failure, follow from sizes, pairs and delta. |
| Split.Store.Compact | src/lfs/lfs.c:1426-1662 | After a compaction with any number of splits the chain of hard tails concatenates to exactly the entries of the range; when it fails, every pair in use keeps its log. Success, the pairs taken and the delta left behind, also by a failure, are a function of the sizes, the pairs, the delta and the directory's own delta. It succeeds when every entry has room in a pair of its own, there are pairs for all but one of them, and the block size passes `Split.RoomAfterSizeCheck`; then the global state is conserved over the chain. |
| Split.PackingDelta | src/lfs/lfs.c:1426-1662 | What a failed compaction leaves in the delta: what there was to write, or nothing of it once some pair was written, with the directory's own delta if it got as far as writing the directory itself. One that succeeds leaves nothing. |
| Split.SmallPacking | src/lfs/lfs.c:1434-1476 | A fresh pair that cannot take a range of at most a block less 36 bytes has written nothing and left the delta as it was: so where the splitting is given up and everything goes into one block after all (lines 1465-1467), nothing has been lost to the pairs tried. |
| Split.NoneUnused | src/lfs/lfs.c:1426-1662 | Without an unused pair everything goes into one block or nothing is written; the directory's own delta is folded in unless there are several entries, too big for one block. |
| Split.EnoughSucceeds | src/lfs/lfs.c:1426-1662 | With room for every entry in a pair of its own, and pairs for all but one, a compaction succeeds and leaves no delta. |
| Search.CompareNames | src/lfs/lfs.c:1041-1063 | The name on disk is less if and only if at the first place where the two differ it has the smaller byte or the searched name has ended, and greater the other way round: the end of a name sorts after every byte. |
| Search.CompareTrans | src/lfs/lfs.c:1041-1063 | That order is transitive (with CompareEq and CompareFlip: a strict total order). |
| Search.PositionSplits | src/lfs/lfs.c:952-963 | In a sorted directory everything before the position searched for is less than the name and everything after it is greater. |
| Search.InsertKeepsSorted | src/lfs/lfs.c:952-963 | Creating the entry at that position keeps the directory sorted. |
| Search.TrackStep | src/lfs/lfs.c:886-936 | Each attribute keeps the best match what it is meant to be: the first entry not less than the name, through creates, deletes and names. |
| Search.FindMatch | src/lfs/lfs.c:754-974 | The one-pass search returns the matching entry's current id, or the id at which creating it keeps the order. With a pending move it returns the match in the directory without the moved entry, or the place for it there, which is one too far exactly when the search ends past the end. |
| Search.CountStep | src/lfs/lfs.c:887-894 | The running count equals the number of entries replayed so far. |
| Search.CreateStaysOrderly | src/lfs/lfs.c:1899-1912 | CREATE and a name at the id searched for leave a log on which the search stays correct. |
| Search.DeleteStaysOrderly | src/lfs/lfs.c:3131-3135 | So does deleting any entry. |
| Search.CompactedIsOrderly | src/lfs/lfs.c:1559-1566 | So does a compaction, from its first tag on. |
| Search.FindName | src/lfs/lfs.c:1158-1185 | Searching pair after pair of a chain of hard tails finds the name if and only if the directory as a whole has it, and else ends at the pair and id at which creating it keeps the whole directory sorted. |
| Crc.Compute | src/lfs/lfs_util.c:14-30 | The nibble-table loop computes the bit-serial reflected CRC-32 with the polynomial of section 3.2.9 of IEEE Std 802.3, without final inversion. |
| Crc.TableIsShift | src/lfs/lfs_util.c:15-26 | One table lookup is four steps of the shift register, for every register value. |
| Crc.CrcConcat | src/lfs/lfs_util.c:24-27 | The checksum of a concatenation is the checksum of the second part started from that of the first. |
| Crc.Residue | src/lfs/lfs.c:1290-1311 | Data followed by its own checksum, least significant byte first, checks to zero. |
| Crc.CrcInjective | src/lfs/lfs_util.c:14-30 | From different registers the same data leads to different checksums. |
| Crc.WindowDetected | src/lfs/lfs_util.c:14-30 | Two inputs of equal length that differ only inside one window of four bytes have different checksums. |
| Util.AlignUp | src/lfs/lfs_util.h:102-108 | The result is the multiple of the alignment in [a, a + alignment). |
| Util.AlignUpWithin | src/lfs/lfs_util.h:106-108 | Rounding up stays within a limit that is itself aligned. |
| Util.Npw2IsBitLength | src/lfs/lfs_util.h:111-124 | The cascade of comparisons and shifts gives an exponent k with a <= 2^k, for every word; it is the least one, 2^(k-1) < a, if and only if a is at least 2. |
| Util.PopcStep | src/lfs/lfs_util.h:128-147 | Popc(n) + Ctz(n) = Popc(n - 1) + 1. |
| Util.CtzAfterJump | src/lfs/lfs.c:2142-2157 | Following a pointer at the last set bit makes the number of trailing zeros rise; following a shorter one makes it equal to the length of the jump. |
| Block.StepItem | src/lfs/lfs.c:815-886 | The scan takes an attribute off the block as it was laid out: tag, payload and running checksum. |
| Block.StepSegment | src/lfs/lfs.c:838-879 | The scan takes a checksum tag with the right checksum, skips its padding and applies its reset bit. |
| Block.ScanFindsHistory | src/lfs/lfs.c:802-938 | A fetch of a block that holds a history of commits followed by a word that decodes as invalid finds all of them: offset, last tag and log. |
| Block.HoldsFrame | src/lfs/lfs.c:802-938 | What has been committed depends only on the bytes before its end. |
| Block.WalkIsReversedLog | src/lfs/lfs.c:496-555 | The backward tag walk from the offset and tag a fetch ends with meets exactly the forward list of attributes, reversed, and stops at the revision count. |
| Crash.TornItems | src/lfs/lfs.c:1191-1234 | A tear within the attributes of a commit leaves what was found before it. |
| Crash.TornSeals | src/lfs/lfs.c:1236-1280 | Once one checksum of a commit is in place a tear in the padding tags after it does not lose the commit: the reset bit makes whatever lies there invalid. |
| Crash.TornCommit | src/lfs/lfs.c:1191-1280 | A block programmed up to any byte of a commit yields the log of before or the log of after, decided by the commit's first checksum. |
| Crash.UntornIsClean | src/lfs/lfs.c:1236-1280 | In a block that is not torn no checksum matches by accident, so what the atomicity theorems demand can be met. |
| Crash.NewerNext | src/lfs/lfs_util.h:149-151 | Under sequence comparison the next revision is newer, also across the wrap-around of the count. |
| Crash.AppendIsAtomic | src/lfs/lfs.c:1728-1787 | Power lost at any byte of an append: fetching the pair yields the state before or after it and nothing else, provided no unprogrammed checksum matches by accident. |
| Crash.CompactionIsAtomic | src/lfs/lfs.c:1528-1618 | Power lost at any byte of the programming of a compaction, once the erase is done: the same, by the revision comparison and the fallback to the other block. The current block may itself have been torn by an earlier append. |
| Crash.EraseIsAtomic | src/lfs/lfs.c:1517-1526 | Power lost in the middle of the erase before that, whatever bytes it has left: the current log is found, as long as the old revision count is intact, or none of the checksums left matches by accident. |
| Crash.DamagedRevision | src/lfs/lfs.c:1517-1526 | A damaged revision count alone is never an accident: the first checksum of the block covers it, and nothing is found. |
| Erased.TornIsJudged | src/lfs/lfs.c:818-824 | Power lost at any byte of an append: if the next fetch takes the rest of the block to be erased, nothing after the offset it found was programmed if and only if the next word is invalid; otherwise that word was programmed in part and claims more bytes than there are. |
| Erased.TornWord | src/lfs/lfs.c:818-824 | When a part of the next word was programmed, the fetch takes the rest to be erased if and only if that word, as it is then, claims more bytes than there are and the commits end at a program unit. |
| Erased.ErasedIsErased | src/lfs/lfs.c:818-824 | With program units of four bytes or more what is taken to be erased has not been programmed. |
| Erased.TornByte | src/lfs/lfs.c:818-824 | An example in units of one byte: one byte of the next tag has been programmed, and the fetch takes it to be erased. |
| Committing.NextOffBounds | src/lfs/lfs.c:1246-1252 | Each checksum tag has room for its checksum, its size is at most 0x3fe, and what is left before the end is nothing or room for another; it goes as far as that allows. |
| Committing.ResetBit | src/lfs/lfs.c:1254-1265 | The reset bit makes the word after the tag invalid whatever the erased bytes are. |
| Committing.PaddingStep | src/lfs/lfs.c:1244-1281 | One more checksum tag extends the sealed part and touches nothing else. |
| Committing.SegmentResidue | src/lfs/lfs.c:1290-1311 | Every sealed segment checks to zero. |
| Committing.Writer.Append | src/lfs/lfs.c:1728-1739 | Appending starts at the end of the history, with its last tag. |
| Committing.Writer.Compact | src/lfs/lfs.c:1528-1556 | Compacting starts with the revision count, under its checksum. |
| Committing.Writer.Attr | src/lfs/lfs.c:1191-1234 | An attribute is added exactly when it ends within the commit's limit, and nothing before or after it changes. |
| Committing.Writer.Pad | src/lfs/lfs.c:1244-1281 | One round of the padding loop. |
| Committing.Writer.Seal | src/lfs/lfs.c:1236-1320 | The padding ends exactly at the aligned end, the block then holds one more commit with exactly the attributes given, the word after it is invalid, and the read-back succeeds. |
| Committing.Writer.Verify | src/lfs/lfs.c:1289-1317 | The verification recomputes the same segment boundaries and finds every segment good. |
| Metadata.CountIsReplay | src/lfs/lfs.c:887-894 | On a well-formed log the sixteen-bit count of a fetch is the number of entries. |
| Metadata.FetchBlock | src/lfs/lfs.c:808-938 | The scanning loop of a fetch returns offset, tag, count, tail and erased state of what the block holds. |
| Metadata.Fetch | src/lfs/lfs.c:754-974 | A fetch takes the newer block if it holds a commit, else the other, else reports corruption. |
| Metadata.WriteAll | src/lfs/lfs.c:1741-1752 | Attributes are programmed one after the other, exactly when all of them fit; the bytes before them and behind them stay. |
| Metadata.CompactInto | src/lfs/lfs.c:1528-1615 | Rewriting an erased block succeeds exactly when it fits; the block then holds one commit of exactly these attributes under the given revision, and nothing after it, which is what `Crash.CompactionIsAtomic` takes, and a fetch finds it. |
| Metadata.Mdir.Compact | src/lfs/lfs.c:1528-1615 | Compacting from block to block: what one commit of the other block replays to is exactly the range of the entries of this block's log followed by the attributes, renumbered, with the same newest values; it succeeds exactly when that fits, and this block stays as it is. |
| Metadata.Mdir.Tally | src/lfs/lfs.c:1683-1703 | Counting creates, deletes and tails before the commit gives what a fetch will find after it. |
| Metadata.Mdir.Append | src/lfs/lfs.c:1728-1752 | A commit of expanded attributes is appended exactly when it fits; then offset, tag, count and tail in memory equal what a fresh fetch of the block reconstructs; when it does not fit, what was committed is still there. |
| CtzIndex.StartFormula | src/lfs/lfs.c:2116-2127 | Block n of a file starts at n*(block_size-8) + 8 + 4*popc(n-1), by the sum of all pointers before it. |
| CtzIndex.LocatedOnce | src/lfs/lfs.c:2116-2127 | A position lies in one block at one offset. |
| CtzIndex.AcceptedSize | src/lfs/lfs.c:3384-3386 | The assertion on the block size admits only blocks of at least 104 bytes. |
| CtzIndex.IndexRight | src/lfs/lfs.c:2116-2127 | For every accepted block size and every position up to the file limit the code returns that block and offset if and only if its first guess is corrected by the right number of blocks, which a caller can compute. |
| CtzIndex.BigBlocksAreStraight | src/lfs/lfs.c:2116-2127 | Blocks of 144 bytes and more always satisfy that condition. |
| CtzIndex.CrookedPosition | src/lfs/lfs.c:2116-2127 | Blocks of 104 bytes, though accepted, do not: at position 2^24 * 96 + 4 the code goes back one block too many. |
| CtzList.JumpShrinks | src/lfs/lfs.c:2142-2157 | A jump never overshoots, and the bound on the jumps still to come goes down with each. |
| CtzList.Storage.Find | src/lfs/lfs.c:2129-2162 | The search ends at the block and offset that hold the position, after at most 2 * (log2(last index) + 1) jumps. |
| CtzList.Storage.Extend | src/lfs/lfs.c:2164-2255 | The new list satisfies the skip-list invariant, the next byte has its place in the new block, the bytes so far are the same, and only the new block was written. |
| CtzList.OlderFiles | src/lfs/lfs.c:2164-2255 | Extending is copy-on-write: every older head and size still reads the same bytes when the new block was not one of its own. |
| CtzList.Storage.Traverse | src/lfs/lfs.c:2265-2306 | The traversal reports every block of the list exactly once, last first. |
| CtzList.NextSkip | src/lfs/lfs.c:2224-2244 | The pointer to copy next is in the block that the last pointer names. |
| Files.BigBlocks | src/lfs/lfs.c:3384-3386 | Files work on every block size from 144 bytes up. |
| Files.WorkIsFile | src/lfs/lfs.c:2648-2651 | What has been written so far is a file of its own as soon as its last block holds a byte. |
| Files.File.Grow | src/lfs/lfs.c:2863-2899 | Getting a block to write to takes exactly one block from the allocator, fails exactly when there is none, keeps the bytes before the cursor and the flushed file, and writes only to that block. |
| Files.File.Fill | src/lfs/lfs.c:2901-2931 | Programming appends exactly the given bytes at the cursor. |
| Files.File.Write | src/lfs/lfs.c:2807-2936 | A write overwrites in place at the cursor (at the end when appending), zero-filling a gap. It succeeds if and only if it stays within the limit and there are as many free blocks as lie between the one that holds its first byte, or that of the gap, and the one that holds its last byte; exactly as many are taken. When it fails for want of blocks, a prefix has been written. |
| Files.File.FillGap | src/lfs/lfs.c:2836-2848 | The gap before a write past the end is filled with zeros if and only if there are as many free blocks as it takes, and it takes exactly so many. |
| Files.File.Flush | src/lfs/lfs.c:2581-2659 | Flushing copies what comes after the cursor from the old blocks; the bytes and the cursor stay and the flushed file becomes them. It succeeds if and only if there are free blocks for what is copied, and takes exactly so many. Only the file's own blocks are written (`Files.WritesWithin`), so what lies in other blocks stays. |
| Files.File.ReadBlocks | src/lfs/lfs.c:2754-2801 | Reading block by block returns the bytes at the position. |
| Files.OverwrittenAt | src/lfs/lfs.c:2807-2936 | What a write leaves, byte by byte: what was written at its place, zeros in a gap, and every other byte as it was; the size is the larger of the old one and the end of what was written. |
| Files.SliceAt | src/lfs/lfs.c:2727-2805 | What a read returns, byte by byte: as many as were asked for or as there are, and these. |
| Files.File.Read | src/lfs/lfs.c:2727-2805 | A read returns the bytes from the cursor on, at most to the end, seeing unflushed writes, and moves the cursor by what it returned; it fails if and only if the flush before it lacks blocks. |
| Files.File.Seek | src/lfs/lfs.c:2938-2971 | Seeking sets the cursor to the thirty-two-bit sum, or refuses it and leaves everything when it is beyond the limit; the bytes stay. It lacks space if and only if the flush before it does. |
| Tree.OneChain | src/lfs/lfs.c:2265-2306 | The blocks of a file are determined by the device, its last block and its size. |
| Tree.VisitDir | src/lfs/lfs.c:3745-3777 | Going through a directory reports its two blocks and the blocks of the files that the lookup of each id finds. |
| Tree.VisitHandle | src/lfs/lfs.c:3781-3806 | An open file reports its skip list when it is dirty, and the one being written when a write is going on. |
| Tree.Visit | src/lfs/lfs.c:3721-3809 | The traversal follows the tails from the pair (0, 1) until one is null, reaches every directory, and reports exactly the blocks of directories, of the files that the lookups find, and of the open files; both blocks of every pair are among them. |
| Tree.StructNames | src/lfs/lfs.c:3767-3770 | The struct of a file names its last block and its size, in this order, little-endian. |
| Tree.OpenFileVisited | src/lfs/lfs.c:3781-3806 | Of an open file in the model of `Files`, the blocks of the file as last flushed are reported when it is dirty, and those of the write that is going on. |
| Tree.ReportedExactly | src/lfs/lfs.c:503-507 | What is reported is exactly what is used if and only if every block of the first file of a directory that a move is pending on is used by something else as well: by a directory for itself, by another entry, by the first entry of a directory that no move is pending on, or by an open file. |
| Tree.FirstFileMissed | src/lfs/lfs.c:3760-3776 | An example: a directory of two files, the second on the move; the block of the first is used but not reported. |
| Alloc.AheadIs | src/lfs/lfs.c:433-441 | The lookahead offset computed with wrap-around is the distance ahead of the window. |
| Alloc.Allocator.Mount | src/lfs/lfs.c:3697-3701 | A mounted allocator starts with an empty window and a full countdown. |
| Alloc.Allocator.Ack | src/lfs/lfs.c:490-492 | An acknowledgement resets the countdown and forgets what was handed out, and the window stays trustworthy. |
| Alloc.Allocator.Lookahead | src/lfs/lfs.c:433-443 | A reported block sets exactly its own bit, if it is in the window. |
| Alloc.Allocator.Refill | src/lfs/lfs.c:475-487 | After a refill bit k is set if and only if the traversal of the file system reports block (off + k) mod block_count. |
| Alloc.Allocator.Alloc | src/lfs/lfs.c:445-488 | A block handed out is none of the two blocks of any directory, is used by no directory, no file in one and no open file, wherever `Tree.ReportedExactly` holds, and has not been handed out since the last acknowledgement, across refills; no space means every block was marked in use in its window or handed out; the countdown never underflows and the search ends. |
| Caches.Bd.Read | src/lfs/lfs.c:27-93 | A read returns the device overlaid with what is still to be programmed, keeps the read cache in agreement with the device, and ends. |
| Caches.Bd.Load | src/lfs/lfs.c:76-89 | A reload serves the byte wanted, so that the read makes progress, if and only if the hint is not zero or the byte is not at a read boundary. |
| Caches.Bd.Cmp | src/lfs/lfs.c:101-122 | Comparing through the cache is comparing with the device, byte by byte: equal, less or greater. |
| Caches.Bd.Flush | src/lfs/lfs.c:124-155 | Flushing programs the pending bytes and nothing else; with validation it finds them there and leaves no stale byte in the read cache. |
| Caches.Bd.Sync | src/lfs/lfs.c:157-169 | After a sync the device is up to date and the read cache agrees with it. |
| Caches.Bd.Prog | src/lfs/lfs.c:171-215 | Programming from a program unit on, going on where the last one stopped or after a gap within the cache, adds exactly its bytes to the view of the device, and ones in the gap. |
| Caches.Bd.ProgrammedReads | src/lfs/lfs.c:124-131 | Once flushed, the device is what the view was, but for ones that pad the last program unit. |
| Gstate.TotalFold | src/lfs/lfs.c:983-999 | Folding a delta into one directory folds it into the sum over all directories. |
| Gstate.MoveReplaced | src/lfs/lfs.c:358-364 | Recording a move replaces the move that was recorded before, and keeps the bits about orphans. |
| Gstate.GetState | src/lfs/lfs.c:983-999 | The state record of a directory is the newest one in its log, whatever the ids, and is exclusive-ored into the sum. |
| Gstate.SamePairShares | src/lfs/lfs.c:238-243 | Two pairs are taken to be the same if and only if they have a block in common, in whichever place. |
| Gstate.DeltaOfState | src/lfs/lfs.c:1755-1769 | A record that has been written is what the next look at the log finds, word for word. |
| FileSystem.CommitConserves | src/lfs/lfs.c:1705-1796 | A commit that is appended, with the directory's own delta folded into its record and a move pending on it finished, conserves the sum of the deltas in all logs against the state wanted. |
| FileSystem.Fs.Mount | src/lfs/lfs.c:3674-3691 | Mounting reads the deltas out of the logs and starts in a conserved state, with an orphan counted when the stored bit says so. |
| FileSystem.Fs.PrepMove | src/lfs/lfs.c:3943-3947 | Preparing a move changes the wanted state and the delta alike, and only the move. |
| FileSystem.Fs.PrepOrphans | src/lfs/lfs.c:3935-3941 | Counting orphans keeps the sum if and only if the count does not run out of its ten bits, and the stored bit says whether there are any. |
| FileSystem.Fs.Commit | src/lfs/lfs.c:1705-1796 | Appending a commit conserves the sum and leaves all other logs alone. |
| FileSystem.Fs.DirCommit | src/lfs/lfs.c:1705-1803 | A commit is appended exactly when block, attributes and state record have room; else the directory is compacted, with splits, into a chain that holds its entries with the attributes, or fails and leaves the logs. When it succeeds the sum is conserved if and only if it is not the state record alone that lacks room, or the directory's own delta is zero; else it is off by exactly that delta. When it fails the delta is what `FileSystem.FailureConserves` is about. |
| Losses.DoubledDelta | src/lfs/lfs.c:1755-1769 | An example in which it is lost: two directories, and a file is renamed into the one that is nearly full; its attributes end at byte 496 of 504, and the record needs sixteen more. |
| FileSystem.FailureConserves | src/lfs/lfs.c:1664-1846 | A commit that fails, at whatever point, changes the sum by exactly four terms: the move that it was to finish, the directory's own delta if the append ran out of room late, the same again if the compaction got as far as writing the directory, and what there was to write if a pair was written that is given up. The sum is conserved if and only if they cancel. |
| FileSystem.FailsWithoutPairs | src/lfs/lfs.c:1664-1846 | Without an unused pair and without a move to finish there, they cancel if and only if the directory has no delta of its own, or that has been folded in twice or not at all; the sizes of what was to be written decide which. |
| FileSystem.PerformedFinishes | src/lfs/lfs.c:1705-1796 | A commit that finishes a pending move, dropped with its pair or not, leaves on the device what is wanted without the move. |
| FileSystem.Fs.Perform | src/lfs/lfs.c:1705-1796 | The choice between committing and dropping an emptied pair is made as the code makes it, and the sum is off by exactly the move where a pair with a pending move is dropped. |
| FileSystem.DropConserves | src/lfs/lfs.c:1357-1374 | Dropping a directory conserves the sum: its predecessor inherits its delta. |
| FileSystem.Fs.Drop | src/lfs/lfs.c:1357-1374 | Dropping takes the directory out of the thread, and gives its tail and its delta to its predecessor. |
| FileSystem.Fs.DirDrop | src/lfs/lfs.c:1357-1374 | Dropping through a commit that may compact or fail: when it fails the directory stays threaded although its delta has been folded in, and the sum is off by that and the terms of the failure. |
| Threads.Spliced | src/lfs/lfs.c:788-799 | The tails lead from each directory to the next and end in a null pair; putting in place of some directories others, that begin with the same pair and lead to where those led, keeps that. |
| Threads.DropTailed | src/lfs/lfs.c:1357-1374 | Dropping a directory keeps it. |
| Threads.MadeTailed | src/lfs/lfs.c:1664-1846 | So does a commit, appended or compacted with any number of splits, whose attributes leave the tail alone. |
| Appending.StrippedReplays | src/lfs/lfs.c:838-879 | Without its checksum tags a log means the same: entries, well-formedness, tail and global state. |
| Appending.AppendTo | src/lfs/lfs.c:1728-1787 | Down to the bytes: appending a commit to the block of a directory succeeds exactly when the log of the thread says that there is room, and then the block holds the log that the thread has, and ends where that says. |
| FileSystem.Fs.CommitEmptied | src/lfs/lfs.c:1705-1726 | Dropping a directory that a commit has emptied conserves the sum if and only if no move was pending on it; else it is off by exactly that move. |
| Losses.LeftoverMove | src/lfs/lfs.c:1705-1726 | An example in which it is lost: a directory of two pairs, and the one entry of the second is on the move. |
| Rename.ApplyAttributes | src/lfs/lfs.c:3235-3249 | The commit to the new directory puts the new entry where the search said, in place of the one of that name if there was one. |
| Rename.MovedContents | src/lfs/lfs.c:722-733 | The new entry has the structs and user attributes of the old one. |
| Rename.NewName | src/lfs/lfs.c:3243-3247 | And the new name. |
| Rename.SameDirectory | src/lfs/lfs.c:3225-3249 | Within one directory the corrected id makes the single commit delete exactly the old entry. |
| Rename.OntoItself | src/lfs/lfs.c:3225-3249 | Renaming an entry onto itself, which the code does not rule out, deletes the entry. |
| Rename.Rename | src/lfs/lfs.c:3225-3259 | The renaming code takes the device through the states that the following theorems are about, also when it drops the pair of the old entry. What is in memory then agrees with the device if and only if that pair was not dropped; else it is off by exactly the move. |
| Rename.RenameIsAtomic | src/lfs/lfs.c:3225-3259 | At every crash point, reading the move out of the logs, mounting and finishing it leaves the logs as they were before the rename or exactly as they are after the whole of it, and no move is pending any more; this holds also when the old entry was the only one of a pair that continues a directory, which the second commit, or the recovery, then drops. |
| Rename.BetweenDirectories | src/lfs/lfs.c:3235-3259 | After a rename between two directories the old entry, and only it, is gone from the one, the new entry is in the other where the search said, in place of one of that name, and every other log is untouched. When the old entry was the only one of a pair that continues a directory, the pair is gone, the one before it has its tail, and all other entries are what they were. |
| Rename.WithinDirectory | src/lfs/lfs.c:3225-3249 | The same within one directory, in which the one commit does it. |
| Rename.MovedEntryIsOld | src/lfs/lfs.c:3235-3249 | The new entry has the new name, is what the old one was, a file or a directory, and has every struct and user attribute of it. |
| Rename.OnePlace | src/lfs/lfs.c:3225-3259 | Whatever its contents, and whoever else has the same: recovered from any crash point the device has as many entries with the contents of the moved file as before, less the one replaced; between the commits it has one more. That holds whether or not a pair is dropped. |
| Rename.Demove | src/lfs/lfs.c:3950-3975 | Finishing a move is a commit of nothing to the directory that the global state names; when it drops that directory, the sum is off by exactly the move, else it is conserved. |
| Rename.EitherOrder | src/lfs/lfs.c:3950-3975 | A move is finished in the directory whose blocks it names, in whichever order they are stored, and nowhere else. |
| Rename.Recover | src/lfs/lfs.c:3950-3975 | Mounting and finishing the move is the recovery that `Rename.RenameIsAtomic` speaks of. |
| Rename.Finally | src/lfs/lfs.c:3225-3259 | After a rename orphans are counted as before, no move is pending on any directory that is left, and the device stores what is wanted without a move. |
| Rename.FailedRename | src/lfs/lfs.c:3231-3252 | When the first commit fails the logs are as they were, but the move stays in memory, pending on the old directory, and the sum is off by exactly the terms of the failure. |
| Rename.StaleMove | src/lfs/lfs.c:3231-3252 | After that the next commit to the old directory deletes the entry, whatever it is for; a commit to another one stores the move, if and only if the failure has not changed the recorded move, and then the next mount deletes the entry. |
| Losses.LostFile | src/lfs/lfs.c:3231-3252 | An example: a file is renamed to a name that does not fit; then an attribute of its neighbour is set, and the file is gone from both directories. |
| Orphans.LinkedOrphan | src/lfs/lfs.c:1896-1911 | A new directory that is threaded before it is referred to is the only orphan, and dropping it restores the thread. |
| Orphans.UnreferredOrphan | src/lfs/lfs.c:3131-3135 | A directory whose entry is gone is the only orphan, and dropping it leaves a consistent thread. |
| Orphans.HardDroppedIsSafe | src/lfs/lfs.c:1716-1725 | The same when the commit that deletes the entry also drops the emptied pair that the entry was in. |
| Orphans.AbandonedIsSafe | src/lfs/lfs.c:3977-4047 | Whatever has led there: in a thread that differs from a consistent one only in that an empty directory is no longer referred to, that directory is the only orphan, and with the bit set recovery drops it. |
| Replacing.ReplaceIsSafe | src/lfs/lfs.c:3159-3277 | A rename in the place of an empty directory, within one directory or between two, also when it drops the pair of the old entry: at every crash point, with the pending move finished, there is at most one orphan, the bit that the logs add up to tells of it, and deorphaning gives the threaded directories of before or of after, which are exactly those referred to. |
| Replacing.Replace | src/lfs/lfs.c:3159-3277 | The code takes the device through the states of that theorem; what is in memory at the end agrees with it if and only if no pair was dropped by the rename. |
| Replacing.Recover | src/lfs/lfs.c:4049-4064 | Mounting, finishing a move and deorphaning is the recovery that it speaks of. |
| Directories.Parent | src/lfs/lfs.c:3854-3872 | The search for a parent finds one exactly when the struct of some entry of a threaded directory names the pair. |
| Directories.MakeDirectory | src/lfs/lfs.c:1848-1933 | The code of mkdir takes the device through the states of `Directories.MkdirIsSafe`, and conserves the global state, part of which the new directory takes with it. |
| Directories.MkdirIsSafe | src/lfs/lfs.c:1848-1933 | At every crash point of a mkdir there is at most one orphan, the bit that the logs add up to tells of it, and deorphaning gives the thread of before or of after, in which the threaded directories are exactly those referred to. |
| Entries.MakeEntries | src/lfs/lfs.c:1848-1933 | After a mkdir the parent has one entry more, where the search said: a directory of the name that was asked for, whose struct is the new pair. The new directory is empty, behind the last pair of its parent, and every other one has the entries that it had. |
| Directories.MkdirFails | src/lfs/lfs.c:1887-1909 | When the commit that threads the new directory fails, the global state survives if and only if what the new directory took with it equals what the failure itself puts into the delta; for a parent of one pair that is the parent's own delta, if the compaction got as far as writing it, else nothing. |
| Directories.TryMakeDirectory | src/lfs/lfs.c:1848-1933 | The code of mkdir when any of its commits may have to compact or may fail: in each case the sum is off by exactly the terms that the commits leave, and the thread is what the commits that succeeded make of it, with the new directory behind the last pair of its parent. |
| Losses.LostDelta | src/lfs/lfs.c:1887-1909 | An example in which it does not, though there was nothing to write: in blocks of 256 bytes a name of 255 has no room, and the parent has a delta of its own. Both commits are run; the second fails after having folded that delta in. |
| Directories.RemoveDirectory | src/lfs/lfs.c:3112-3153 | The code of remove takes the device through the states of `Directories.RemoveIsSafe`, and conserves the global state. |
| Directories.RemoveIsSafe | src/lfs/lfs.c:3087-3157 | The same as `Directories.MkdirIsSafe` for the removal of a directory, also when it empties the pair of its parent. |
| Entries.RemoveEntries | src/lfs/lfs.c:3087-3157 | After a removal the entry, and only it, is gone from its directory, and the directory from the thread; every other one has the entries that it had, also when the pair of the entry is dropped. |
| Entries.DropEntries | src/lfs/lfs.c:1357-1374 | Dropping a directory, in a removal, a rename or a deorphaning, leaves the entries of all others. |
| Directories.Deorphan | src/lfs/lfs.c:3977-4047 | Deorphaning drops the first threaded directory without a parent, if there is one and the state counts one, else leaves the thread; the count as of the last commit, whatever it is, is taken away. The sum is conserved if and only if an orphan was found or no fewer are wanted than were counted at the last commit; else the count runs out of its bits. |
| Directories.Recover | src/lfs/lfs.c:3977-4047 | Mounting and deorphaning is the recovery that the two safety theorems speak of. |
| Threading.MakeTailed | src/lfs/lfs.c:1848-1933 | At every crash point of a mkdir the tails lead from each directory to the next, and end in a null pair. |
| Threading.TryMakeTailed | src/lfs/lfs.c:1848-1933 | The same when the commit that threads the new directory has had to compact and split its pair. |
| Threading.TryEnterTailed | src/lfs/lfs.c:1848-1933 | And when the one that enters it has. |
| Threading.RemoveTailed | src/lfs/lfs.c:3087-3157 | At every crash point of a removal. |
| Threading.RenameTailed | src/lfs/lfs.c:3159-3277 | At every crash point of a rename. |
| Threading.ReplaceTailed | src/lfs/lfs.c:3159-3277 | And of one in the place of a directory. |
| Threading.RecoverTailed | src/lfs/lfs.c:3950-3975 | And after a move has been finished by a mount. |
| Threading.DirDropTailed | src/lfs/lfs.c:1357-1374 | And of a drop that has had to compact. |
| Formatting.FormattedIsReady | src/lfs/lfs.c:3514-3554 | A device that has just been formatted mounts with nothing pending, its one directory is threaded and consistent, and anything can be made in it: the base of all of these. |
| Formatting.FirstDirectory | src/lfs/lfs.c:1848-1933 | The first directory made on it is the one that the tail of the root names, and its own tail is null. |
| Laid.EnteringAppends | src/lfs/lfs.c:1899-1912 | What mkdir commits to the parent can be laid out in a block and appended to its log, a struct of eight bytes among it. |
| Laid.MakeAppends | src/lfs/lfs.c:1848-1933 | So can all that a mkdir commits. |
| Laid.RemoveAppends | src/lfs/lfs.c:3131-3135 | And what a removal commits. |
| Laid.RenameAppends | src/lfs/lfs.c:3231-3249 | And what a rename commits, with all that it takes along and with its own deletion. |
| Laid.FinishAppends | src/lfs/lfs.c:3252-3259 | And what finishes it. |
| Laid.WrittenAppends | src/lfs/lfs.c:1741-1769 | Whatever can be appended still can with the record of the global state behind it. |
| Attributes.SetThenFind | src/lfs/lfs.c:3323-3357 | A user attribute that is set is found, with these bytes, and no other attribute of any entry changes. |
| Attributes.RemoveThenFind | src/lfs/lfs.c:3359-3364 | One that is removed is not found any more, and no other changes. |
| Attributes.ListThenFind | src/lfs/lfs.c:737-744 | Of a list of user attributes the last of each kind is found, and no others change. |
| Attributes.CompactedLookups | src/lfs/lfs.c:1559-1566 | Lookups of names, structs and user attributes find the same after a compaction. |

## Left out

- Crash.AppendIsAtomic: assumes that no checksum stored at a tag which was not completely programmed matches by accident; the same goes for Crash.CompactionIsAtomic, Crash.EraseIsAtomic and Crash.TornCommit. The checksum has 32 bits, so this cannot be proved away.
- Lookup.Get: works on the attributes of a log, without the checksum tags between commits, which its masks never match; that the byte-wise walk meets these attributes in this order is Block.WalkIsReversedLog.
- Traverse.Traversal: compares tags and payloads, not where on the device a payload is; splices other than CREATE and DELETE do not occur.
- Split.Store.Compact: keeps the log of every pair as a value; the bytes of one commit are the subject of Committing and Metadata. Fresh pairs come from a set.
- Committing.Writer.Seal: reads and programs the block directly; that reads through the caches agree with the device is the subject of Caches. Erasing a block does not drop it from the read cache, so the erased word that the reset bit is taken from is assumed to be read from the device.
- Metadata.FetchBlock: a tail attribute whose size is not eight, which the code never writes, is ignored; the best match for a name is left to Search.FindMatch. Which block was fetched and its revision count are in Crash.FetchPair.
- Metadata.Mdir.Compact: tail and global state are given as the last attributes; what they are is in Split.Store.Write and FileSystem. The erase before it only makes the old bytes arbitrary.
- Metadata.Mdir.Append: takes attribute lists that are already expanded; the expansion is Traverse.Traversal. The pending move and the global state that the same code adds are in FileSystem.Fs.Commit, the choice between appending and compacting in FileSystem.Fs.DirCommit. The block takes what is programmed whatever was there, so that an append to a block of 255 entries or more that is not erased (line 1728) is the same as any other; what flash makes of it is not modelled.
- Util.Npw2IsBitLength: models the portable fallback; for popc and ctz the definitions of the counts stand for the compiler's built-in functions.
- CtzList.Storage.Extend: the block handed out and its erased bytes are parameters, and the device never reports corruption, so the retry is not modelled.
- Files.File.Write: requests are at most 2^31 - 1 bytes, as the signed result demands, and block sizes are those on which every position is found (Files.BigBlocks). Blocks come from a set, bytes go straight to the device, and the read-only and error flags are not modelled. Blocks that are no longer used are not given back.
- Files.File.Flush: when the device is full part of the tail has been copied and the cursor stays where the copying stopped, as in the code.
- Tree.Visit: follows the tails, but a fetch is looking up the log of a pair (Tree.Fetch); the fetch of a block is the subject of Metadata. It demands that every struct and every open file name a whole file (Tree.Sound).
- Alloc.Allocator.Alloc: devices have at most 2^31 blocks, beyond which the sum in the lookahead callback overflows; the lookahead buffer is an array of bits. The file system must not have gained blocks since the last acknowledgement other than those handed out.
- Caches.Bd.Read: offsets and sizes do not overflow 32 bits; erasing is not modelled.
- FileSystem.Fs.Mount: takes it that the stored deltas count no orphans and that a stored move is the deletion of an entry, as everything that is written keeps it.
- FileSystem.Fs.DirCommit: is for commits that do not empty the directory; the choice between that and dropping it is FileSystem.Fs.Perform, a drop that has to compact or fails is FileSystem.Fs.DirDrop.
- FileSystem.Fs.CommitEmptied: takes it that the dropping commit has room; when it has to compact or fails, FileSystem.Fs.DirDrop says what becomes of the global state.
- Rename.RenameIsAtomic: takes each commit as one atomic step on the logs, with room for it; that commits are atomic is the subject of Crash. What becomes of a rename whose first commit fails is Rename.FailedRename.
- Directories.Parent: compares the pairs in structs as equal pairs of block numbers in one order, and looks at the entries that a log replays to, where the code matches tags during a fetch and takes pairs to be the same that share a block. Structs and tails are written from the same pair, and without relocation no two pairs share a block.
- Directories.Deorphan: takes away the count as a number of ten bits, where the source passes it through a signed byte, which is the same up to 128 orphans. When there are orphans no move may be pending on a threaded directory, which a move left by a failed rename can be (Rename.FailedRename). Half-orphans, which only relocation creates, are not modelled.
- Replacing.ReplaceIsSafe: says nothing of the entry renamed onto itself, for which see Rename.OntoItself.
- Erased.TornIsJudged: assumes, like Crash.AppendIsAtomic, that no checksum matches by accident.
- Bad-block relocation, `lfs_fs_relocate`, superblock expansion and wear levelling: never triggered on an honest device with `block_cycles` -1.
- Inline files, `lfs_file_outline` and `lfs_file_truncate`.
- Fixing up the ids of open handles after a commit (lines 1806-1843).
- Resolving paths component by component: only the search for one name along the pairs of its directory is modelled.
- `LFS_MIGRATE`, memory allocation, logging, `lfs->seed`, byte-order helpers other than as fixed encodings.
- The command-line tool around the engine: `src/main.c`, `src/vfs_*.c`, `src/util.c`, `src/macro.h`.
