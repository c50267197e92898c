# lolelffs: a verified model

lolelffs is an extent-based filesystem with one on-disk format and two implementations: a Rust library (with command line tools and a FUSE driver) and a C kernel module (with `mkfs` and `fsck`). This project models both in Dafny and proves what their operations keep, what they undo, and where they do not do what one would expect.

## How the model is built

**The Rust library** works on a `Disk`: the two free counters, the inode records, the two bitmaps, and blocks with typed contents (raw bytes, extent index, directory block, attribute index). `RustFs.LolelfFs` holds these as fields; the operations are methods that change them in the order of the source. A ghost field `roles` gives every block its one use; the invariant `DiskState.Inv` says that roles, bitmaps, counters and all block maps agree and that every live inode is well formed. `DiskState.ViewOf` is what a caller sees: inode numbers map to nodes, directories map names to inode numbers, files hold what `read_file` returns for them, and every node has a map of attributes. Each operation is proved to act on this view as one abstract operation of `AbstractFs`, where link counts and reachability are proved. `RustRun` puts the operations together into arbitrary runs, and `RustTheorem` states the outcome: starting from `create`, nothing leaks, nothing is shared, link counts are exact and every inode is reachable; a file reads as it was last written, and the checker finds nothing but the two known oddities of the root. `RustOnDisk` ties the typed blocks to their byte formats.

**The kernel module** is modelled function by function: bitmaps are `array<bool>` changed in place under a superblock object, the extent index is an `array<Extent>`, the attribute buffer an `array<byte>` edited with a front-to-back move, a directory an array of blocks that removal shifts in place. `KernelRace` is a state machine over whole lock-held calls by any number of callers.

**Formats and tools**: `Wire`, `Codecs`, `RecordCodecs`, `IndexCodecs` and `XattrCodec` are the byte formats with their round trips; `MkfsBitmap`, `Mkfs` and `Fsck` are the image writer, with its 64-bit word-and-mask loop, and the independent bit-counting checker; `RustImage` is a disk of the Rust library as the checker reads it.

Compression and encryption are abstract functions in `Content.Config`. Laws about the algorithms in use (`Shaped`, `Inverts`, `NoFixpoint`, `Tagged`) are hypotheses of the theorems that need them; `Content.ReadsBackIffBlocks` needs none. Block reads and writes are total, and timestamps are dropped.

## What the proofs show about the code

- **Contents read back exactly when every extent is uniform.** `write_file` decides per block whether to compress, but records one algorithm per extent, the one of its last block. `Content.ReadsBackIffUniform` is the exact condition; `Content.ShortTailLosesFirstBlock` is the family of files of two blocks with a short tail, which lose their first block under the default settings, and `Content.ZerosDoNotReadBack` a concrete one: 4097 zero bytes.
- **Nothing but the empty file reads back under ChaCha20-Poly1305.** The stored block is cut to 4096 bytes, so the tag is gone, and decryption demands 4112 bytes (`Content.TaggedReadsBackIffEmpty`).
- **`create_file` and `mkdir` lose an inode exactly when an inode is free and no block is.** They allocate the inode first and do not give it back when the index block cannot be allocated (`RustCreate.CreateFile`, `RustCreate.Mkdir`). `RustFull.FullIsGood` is a sound disk of 100 blocks in that state, `RustFull.CreateLosesInode` runs both calls on it, and by `RustFull.LostIsBad` such a disk never satisfies the invariant again. Every other failure, and every failure of `symlink` and `link`, restores everything.
- **Whether a write or an attribute change goes through is decided by the disk before it.** `RustPlan.PlanOn` follows the allocation loop on the free bits (with the old blocks given back and a missing index block taken, `RustPart.PlanFor`); every call succeeds, is refused or stops half way exactly as these functions say (`RustFile.WriteError`, `Fuse.TruncateError`, `RustXattrSet.SetError`, `RustXattrSet.RemoveError`, and `RustRun.Stops` for all commands).
- **A call that stops for want of room can leave a block free that a file still uses.** The old blocks are given back first, and inode and index are not touched again. Every other inode looks as before (`RustPart.StalledIsContained`), but the disk is sound afterwards if and only if the bitmap came out as it was (`RustStall.StopIsSoundIff`). `RustStall.WriteStalls` is a sound disk of 100 blocks on which a write of two blocks fails although two are free; the next `create_file` is given the block of that file as its index block (`RustStall.NextFileShares`).
- **The kernel attribute store miscounts after a replace without space.** The count is decremented before the space checks, so a set leaves it one too low exactly when the key is there, its name has 1 to 255 bytes, the value at most 65535, the create flag is off, and the new list is too long or finds no free run (`KernelXattr.Miscounts`, decided before the call). `KernelXattrRun.MiscountShown` is such a store; over any run, refused operations included, the count is the number of attributes less the number of such replaces, as a 32-bit number (`KernelXattrRun.RunOps`).
- **The kernel's `get_block` maps a new block where a later search finds it exactly when the write appends** (`KernelFile.MapsWhereFoundIffAppend`). In `KernelFile.GapIsMisplaced` block 5 of an empty file is mapped to where block 0 is found.
- **The kernel's `create` leaves the directory extent from the 121st entry on.** It computes the block of the new entry for extents of 2048 blocks and allocates 8 (`KernelCreate.SlotInsideIff`). A new name is found by later lookups exactly while fewer than 120 entries are there; the 121st entry is lost and only counted (`KernelEntry.CreateEntry`).
- **Unlinking a symbolic link in the kernel frees block 0.** The put is accepted (`KernelAlloc.UnlinkSymlink`); the next request for one block then fails whatever is free, takes block 0 back and leaves the counter one too high (`KernelAlloc.GetAfterUnlink`). In general the counter stays right exactly when the first fit does not begin at block 0 (`KernelAlloc.SbInfo.GetFreeBlocks`).
- **The hinted allocator overlooks free runs across the hint**: it fails exactly when every free run straddles it (`KernelBitmap.HintFailsIff`).
- **`put_blocks` and `put_inode` keep the counter right exactly for ranges that are inside the map and wholly taken.** The bound test lets through a second free and a range one bit too long (`KernelAlloc.PutKeepsCountIff`, with both inputs in `KernelAlloc.PutMiscounts`); ranges that were handed out are always given back correctly (`KernelRace.EveryRunIsSafe`).
- **Compression metadata reads back up to 1022 entries only**, although the format admits 2040 (`IndexCodecs.MetaRoundTrip`).
- **Rust attribute records read back exactly when names have at most 255 bytes, values at most 65535, and no entry is empty in both** (`XattrCodec.ParseInvertsSerialize`); `set_xattr` checks none of this. A value of 65536 bytes reads back as an empty one (`XattrCodec.LongValueIsLost`).
- **A new filesystem of the Rust library draws exactly one error and one warning from `fsck`** (`RustTheorem.CheckNew`): its root has no blocks and size 0. On every sound disk the superblock, the root's extents and both bitmaps pass; the error stays exactly until the root has a block, and the size warning stays for good, because no number of 259-byte entries makes 4096 (`RustImage.SoundDiskReport`, `RustTheorem.CheckAfterRun`). What `mkfs` makes draws none exactly when the block count, cut to 32 bits, is at least 100 (`Fsck.MkfsPasses`).
- **`fsck` accepts a superblock whose regions do not fit the device when their sum wraps**, and otherwise only layouts that fit (`Fsck.LayoutInsideIff`, `Fsck.WrappedLayoutPasses`).
- **A FUSE write to a file that cannot be read starts from nothing.** The next write starts from the old contents exactly when these were uniform (`Fuse.StartsFromContentsIff`). Under a cipher with a tag it always starts over, and the old contents survive exactly when nothing of them lies past the written range and all of them before it is zero (`Fuse.TaggedWriteStartsOver`; `Fuse.AppendLosesFirstByte` is one byte appended to one).

## Hypotheses

- Inode numbers given to an operation are allocated or out of range. The source tests only the range.
- Names are non-empty and free of NUL (`Directory.ValidName`); attribute names are valid strings.
- File contents and attribute stores are at most 2^32 - 4096 bytes (`DiskState.MAX_SIZE`), and the superblock's limit for large extents is 0 or at least 524288, its default.
- Image sizes keep the block count below 4294967264 in the Rust library, exactly where the inode count fits 32 bits (`RustFormat.InodeCountFits`); the numbers of the compression algorithm and of the cipher are bytes (`Content.SmallAlgos`).
- Compressed blocks are stored zero-padded; that their decompression ignores the padding is part of `Content.Inverts`, because the compressors are not part of this model.
- In `KernelRace` callers of the kernel's allocators give back ranges they hold, and bit 0 of a bitmap is not free to begin with. The kernel itself breaks this when it unlinks a symbolic link (see above). A bitmap array is long enough for every range that passes the bound test.
- Failures after a write has begun (no room for the next extent, data that cannot be sealed) end a run: the source frees the old extents first and does not restore them. `RustRun.Stops` says exactly when that happens, and `RustRun.Breaks` what is left.
- Distinct values of `Layout.Error` stand for the source's messages; `NoIndexBlock` is the message for missing space at the places where an index block is allocated.

## Model

| member | source | states |
|---|---|---|
| RustTheorem.CreateAndRun | lolelffs-tools/src/fs.rs:364-560 | From creation on, every disk reached by any sequence of operations, up to one that stops half way, is consistent: a data block is used exactly when one live inode refers to it, no block is referred to twice, the free counter is the number of unreferenced data blocks, every inode is reachable and counted; each command had its abstract effect or was refused for a stated reason; a command stops half way exactly when the disk before it says so, and then touches one inode only. |
| RustTheorem.GoodIsConsistent | lolelffs-tools/src/bitmap.rs:75-175 | The invariant implies the guarantee above, stated over inodes and extents only. |
| RustTheorem.WrittenIsRead | lolelffs-tools/src/file.rs:10-306 | After a write, reading returns the written bytes if and only if every extent is uniform, and every other node is unchanged. |
| RustTheorem.LastWriteIsRead | lolelffs-tools/src/file.rs:10-306 | At any later point of any trace, whatever other commands ran, reading a file returns the bytes of the last write to it if and only if these are uniform. |
| RustTheorem.ContentKept | lolelffs-tools/src/file.rs:309-500 | No command other than a write to it changes the contents of a surviving file. |
| RustTheorem.CheckNew | lolelffs-tools/src/fs.rs:364-560 | The checker counts exactly one error and one warning on a new filesystem, superblock, root, index and bitmaps included. |
| RustTheorem.CheckAfterRun | src/fsck.lolelffs.c:512-565 | After any run that did not stop half way the checker counts one error if and only if the root has no block, and exactly the known warnings. |
| RustTheorem.FuseWriteIsSplice | lolelffs-tools/lolelffs-fuse/src/main.rs:693-752 | A FUSE write is a zero-filling splice: the written range reads back, the length is the larger of the two ends, all other bytes are kept or zero. |
| RustRun.Run | lolelffs-tools/src/file.rs:86-500 | Any command sequence keeps the invariant; the disks form a trace in which each command has its effect, or fails and changes nothing, as the disk before it decides; an early end is a command outside the model or one that stops half way, which the disk before it decides too. |
| RustRun.Exec | lolelffs-tools/src/dir.rs:345-447 | One command stops half way if and only if `Stops` holds of the disk before it; otherwise the disk is sound afterwards, with the abstract effect if and only if the disk before it gives no error, and unchanged to see if it does. |
| RustRun.EffectKeepsLinks | lolelffs-tools/src/file.rs:357-475 | Every abstract effect keeps link counts exact, entries live and directories a tree. |
| RustRun.TraceLinked | lolelffs-tools/src/file.rs:357-475 | Link counts and reachability hold at every point of every trace. |
| Ownership.ExactlyOneUse | lolelffs-tools/src/fs.rs:480-560 | Metadata blocks are taken and referred to by nobody; a data block is taken if and only if some live inode refers to it. |
| Ownership.NoBlockSharedTwice | lolelffs-tools/src/bitmap.rs:75-144 | Two references to one block are the same reference: same inode, same part, same position. |
| Ownership.NothingLeaks | lolelffs-tools/src/bitmap.rs:147-175 | The free-block counter equals the number of data blocks nobody refers to. |
| AbstractFs.AllReachable | lolelffs-tools/src/dir.rs:345-447 | Under the link invariant every allocated inode can be reached from the root. |
| AbstractFs.CreateKeepsLinks | lolelffs-tools/src/file.rs:309-354 | A new file or symbolic link with one name and one link keeps all link counts. |
| AbstractFs.MkdirKeepsLinks | lolelffs-tools/src/dir.rs:345-395 | A new directory with two links, and one more on its parent, keeps all link counts. |
| AbstractFs.HardlinkKeepsLinks | lolelffs-tools/src/file.rs:450-475 | One more name and one more link keeps all link counts. |
| AbstractFs.UnlinkKeepsLinks | lolelffs-tools/src/file.rs:357-403 | Dropping a name keeps all link counts, and the inode goes if and only if it was its last name. |
| AbstractFs.RmdirKeepsLinks | lolelffs-tools/src/dir.rs:398-447 | Removing an empty directory keeps all link counts and the tree. |
| RustFs.LolelfFs.AllocInode | lolelffs-tools/src/bitmap.rs:9-47 | Takes the lowest free inode; fails if and only if there is none; only that bit and the counter change. |
| RustFs.LolelfFs.FreeInode | lolelffs-tools/src/bitmap.rs:50-72 | Sets one bit and raises the counter, whether or not the inode was taken; bitmap and counter agree afterwards if and only if it was; out of range is refused. |
| RustFs.LolelfFs.AllocBlocks | lolelffs-tools/src/bitmap.rs:75-144 | Leftmost free run of the requested length at or above the data area; exactly its bits change; fails if and only if there is none. |
| RustFs.LolelfFs.FreeBlocks | lolelffs-tools/src/bitmap.rs:147-175 | Sets the bits of the run and raises the counter by its length; bitmap, counter and metadata region are in order afterwards if and only if it was a run of taken data blocks; a run past the last block is refused with the bits in range already set. |
| RustFs.FreeTable | lolelffs-tools/src/file.rs:97-106 | Frees exactly the blocks of all used extents. |
| RustPlan.AllocExtents | lolelffs-tools/src/file.rs:136-194 | Result, error and free bits afterwards are those of the plan on the free bits before: leftmost first fit for one extent of the scheduled size after the other; on success the extents tile the logical blocks over disjoint physical runs. |
| RustPlan.PlanTakes | lolelffs-tools/src/file.rs:136-194 | A plan that comes to its end has taken exactly as many free blocks as were asked for. |
| Content.PlanFits | lolelffs-tools/src/bitmap.rs:210-238 | A plan for up to 2^20 blocks has at most 19 extents, so the 170-slot index never truncates. |
| RustFile.ReadFile | lolelffs-tools/src/file.rs:10-83 | Returns what the view holds for the inode, with the errors for directories and bad numbers. |
| RustFile.WriteFile | lolelffs-tools/src/file.rs:86-306 | Fails if and only if the disk before it says so, with the error it says: bad number, wrong kind, no index block, no run for an extent of the plan, or the first block that cannot be sealed. On success the file holds what the data reads back as and nothing else in the view changed; refusals change nothing; a stop leaves every other node as it was and, for want of room, changes nothing but the bitmap, to the bits of the plan. |
| RustPart.StalledIsContained | lolelffs-tools/src/file.rs:97-194 | A part of an inode that is half rebuilt, whatever it holds and whatever it still refers to, changes the view at this inode only. |
| RustPart.ClaimPart | lolelffs-tools/src/file.rs:129-194 | Index block and extents of a part whose old blocks are given back: success and error are decided by the disk before the call; a stop leaves the bits of the plan. |
| RustStall.StopIsSoundIff | lolelffs-tools/src/file.rs:97-194 | After a stop for want of room the disk satisfies the invariant, for some uses of the blocks, if and only if the plan left the bitmap as it was, which the disk before decides. |
| RustStall.FreeAndReferredIsBad | lolelffs-tools/src/file.rs:97-106 | A disk on which a live inode refers to a free block satisfies the invariant for no uses of the blocks. |
| RustStall.StallIsGood | lolelffs-tools/src/file.rs:97-194 | A sound disk with a file of one block and one free block that is not next to it. |
| RustStall.WriteStalls | lolelffs-tools/src/file.rs:86-194 | On that disk a write of two blocks fails, and the block of the file is free and still its block. |
| RustStall.NextClaimShares | lolelffs-tools/src/file.rs:309-332 | An inode that is given a free block that another one refers to shares it. |
| RustStall.NextFileShares | lolelffs-tools/src/file.rs:309-332 | The next new file is given the block of that file as its index block. |
| RustFile.WriteChunks | lolelffs-tools/src/file.rs:196-285 | Every block is packed, sealed and written where its extent maps it, and each extent records the choice of its last block. |
| Content.ReadsBackIffBlocks | lolelffs-tools/src/file.rs:36-79 | With no law on the codec, a file reads back if and only if each of its blocks loads as written. |
| Content.UncompressedReadsBack | lolelffs-tools/src/file.rs:196-285 | Without compression every file reads back. |
| Content.TaggedReadsBackIffEmpty | lolelffs-tools/src/encrypt.rs:112-140 | With a cipher that refuses ciphertexts of block size, only the empty file reads back, and reading any other fails. |
| Content.UniformReadsBack | lolelffs-tools/src/file.rs:10-83 | Uniform data reads back as written, given inverting codecs. |
| Content.ReadsBackIffUniform | lolelffs-tools/src/file.rs:264-285 | Data reads back as written if and only if every extent is uniform. |
| Content.ShortTailLosesFirstBlock | lolelffs-tools/src/file.rs:264-285 | Under the default settings a compressible block followed by a short tail is not read back. |
| Content.ZerosDoNotReadBack | lolelffs-tools/src/file.rs:264-285 | 4097 zero bytes under the default settings are a file that does not read back. |
| Extents.FindExtent | lolelffs-tools/src/types.rs:489-508 | The binary search is the linear scan: the extent holding the block, or none. |
| RustDir.Lookup | lolelffs-tools/src/dir.rs:63-100 | Agrees with the map of the directory; errors for bad numbers and non-directories. |
| RustList.ListDir | lolelffs-tools/src/dir.rs:17-60 | Lists the occupied slots in order, each with the record of its inode, which is always an allocated one. |
| Directory.ListedIsMap | lolelffs-tools/src/dir.rs:17-60 | The listing and the map have the same names and inode numbers, each once, and as many as `nr_files` counts. |
| Directory.FillIsAdd | lolelffs-tools/src/dir.rs:248-259 | Writing a new name into a free slot adds exactly this name to the map. |
| Directory.ClearIsRemove | lolelffs-tools/src/dir.rs:279-342 | Clearing the slot of a name removes exactly this name from the map. |
| RustEntry.AddDirEntry | lolelffs-tools/src/dir.rs:133-276 | Adds exactly this name, reusing the first free slot or appending a zeroed block; the error, if any, is determined by the directory and the free count; a failure changes nothing. |
| RustEntry.RemoveDirEntry | lolelffs-tools/src/dir.rs:279-342 | Removes exactly this name and returns its inode number; fails if and only if it is not there. |
| RustCreate.CreateFile | lolelffs-tools/src/file.rs:309-354 | Adds an empty file with the lowest free number under the new name; the error is determined by the disk; every failure restores bitmaps, counters, ownership and view, except that the inode is lost when no block is free. |
| RustCreate.Mkdir | lolelffs-tools/src/dir.rs:345-395 | The same for an empty directory with two links, with one more link on its parent. |
| RustFull.FullIsGood | lolelffs-tools/src/file.rs:309-314 | A disk of the smallest size that is sound, shows an empty root, has free inodes and no free block. |
| RustFull.CreateLosesInode | lolelffs-tools/src/file.rs:309-354 | On that disk `create_file` and `mkdir` both fail and leave one inode taken that nothing refers to. |
| RustFull.LostIsBad | lolelffs-tools/src/file.rs:309-314 | After losing an inode a sound disk is not sound for any assignment of uses to blocks, because the inode cannot be reached. |
| RustLink.Symlink | lolelffs-tools/src/file.rs:406-447 | Adds a symbolic link; the error is determined by the disk and the target; every failure restores everything. |
| RustLink.TargetReadsBack | lolelffs-tools/src/file.rs:420-421 | A stored target reads back as written if and only if it has no NUL. |
| RustLink.Link | lolelffs-tools/src/file.rs:450-475 | One more name and one more link; on failure the state, link count included, is exactly as before. |
| RustRemove.Unlink | lolelffs-tools/src/file.rs:357-403 | Drops the name and one link, or the inode with its last name; result and error are determined by the view; failures change nothing. |
| RustRemove.Rmdir | lolelffs-tools/src/dir.rs:398-447 | Removes an empty directory and one link of its parent; result and error are determined by the view; failures change nothing. |
| RustLife.Destroy | lolelffs-tools/src/fs.rs:874-896 | Freeing an inode gives back every block it owns, data and attributes, and takes exactly it out of the view. |
| RustXattr.GetXattr | lolelffs-tools/src/fs.rs:563-582 | Answers from the attribute map, with the errors in the source's order. |
| RustXattr.ListXattrs | lolelffs-tools/src/fs.rs:724-749 | Lists exactly the keys of the map, each once. |
| RustXattrSet.SetXattr | lolelffs-tools/src/fs.rs:585-721 | Fails if and only if the disk before it says so, with the error it says; on success the store holds the serialized new list over its extents, which for an entry that fits updates exactly one key; refusals change nothing; a stop changes nothing but the bitmap, to the bits of the plan for exactly this list. |
| RustXattrSet.RemoveXattr | lolelffs-tools/src/fs.rs:752-871 | Fails if and only if the disk before it says so, as `get_xattr` would or for want of room; on success removes exactly one key, and with the last key gives back every block of the attribute part; a stop changes nothing but the bitmap, to the bits of the plan for the remaining list. |
| RustXattrStore.ReadStore | lolelffs-tools/src/xattr.rs:124-142 | Reads all blocks of all extents, cut to the recorded size. |
| XattrCodec.ParseEntries | lolelffs-tools/src/xattr.rs:145-216 | The loop over a moving offset is the recursive parse. |
| XattrCodec.ParseInvertsSerialize | lolelffs-tools/src/xattr.rs:145-252 | Parsing inverts serialization if and only if every entry fits its header. |
| XattrCodec.LongValueIsLost | lolelffs-tools/src/xattr.rs:219-252 | An attribute with a value of 65536 bytes parses back with an empty value. |
| XattrCodec.SetIsUpdate | lolelffs-tools/src/fs.rs:611-634 | Replacing or appending in the list updates exactly one key of the map. |
| XattrCodec.RemoveIsRemoval | lolelffs-tools/src/fs.rs:764-771 | Filtering the list removes exactly one key of the map. |
| XattrCodec.ParseInvertsFullName | lolelffs-tools/src/xattr.rs:8-23 | Parsing a full name gives back namespace and base name. |
| XattrCodec.FullNameInvertsParse | lolelffs-tools/src/fs.rs:735-746 | A parsed name is listed as it was given. |
| RustFormat.Create | lolelffs-tools/src/fs.rs:364-560 | Refuses devices below the minimum; otherwise the invariant holds, the view is an empty root, and the counters equal what is left. |
| RustFormat.LayoutFits | lolelffs-tools/src/fs.rs:389-393 | The regions follow each other, are in range, cover all inodes and blocks, and leave room for the root index. |
| RustFormat.InodeCountFits | lolelffs-tools/src/fs.rs:390 | The rounded inode count fits 32 bits if and only if there are fewer than 4294967264 blocks. |
| RustFormat.InitBfree | lolelffs-tools/src/fs.rs:503-531 | The bitmap loops free exactly the blocks after the root index and count them. |
| Fuse.Truncate | lolelffs-tools/src/file.rs:478-500 | Fails if and only if the disk before it says so, the reading of the old content included; on success the content is cut or zero-extended and written; refusals change nothing; a stop leaves every other node as it was. |
| Fuse.Read | lolelffs-tools/lolelffs-fuse/src/main.rs:306-344 | Returns the requested range of the content, empty past the end. |
| Fuse.Write | lolelffs-tools/lolelffs-fuse/src/main.rs:693-752 | Fails if and only if writing the spliced content fails, as the disk before it says; on success the spliced content is written and the length reported; refusals change nothing; a stop leaves every other node as it was. |
| Fuse.ReadAfterSplice | lolelffs-tools/lolelffs-fuse/src/main.rs:721-730 | Reading the written range of a splice returns the written bytes. |
| Fuse.StartsFromContentsIff | lolelffs-tools/lolelffs-fuse/src/main.rs:714-731 | A write starts from the bytes written last if and only if these are uniform. |
| Fuse.TaggedWriteStartsOver | lolelffs-tools/lolelffs-fuse/src/main.rs:714-731 | Under a cipher with a tag a write starts from nothing; the result is as if the old bytes had been kept if and only if these end before the end of the range and are zero before its start. |
| Fuse.AppendLosesFirstByte | lolelffs-tools/lolelffs-fuse/src/main.rs:714-731 | A concrete file of one byte whose byte is zeroed by appending another. |
| Fuse.TranslationInverts | lolelffs-tools/lolelffs-fuse/src/main.rs:20-34 | The inode number translation round-trips exactly below the largest 32-bit number. |
| KernelBitmap.GetFirstFreeBits | src/bitmap.h:17-44 | Leftmost first fit over the whole map, with the single-bit path agreeing with the run scan; exactly those bits change; 0 and no change when there is no run. |
| KernelBitmap.ScanRuns | src/bitmap.h:33-43 | The scan with `prev` and `count` finds the least start of a free run, or shows that there is none. |
| KernelBitmap.GetFreeBitsFromHint | src/bitmap.h:50-112 | Leftmost run from the hint on, otherwise leftmost below it. |
| KernelBitmap.HintFailsIff | src/bitmap.h:50-112 | The hinted search fails if and only if every free run straddles the hint. |
| KernelBitmap.StraddlingRunIsMissed | src/bitmap.h:79-109 | A free run across the hint that the search does not find. |
| KernelAlloc.SbInfo.GetFreeInode | src/bitmap.h:118-127 | First free inode; the counter stays the population count if and only if inode 0 is not free; the answer is 0 if and only if there is none or the first is inode 0. |
| KernelAlloc.SbInfo.GetFreeBlocks | src/bitmap.h:133-143 | First fit; the counter stays the population count if and only if the run does not begin at block 0; the answer is 0 if and only if there is no run or it begins at block 0. |
| KernelAlloc.SbInfo.PutInode | src/bitmap.h:162-171 | Exactly that bit is set and the counter grows, or nothing changes; the counter is the population count afterwards if and only if the put was refused or the inode was taken. |
| KernelAlloc.SbInfo.PutBlocks | src/bitmap.h:174-185 | Exactly that run is set and the counter grows by its length, or nothing changes; the counter is the population count afterwards if and only if the put was refused or the whole run was taken. |
| KernelAlloc.PutFreeBits | src/bitmap.h:147-159 | Sets exactly the range, or refuses it when its last bit is more than one past the map. |
| KernelAlloc.PutKeepsCountIff | src/bitmap.h:147-185 | An accepted put gains exactly its length if and only if all of it was in the map and taken. |
| KernelAlloc.PutMiscounts | src/bitmap.h:147-185 | A second free and an overlong range that are accepted and break the counter. |
| KernelAlloc.UnlinkSymlink | src/inode.c:532-623 | The end of unlinking a symbolic link puts block 0 with its inode: accepted, counted, and both free afterwards, and nothing else. |
| KernelAlloc.GetAfterUnlink | src/bitmap.h:133-143 | The next request for one block then fails whatever is free, takes block 0 and leaves the counter wrong. |
| KernelRace.EveryRunIsSafe | src/bitmap.h:118-185 | Under every interleaving of lock-held calls by any callers, outstanding ranges are taken and pairwise disjoint, each of them can be given back through the bound test, each counter is the population count, and free plus outstanding bits are constant. |
| KernelRace.GetIsSafe | src/bitmap.h:118-143 | A get keeps the safety of a pool. |
| KernelRace.PutIsSafe | src/bitmap.h:162-185 | A put of a held range keeps the safety of a pool. |
| KernelRace.DoGetInode | src/bitmap.h:118-127 | The allocator call is a step of the state machine from every safe state. |
| KernelRace.DoGetBlocks | src/bitmap.h:133-143 | The same for runs of blocks. |
| KernelRace.DoPutInode | src/bitmap.h:162-171 | Giving back a held inode is a step of the state machine. |
| KernelRace.DoPutBlocks | src/bitmap.h:174-185 | The same for a held run of blocks. |
| KernelExtent.ValidateExtents | src/extent.c:31-68 | Accepts exactly the indexes with lengths in bounds and contiguous logical blocks, with a 32-bit running sum. |
| KernelExtent.NoOverflow | src/extent.c:31-68 | A validated index maps at most 170 x 524288 blocks, so no end of an extent leaves 32 bits. |
| KernelExtent.ExtSearch | src/extent.c:94-136 | The binary search is the linear scan; the first unused slot, or full, when the block is absent. |
| KernelExtent.ExtSearchWithHint | src/extent.c:143-174 | Every hint gives the answer of the linear scan. |
| KernelFile.GetBlock | src/file.c:24-96 | Maps a mapped block to its place; otherwise appends a first-fit extent of the scheduled size; every error case exactly; the index stays valid and owned. |
| KernelFile.MapsWhereFoundIffAppend | src/file.c:59-84 | A newly mapped block is where a later search finds it if and only if it is the first past the mapped range. |
| KernelFile.GapIsMisplaced | src/file.c:59-84 | A concrete state in which block 5 of an empty file is mapped to the place of block 0. |
| KernelFile.GotIsAfter | src/file.c:24-96 | A creating call maps the block if and only if the state allows it, and the state it leaves is determined by the state before. |
| KernelWrite.WriteBegin | src/file.c:494-557 | A write is accepted if and only if the size tests pass, its blocks can be mapped one after the other, each in the state the ones before leave, and the pages are prepared; otherwise bitmap, counter and index are exactly as before; on success without a gap every block asked for is mapped. |
| KernelWrite.ReclaimRestores | src/file.c:538-555 | Reclaiming everything gained since a state gives exactly this state back. |
| KernelWrite.Trim | src/file.c:592-629 | Exactly the extents that begin past the reserved block are given back; the index stays valid. |
| KernelWrite.TrimKeepsContent | src/file.c:584-629 | Every block below the end of the file keeps its physical block. |
| KernelCreate.NewInode | src/inode.c:181-284 | First free inode and block, or nothing changed. |
| KernelCreate.Create | src/inode.c:311-436 | Each outcome is decided by the state before: name too long, directory full, no free inode, block or run of 8, unreadable block; every failure restores bitmaps, counters, index and entry count exactly; success takes the first free inode and block, and a run of 8 for an unused extent slot. |
| KernelCreate.SlotInsideIff | src/inode.c:362-366 | The computed block of a new entry lies inside the 8 blocks of its extent if and only if the extent holds fewer than 120 entries. |
| KernelCreate.SlotsInOrder | src/inode.c:362-366 | Inside the extent, successive entry counts name successive slots. |
| KernelDir.FillKeepsDense | src/inode.c:387-393 | Writing the entry to the slot with the number of the count keeps the used slots a prefix and the count right. |
| KernelDir.LookupAfterFill | src/inode.c:387-393 | Afterwards the new name is found with its inode number and every other name is answered as before. |
| KernelEntry.CreateEntry | src/inode.c:311-436 | Creating a name that is not there, in a dense directory of one extent: a failure changes nothing; success adds exactly this name for every lookup, and keeps the entry count right, if and only if fewer than 120 entries were there. |
| KernelDir.RemoveFromDir | src/inode.c:438-512 | The slots afterwards are the old ones without the first that has the inode number, in order, with an empty slot at the end; without such a slot nothing changes; the used slots stay a prefix and the count follows. |
| KernelDir.FlatCompacted | src/inode.c:465-480 | Compaction is the old sequence of slots without that one, in order, with an empty slot at the end. |
| KernelDir.CompactedDense | src/inode.c:438-512 | Used slots stay a prefix. |
| KernelDir.Lookup | src/inode.c:131-158 | Stopping at the first empty slot agrees with a scan of every slot. |
| KernelXattrRecords.FindEntry | src/xattr.c:74-114 | Walks the aligned records and finds the key at its offset if and only if it is there. |
| KernelXattrRecords.ReadInvertsStore | src/xattr.c:74-114 | The store is read back as exactly the entries written, so it determines them. |
| KernelXattrBuffer.CloseGap | src/xattr.c:229-233 | The move leaves the bytes before and after the record, adjacent. |
| KernelXattrBuffer.StoreWithout | src/xattr.c:223-236 | Closing the gap of a record removes exactly this entry from the store. |
| KernelXattrBuffer.AppendRecord | src/xattr.c:368-395 | The new buffer is the old data followed by the padded record, built field by field. |
| KernelXattrBlocks.ReadRun | src/xattr.c:40-66 | Copies the blocks of the run, the last one cut to size. |
| KernelXattrBlocks.WriteRun | src/xattr.c:416-432 | What is written to the run reads back as the buffer. |
| KernelXattr.XattrInode.Get | src/xattr.c:117-173 | Returns the value of the map, its length when asked for it, a refusal when the buffer is too small, or that there is none. |
| KernelXattr.XattrInode.Set | src/xattr.c:176-444 | The answer, flags and lack of space included, is decided by the state before; on success the key moves to the end of the list with its new value and count, size and run follow; otherwise no entry changes; the count is wrong afterwards if and only if the condition `Miscounts` holds before. |
| KernelXattr.XattrInode.Delete | src/xattr.c:199-267 | Removes exactly this key; count, size and blocks follow; otherwise nothing changes. |
| KernelXattr.PutIsUpdate | src/xattr.c:321-340 | A set updates exactly one key of the map and keeps keys distinct. |
| KernelXattrRun.RunOps | src/xattr.c:176-444 | After any run of sets, with both flags, and deletes, refused ones included, the store is the resulting map, every answer fits the map before it, and the 32-bit count is the size of the map less the number of replaces that ran out of space. |
| KernelXattrRun.MiscountShown | src/xattr.c:318-356 | A concrete store that holds one attribute and counts none, after a replace by a value that is too long. |
| KernelXattrRun.List | src/xattr.c:447-522 | All full names with a final NUL, their total length when asked for it, or a refusal when they do not fit. |
| KernelXattrRun.FreeBlocks | src/xattr.c:525-555 | Exactly the data run and the index block are given back. |
| MkfsBitmap.ClearLine | src/mkfs.c:226-235 | The mask loop clears the lowest bits of one word, up to the count. |
| MkfsBitmap.FirstBlock | src/mkfs.c:206-239 | Exactly the first bits of the block are cleared. |
| MkfsBitmap.CountFree | src/fsck.lolelffs.c:470-488 | The block, byte and bit loops count exactly the free bits of the valid numbers that the bitmap has. |
| Mkfs.LayoutOk | src/mkfs.c:36-56 | The regions are adjacent, in range and large enough, and the counters right, if and only if the block count after the cut to 32 bits is between 6 and 4294967264. |
| Mkfs.Make | src/mkfs.c:403-409 | Refuses images of at most 100 blocks; otherwise writes the described image. |
| Fsck.Checker.Run | src/fsck.lolelffs.c:63-502 | Counts no error and no warning if and only if the image is clean: sane fields, a root directory of one block inside the data area, counters equal to the bits, inode 0 and block 0 taken; otherwise the exact numbers. |
| Fsck.SuperSilentIff | src/fsck.lolelffs.c:63-223 | The superblock tests are silent if and only if magic, version, sizes, algorithm numbers and extent limits are in range, the counts are consistent, and the 32-bit sum of the regions is at most the number of used blocks. |
| Fsck.LayoutInsideIff | src/fsck.lolelffs.c:197-215 | A superblock without errors describes regions that fit the device together with the free blocks if and only if the 32-bit sum of the regions does not wrap. |
| Fsck.WrappedLayoutPasses | src/fsck.lolelffs.c:210-215 | A superblock that names more bitmap blocks than the device has and passes every superblock test. |
| Fsck.Checker.CheckBitmap | src/fsck.lolelffs.c:401-502 | One error for a wrong count and one for a free bit 0. |
| Fsck.MkfsPasses | src/mkfs.c:206-248 | What mkfs writes, with the used prefix in the first bitmap block, passes every check if and only if the block count after the cut to 32 bits is at least 100. |
| RustImage.RootReport | src/fsck.lolelffs.c:226-303 | The root of every sound disk draws an error if and only if it has no block, always the size warning, one warning for each missing owner permission, and nothing else. |
| RustImage.IndexReport | src/fsck.lolelffs.c:306-398 | The root's index block of every sound disk draws nothing. |
| RustImage.SoundDiskReport | src/fsck.lolelffs.c:63-502 | The exact errors and warnings of the whole check on every sound disk of a created size, with and without a password; an unknown cipher number stops it at the superblock. |
| Codecs.IndexRoundTrip | lolelffs-tools/src/types.rs:429-486 | An extent index reads back as written if and only if it has 170 slots. |
| Codecs.IndexToBytes | lolelffs-tools/src/types.rs:464-486 | The appending loop writes the specified block. |
| Codecs.IndexFromBytes | lolelffs-tools/src/types.rs:429-461 | The reading loop is the specified reader. |
| RecordCodecs.InodeStoreRoundTrip | lolelffs-tools/src/fs.rs:233-328 | Writing an inode reads back as written and leaves every other inode alone. |
| RecordCodecs.SuperRoundTrip | lolelffs-tools/src/fs.rs:85-203 | The superblock takes 164 bytes and reads back as written. |
| RecordCodecs.EntryRoundTrip | lolelffs-tools/src/types.rs:535-577 | A directory entry reads back as written if and only if its name has 1 to 254 bytes and no NUL. |
| IndexCodecs.XattrRoundTrip | lolelffs-tools/src/types.rs:652-715 | An attribute index reads back as written if and only if it has 170 slots. |
| IndexCodecs.XattrToBytes | lolelffs-tools/src/types.rs:692-715 | The appending encoder writes the specified block. |
| IndexCodecs.WriteXattrIndex | lolelffs-tools/src/xattr.rs:93-121 | The patching encoder writes the very same bytes. |
| IndexCodecs.XattrFromBytes | lolelffs-tools/src/types.rs:652-689 | The cursor decoder is the specified reader. |
| IndexCodecs.ReadXattrIndex | lolelffs-tools/src/xattr.rs:26-90 | The offset decoder agrees with it on every block. |
| IndexCodecs.MetaRoundTrip | lolelffs-tools/src/types.rs:358-415 | Compression metadata reads back up to 1022 entries and not at all from 1023 on. |
| RustOnDisk.IndexReadsBack | lolelffs-tools/src/types.rs:429-486 | The index block of every inode of a sound disk fits its fields and its 170 slots and reads back from its bytes. |
| RustOnDisk.XattrIndexReadsBack | lolelffs-tools/src/types.rs:652-715 | The attribute index of every inode of a sound disk that has one fits its fields and its 170 slots and reads back from its bytes. |
| RustOnDisk.InodeFitsIff | lolelffs-tools/src/fs.rs:233-328 | The record of every inode of a sound disk fits its fields if and only if its link count is below 2^32. |

## Left out

- RustFile.WriteFile: what a write whose data cannot be sealed leaves of its own file is not described, only that nothing else changed.
- RustFormat.Create: block counts from 4294967264 up, where the inode count leaves 32 bits.
- Fuse.Truncate: sizes above 2^32 - 4096, as for every file.
- Fuse.Write: end offsets above 2^32 - 4096, as for every file.
- RustXattrSet.SetXattr: nothing is said about the view after storing an entry that does not fit its record, only about the stored bytes.
- RustLink.Link: the link count is unbounded; the 32-bit wrap-around of `i_nlink` is not modelled.
- Mkfs.Make: asks that the used prefix of the image lies in the first bitmap block, which the source states as its own assumption and does not test.
- Fsck.Checker.Run: an image whose superblock passes but names no bitmap block, names more bits than there are 32-bit numbers, or whose blocks cannot be read.
- KernelWrite.Trim: leaves out the case that all 170 extents are in use and none holds the block after the end, where the search has no slot to return.
- KernelDir.RemoveFromDir: the used slots form a prefix beforehand, which the kernel keeps but a directory written by the Rust library may not have.
- RustEntry.AddDirEntry: the branch for a directory without an index block is left out, because no operation makes one.
- KernelCreate.Create: the slot it fills is not part of its state; `KernelEntry.CreateEntry` adds it, for directories of one extent.
- KernelEntry.CreateEntry: directories of several extents, and blocks of a new extent that still hold old bytes, which the source does not clear.
- Ciphers, key derivation and compressors themselves.
- Kernel rename, symlink, the rest of unlink and directory iteration; the page cache, writeback, ioctl and module code.
- `resolve_path`, `statfs`, `unlock`, permission and mode changes, timestamps and the command line tools.
- I/O errors other than the ones named in the table, and crashes in the middle of an operation.
- The byte contents of directory blocks inside the typed disk: they are connected to it by the round trips, not block by block.
