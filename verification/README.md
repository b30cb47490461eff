# DenyFS volume model

A Dafny model of the DenyFS on-disk file system (`src/fs.c`, `src/fs.h`) and of the size check that the
dashboard makes before an upload (`dashboard/server.py`), with proofs of what the code does.

The open volume is the class `DenyVolume` (`Volume.dfy`): the container's sectors, the cached bitmap, dirty
flags, inode table and counters, and `ReadBlock`/`WriteBlock` with sector encryption and the write guard.
Every operation of `src/fs.c` is a method over that class with the source's branches, order of steps, loops
and error codes. Its value `View()` is a `Vol` (`FileMap.dfy`), and the properties are stated on that value.

How the proofs are built up:

- A *slot* is any place that can hold a block number of a file: direct pointers, the two table pointers of the
  inode, and the entries of pointer tables. `Ref` reads a slot and `SetRef` writes one, through tables that are
  themselves blocks. The ownership invariant (`Ownership.Core`) says that every block the bitmap marks is
  metadata, is referred to by exactly one slot, or is *pending*: allocated and not linked yet.
- `Growth.Mapping` adds exact block counts and the absence of empty tables. `FileSystem.Consistent` adds inode
  shapes, the free-inode count and the directory; it holds on every return of every call on a host that does
  not fail. `Sound` (nothing mapped past a file's size) is what the loader accepts, and `Good` (and zeros past
  the end) is what successful calls keep.
- `FileSystem.Table` is the map from names to byte strings that a volume stands for.
- `Persist.Clean` (a bitmap sector that is not dirty is on disk as in memory) and `OnDisk` carry persistence.
- Truncation and unlinking work on pointer tables held in local buffers. `Truncate.Shadow` relates the volume
  to the one in which those buffers have already been written back.
- The loader is proved through the order in which it visits slots (`Scan.Rank`); the last step is the
  pigeonhole argument on the number of claims (`Checker.ClaimsExact`).

- `Image`, `Accepts` and `Reader` say in words, bytes and offsets what the encoders and decoders of `Codec` say in
  functions: where each field stands, which images are accepted, what format writes, and which files a reader finds
  that knows nothing but the offsets.

Host I/O: a volume with `faulty` set may have any read, write or flush fail; a failed write leaves its sector
unchanged. `Reliable` means that no read or write fails and the guard never refuses. Time is a parameter.

Two results where the code does not meet the plain property:

- A write that runs out of space part way can leave blocks mapped past the file's size, and the volume then
  cannot be opened again. `Smallest.ShortWriteExample` does this from formatting on; `ShortWrites.LoadableAfterWrite`
  says, for every write, exactly from which states the volume stays loadable, and `LongestPrefix` how much a write
  that runs out of space has stored.
- The dashboard's size check is enough for up to 4 GiB of files in all (`Capacity.CapacityTheorem`,
  `Uploads.AcceptedFits`) and not beyond (`Capacity.PrecheckTooWeak`, `Capacity.TooWeakForReal`,
  `Uploads.AcceptedTooMuch`). What decides is the files' full cost with their pointer tables and the directory's
  blocks: an upload succeeds if and only if that fits (`Uploads.UploadFile`, `Uploads.Upload`).

`Vault.StoreAndReopen` puts the parts together: check the upload, create the container, mount it, store the files,
and open it again. The files come out exactly as they went in. `Vault.MakeDeniable` does the same for a container
with a hidden volume. What these ask of ciphers and passwords can be met (`Header.CryptoExists`).

Check the project with `dafny verify dfyconfig.toml`.

## Model

| member | source | states |
|---|---|---|
| FileMap.PathBijection | src/fs.c:349-369 | The direct/single/double split is a bijection between logical blocks below 20 + 1024 + 1024² and pointer paths |
| FileMap.EveryOffsetHasPath | src/fs.h:14-18 | Every byte offset below the 4 GiB file limit has a path |
| Codec.PointersRoundTrip | src/fs.c:123-130 | A pointer table written as a block and read back is the same table |
| Codec.SectorRoundTrip | src/fs.c:123-130 | Every block is the image of the pointer table read from it |
| Codec.PackSectorRoundTrip | src/fs.c:292-304 | Bit b % 8 of byte b / 8 of the packed bitmap is the bit of block b |
| Codec.SectorPackRoundTrip | src/fs.c:1168-1173 | Loading a bitmap sector into bits and packing it again gives the sector back |
| Codec.InodeRoundTrip | src/fs.h:53-63 | An inode packed into its 128-byte record of the inode table is read back unchanged |
| Codec.DirentRoundTrip | src/fs.h:65-70 | A directory entry stored in place is read back unchanged |
| Codec.DirentFrame | src/fs.h:65-70 | Storing one directory entry leaves the other fifteen of its block alone |
| Codec.SuperblockRoundTrip | src/fs.h:36-51 | The superblock's fields survive encoding into block 0 |
| Image.SuperblockFields | src/fs.h:36-51 | The magic number is at byte 0, the ten words from block_size to free_inodes at 8 to 44 in the order of the C structure, the HMAC at 48, zeros from 80 on, in what is written as in what is read |
| Image.PointerWords | src/fs.c:123-130 | Entry i of a pointer table is the word at byte 4i |
| Image.BitmapByte | src/fs.c:292-304 | The bit of block b is bit b % 8, counted from the lowest, of byte b / 8 of the bitmap's sectors |
| Image.InodePlace | src/fs.h:53-63 | Inode i is record i % 32 of sector i / 32, with type at byte 0, size at 4, block count at 12, direct pointers from 16, table pointers at 96 and 100, time at 104 |
| Image.DirentFields | src/fs.h:65-70 | Directory entry i is at byte 256i of its block: inode number at 0, name length at 4, name from 5 |
| Image.FlushedImage | src/fs.c:1202-1231 | After a flush superblock, bitmap and inode table stand in their blocks with these words and bytes; free_blocks is at byte 40 and free_inodes at byte 44 of block 0 |
| Reader.ReaderFinds | src/fs.c:344-376 | In every image that open accepts, a reader that takes words and bytes from the offsets of the format finds exactly the files of the table, by name and contents |
| Reader.FlushedReads | src/fs.c:1202-1231 | So it does in every image that a flush leaves behind |
| Volume.DenyVolume.ReadBlock | src/fs.c:18-28 | A read decrypts the container's sector of an in-range block under the block's number, or fails |
| Volume.DenyVolume.WriteBlock | src/fs.c:30-50 | A write encrypts the block into its one sector of the container and changes no other, or changes nothing; out-of-range and guarded blocks are refused; sectors outside the writable range never change |
| Volume.DenyVolume.AllocBlock | src/fs.c:292-304 | First fit: the lowest free data block is marked, counted and flagged dirty; -1 exactly when none is free |
| Volume.DenyVolume.FreeBlock | src/fs.c:306-317 | Frees a used data block, adjusting counter and dirty flag; anything else is ignored |
| Ownership.Conservation | src/fs.c:292-317 | Free blocks, owned blocks and pending blocks add up to the data area |
| Ownership.NoSharing | src/fs.c:111-121 | No block is referred to by two slots |
| Ownership.SetRefGet | src/fs.c:401-404 | Storing a block number in a slot is seen through that slot and no other, through tables that are blocks themselves |
| Ownership.Attach | src/fs.c:392-468 | Linking an allocated block into an empty slot keeps the ownership invariant |
| Ownership.Detach | src/fs.c:1453-1459 | Unlinking a block keeps the ownership invariant |
| Ownership.SetBitCore | src/fs.c:292-304 | Allocating keeps the ownership invariant; the block had no owner |
| Ownership.ClearBitCore | src/fs.c:306-317 | Freeing an unlinked block keeps the ownership invariant |
| BlockMap.ReadPointerTable | src/fs.c:123-130 | Yields the table of a used data block, and fails on any other block |
| BlockMap.GetFileDataBlock | src/fs.c:344-376 | Finds the physical block of a logical block at all three levels; a hole for absent tables; -EINVAL past the last block |
| BlockMap.AllocateFileDataBlock | src/fs.c:378-472 | Exact update or no-op, with any write allowed to fail: on success exactly the missing slots of the block are filled with blocks that were free, zeroed, counted; on failure bitmap, counters, inodes and all blocks in use are as before; -ENOSPC only when fewer blocks are free than needed |
| BlockMap.AllocateFilled | src/fs.c:319-342 | Taking and initialising one block, or giving it back when the write fails |
| Growth.GrownFrom | src/fs.c:378-472 | Reserving blocks, linking them and counting the data block add up to the exact update |
| Files.RangeCost | src/fs.c:1409-1420 | Storing one block of a range spends exactly what the range no longer needs |
| Bytes.WrittenStep | src/fs.c:1409-1436 | One turn of the write loop stores exactly its chunk, across block boundaries, and accounts for its cost |
| Bytes.WrittenCost | src/fs.c:1409-1436 | A complete write has spent exactly the missing data blocks and tables of its range |
| Access.VolWrite | src/fs.c:1395-1445 | Refusals; on success the file is the old bytes with the range replaced and gaps zero, the size is max(old, offset + n) even for n = 0, mapped blocks stay where they are and the range has no hole left, exactly the range's price is spent, the time is set, and all metadata is flushed; on every return the volume is consistent; on a reliable host -ENOSPC if and only if the price exceeds the free blocks |
| Access.VolRead | src/fs.c:1350-1389 | Returns exactly the file's bytes from the offset, clamped to its size, holes as zeros |
| Calls.ReadAndWriteRefusals | src/fs.c:1350-1403 | EINVAL from inode 64 or 2^31 bytes on, EISDIR for what is no file, ENOSPC for a write that ends past 4 GiB, in this order, and no other refusal |
| Calls.WriteSplices | src/fs.c:1395-1445 | The bytes of a file after a write, as slices of the old ones: replaced, continued, or continued after a gap of zeros |
| Calls.ReadBack | src/fs.c:1350-1445 | A read of the written range returns what was written, a read outside it what it returned before |
| Access.ModifyBlock | src/fs.c:1422-1432 | The read-modify-write of one block |
| FileOps.WriteDone | src/fs.c:1438-1441 | A complete write keeps every invariant and no byte past any file's end becomes non-zero |
| FileOps.FileChangedTable | src/fs.c:1395-1445 | A call on one file changes the map of names to bytes at that file's name and nowhere else |
| FileOps.OtherContents | src/fs.c:1395-1445 | Bytes of other files are untouched |
| FileSystem.TableUnique | src/fs.c:1561-1583 | A volume with a good directory stands for exactly one map of names to bytes |
| Truncate.TruncateFileBlocks | src/fs.c:1451-1523 | The whole cutting loop over direct, single and double blocks, with tables held in buffers: exactly the blocks from the new count on are unlinked and freed, tables exactly when empty |
| Truncate.CutEntries | src/fs.c:1468-1476 | The loop over one table frees and clears its entries past the cut and counts the rest |
| Truncate.CutChild | src/fs.c:1487-1513 | One child table: freed and cleared in the root when it has lost its last entry, written back otherwise |
| Resizing.CutRestricts | src/fs.c:1451-1523 | A data block or table of the file stays owned if and only if it serves a block below the cut; the free set gains exactly the rest, and the free counter their number |
| Resizing.ZeroTailBlock | src/fs.c:1534-1548 | The rest of the new last block is zeroed |
| Resizing.VolTruncate | src/fs.c:1525-1555 | Refusals; map restricted, bytes past the new size zero, contents cut or zero-extended, invariants kept, the time set, metadata flushed; nothing at all when the size is the same; on a reliable host it never fails otherwise |
| Resizing.CutToMeaning | src/fs.c:1533-1551 | After a truncation nothing is mapped past any size and all tails are zero, so extending reveals no old byte |
| Calls.TruncateRefusals | src/fs.c:1525-1530 | EINVAL, EISDIR, ENOSPC past 4 GiB, in this order, and no other refusal |
| Flush.VolFlush | src/fs.c:1202-1231 | Superblock, dirty bitmap sectors and inode table reach the disk; on success everything on disk equals memory, word by word and byte by byte in its place, on failure the dirty flags still cover what is missing |
| Persist.TrackedClean | src/fs.c:292-317 | Between flushes a bitmap sector not flagged dirty equals its disk copy |
| Directory.VolLookup | src/fs.c:1259-1283 | Finds the entry of a name or establishes that there is none; -EINVAL for empty and overlong names |
| Directory.LookupMeaning | src/fs.c:1259-1283 | A name is found if and only if it is in the table of files, with the inode that holds its contents |
| Directory.VolReadDir | src/fs.c:1561-1583 | Hands over the live entries in slot order, up to the entry at which the callback stops |
| Directory.ListingMeaning | src/fs.c:1561-1583 | The listing has every name of the table of files once, with the inode that holds its contents |
| Directory.ListingOrder | src/fs.c:1561-1583 | The listing is in the order of the slots |
| Dirents.AddedTable | src/fs.c:478-526 | Adding an entry for a new file adds the name to the table of files and changes no other |
| Dirents.RemovedTable | src/fs.c:528-553 | Removing an entry removes exactly that name |
| Create.AddDirent | src/fs.c:478-526 | Uses the first free slot; adds a block exactly when all slots are in use; fails on a reliable host exactly when there is no room |
| Create.VolCreate | src/fs.c:1289-1329 | On success an empty file of that name and time exists, in the first free inode and the first free slot, and all else is as before, at the price of one block if the directory was full; the error on a reliable host is determined, and a failed create changes at most the time of a free inode |
| Calls.CreateRefusals | src/fs.c:1289-1303 | EINVAL for an empty name, one of more than 250 bytes, with a slash, or a dot name; then EEXIST for a name in use; then ENOSPC for want of an inode, or of a slot and a block; and no other refusal |
| Create.UndoneMeaning | src/fs.c:1316-1322 | After a failed create inode, counter, directory and table of files are restored |
| Create.FullDirectory | src/fs.c:504-505 | A full directory has at most 3 blocks: live entries pair off with at most 63 file inodes |
| Create.RoomForEntry | src/fs.c:504-508 | The directory-full branch is dead: an entry cannot be added only when no block is free |
| Create.RootStaysSmall | src/fs.c:519-524 | Creating files never takes the root directory past 4 blocks |
| Unlink.FreeInodeBlocks | src/fs.c:570-613 | free_inode returns exactly the file's direct, single- and double-indirect data blocks and all its tables |
| Unlink.RemoveDirent | src/fs.c:528-553 | Frees the slot of the name, in place |
| Unlink.VolUnlink | src/fs.c:1331-1344 | The name is gone, the inode free, other files untouched, exactly the file's blocks free again, metadata flushed; -ENOENT if and only if there is no such name |
| Reclaim.UnlinkInverse | src/fs.c:570-613 | Create, any steps that change only the file, and unlink restore the free set, but for the block that a full directory gained |
| Reclaim.Lifetime | src/fs.c:1289-1344 | The calls themselves: a file created, written and truncated any number of times, complete or cut short, and unlinked leaves the free blocks of before |
| Checker.ClaimBlock | src/fs.c:111-121 | A claim succeeds only on a used data block not yet claimed; a failed claim means no assignment of owners is sound |
| Checker.ClaimsExact | src/fs.c:255-265 | Pigeonhole: as many distinct claims as used data blocks, so the claimed blocks are exactly those |
| Checker.CheckFile | src/fs.c:164-250 | The scan of one file's direct, single and double blocks decides exactly whether its map is sound |
| Checker.CheckDirectory | src/fs.c:267-298 | Entries valid, names and inodes distinct, entries and file inodes in bijection, or refusal |
| Checker.NameCount | src/fs.c:280-283 | The fixed name table cannot overflow before another check fails |
| Checker.ValidateLoadedMetadata | src/fs.c:132-290 | Accepts if and only if some assignment of owners makes the volume sound |
| Open.SuperblockValid | src/fs.c:85-109 | The superblock of every sound volume passes validate_superblock |
| Accepts.SuperblockAccepted | src/fs.c:85-109 | The words that block 0 must hold to be accepted, and exactly those |
| Accepts.OpensExactly | src/fs.c:1131-1195 | An image is accepted exactly if block 0 holds these words, the HMAC at byte 48 is that of the bitmap's blocks, and all metadata checks out |
| Accepts.InodeAccepted | src/fs.c:132-170 | The shape that the loader demands of the root's, a file's and a free inode, and exactly that; block counts apart |
| Accepts.DirentAccepted | src/fs.c:73-83 | What a valid entry looks like in the bytes of its block, and exactly that |
| Open.LoadedIsFlushed | src/fs.c:1131-1195 | Loading what a flush wrote gives back the flushed state to the last bit |
| Open.Persistence | src/fs.c:1131-1195 | After a flush of a sound state, opening succeeds and rebuilds exactly that state |
| Open.LoadedClean | src/fs.c:1160-1173 | A freshly loaded volume has every bitmap sector in memory as on disk |
| Open.OpenVolume | src/fs.c:1131-1195 | Without read errors opening succeeds exactly on acceptable images; what it returns is sound and mirrors the disk |
| Format.FormatGood | src/fs.c:619-716 | A formatted volume satisfies every invariant and has no files |
| Format.FormatVolume | src/fs.c:619-716 | For every accepted size the blocks become the flushed image of an empty file system; nothing outside the volume is written, whatever fails |
| Accepts.FormatSizes | src/fs.c:619-633 | Format accepts exactly whole blocks, from 5 to 2^32 - 9 of them |
| Accepts.FormattedImage | src/fs.c:619-716 | The image of an empty file system, block by block in words, bits and bytes |
| Format.FormattedOpens | src/fs.c:85-109 | What format wrote is accepted by open |
| Layout.FindTarget | src/fs.c:1019-1129 | Which part of the container an open mounts: from sector 1 on with what the outer header says, or up to the hidden header with what that one says, never over a header; an outer mount with protection asked for has its guard at the hidden volume's first sector or fails, a hidden mount never has a guard |
| Layout.TargetCases | src/fs.c:1042-1129 | Every case of an open by what the password and the guard's password make of the two headers, with the place, size and guard that come out |
| Layout.HiddenUnguarded | src/fs.c:1092-1093 | A hidden mount is the same whatever the guard's password |
| Layout.OpenContainer | src/fs.c:941-1195 | Opening by password mounts that part, guarded as asked |
| Layout.CreateSizes | src/fs.c:724-728 | The sizes accepted for a container: from 1 MiB to 2^25 - 1 MiB |
| Layout.ContainerCreate | src/fs.c:722-820 | Every size from 1 MiB on yields a container that its password opens, holding an empty file system in its first half; size 0 is refused |
| Layout.PartsDisjoint | src/fs.c:850-862 | When a hidden volume has been made, outer header, outer volume, hidden volume and hidden header are disjoint and inside the container |
| Layout.CreateHidden | src/fs.c:826-935 | On any host EINVAL for the same password twice, for size 0 and from 2^24 MiB on; on a host that does not fail EACCES exactly when the outer volume does not open, ENOSPC exactly when it ends past the first sector of the hidden one, and success otherwise; on success the hidden header and an empty hidden volume are in place, and a refusal changes nothing; outer header and volume are unchanged on every return |
| Layout.OuterUntouched | src/fs.c:826-935 | The outer password leads to the same place and the same blocks as before, and if the volume opened it opens with the same files |
| Layout.OuterGuarded | src/fs.c:1092-1129 | On the resulting container the guard starts past the last block of the outer volume |
| Layout.HiddenOpens | src/fs.c:911-923 | The hidden password mounts the new volume, which opens, formatted, whatever password is given for the guard |
| Guard.GuardNeverFires | src/fs.c:33-39 | With the guard past the volume no in-range write is refused |
| Guard.PerformAll | src/fs.c:30-50 | Any sequence of block writes and cache changes, of any data to any block, from any state of a protected mount and on any host, leaves the container from the guard on as it was |
| Guard.AnyCall | src/fs.c:1202-1583 | One call on a host that may fail and a guard that may refuse: sectors outside the writable range are unchanged, and which answers leave the volume consistent for sure |
| Guard.Session | src/fs.c:1092-1129 | A protected session of calls that goes on after failures and refusals, and the flush of the unmount, even when the volume's range overlaps the guard: nothing from the guard on changes; it ends early only at an interrupted create, unlink or truncation |
| Layout.DocumentedContainer | README.md:155-157 | An 8203 MiB container has room for a 4101 MiB hidden volume, an 8202 MiB one has not |
| Header.CryptoExists | src/crypto.h:27-43 | There are ciphers and passwords as the container needs them, and two passwords that reject each other's headers |
| ShortWrites.LongestPrefix | src/fs.c:1409-1420 | A write that runs out of space has stored the longest prefix in whole chunks that the free blocks pay for |
| ShortWrites.LoadableAfterShortWrite | src/fs.c:1415-1420 | After it the volume can be opened again if and only if, before the call, the free blocks did not suffice for the bytes up to one past the blocks of the old size |
| ShortWrites.LoadableAfterWrite | src/fs.c:1395-1445 | After any write that is not refused a sound volume can be opened again if and only if the free blocks sufficed for the whole write, or not even for that part of it |
| Smallest.ShortWriteExample | src/fs.c:1415-1420 | Format 6 blocks, mount, create a file, write two blocks to it, flush, open: the write fails for want of space and the open is refused |
| Runs.Run | src/fs.c:1259-1583 | A run of any calls on a mounted volume answers like a map from names to byte strings and keeps the invariant after each call; it stops only at a write that needs more blocks than are free |
| Runs.Call | src/fuse_ops.c:45-202 | One call by name; a create of a new name succeeds exactly if an inode and room for the entry are free; a call that succeeds leaves a state that reopening gives back exactly |
| Runs.CreateAnswered | src/fs.c:1289-1329 | A create of a new name fails exactly if no inode is free, or the directory is full and no block is free |
| Runs.RootStaysSmallInRun | src/fs.c:504-524 | On a run from a formatted volume the root directory never takes more than 4 blocks |
| Runs.FormattedReady | src/fs.c:619-716 | A formatted volume is where a run can start, with no files |
| Runs.FollowsMore | src/fs.c:1259-1583 | Appending a call's answer to a run keeps the correspondence |
| Capacity.PathSlotsCount | src/fs.c:378-472 | A file of n data blocks without holes occupies exactly Cost(n) blocks |
| Capacity.WriteFits | src/fs.c:1409-1420 | Space depends on sizes alone: if the files at their new sizes fit at full cost, the write has its blocks, wherever holes are |
| Capacity.FullFileOwns | src/fs.c:378-472 | A file without holes owns at least its full cost, so that bound is sharp |
| Capacity.CapacityTheorem | dashboard/server.py:681-688 | Up to 63 files of at most 4 GiB in all that pass the check never run out of space |
| Capacity.DirectoryFits | dashboard/server.py:681-688 | Nor does the directory when it has to grow |
| Capacity.NeverOutOfSpace | dashboard/server.py:681-688 | So no write to a file whose new size passes the check cuts a run short |
| Capacity.FourGibFile | README.md:155-157 | A full 4 GiB file passes the check on 4101 MiB and not on 4100 MiB, and costs 1049601 blocks |
| Capacity.SlackLeft | dashboard/server.py:681-688 | For every total the check asks for 5 MiB and for one byte in 1024 beside the files, room for a pointer table per 1024 data blocks, and refuses only when one of the two is missing |
| Capacity.SixGib | dashboard/server.py:681-688 | 6 GiB pass on 12300 MiB and not on 12298 MiB, where 5 MiB would be left |
| Capacity.PrecheckTooWeak | dashboard/server.py:681-688 | 4 GiB and 1 GiB pass the check on 1312000 blocks and need 1312047 |
| Capacity.TooWeakForReal | dashboard/server.py:681-688 | No sound volume of that many blocks holds both files in full |
| Capacity.CheckUpload | dashboard/server.py:594-688 | The checks accept exactly 1 to 63 distinct names of 1 to 250 bytes without slash, backslash or control character, no dot names, of at most 4 GiB each, for a container of 8 to 65536 MiB half of which holds the total with 5 MiB and with a 1024th of it to spare |
| Uploads.SafeIsValid | dashboard/server.py:68-75 | Every name that the dashboard accepts is a name that a directory entry can hold |
| Uploads.AppendPrice | src/fs.c:1409-1420 | Appending to a file without holes needs exactly the difference of the full costs |
| Uploads.AppendFull | src/fs.c:1409-1436 | An append leaves no hole |
| Uploads.TornGone | dashboard/server.py:860-866 | Unlinking a file whose write ran out of space makes the volume loadable again, with the other files as they were |
| Uploads.UploadFile | dashboard/server.py:847-866 | Create, write in pieces, unlink on failure: all of the file or no change to any; succeeds if and only if name, inode and full cost with the directory's block are free, and spends exactly that |
| Uploads.FullByCount | src/fs.c:478-526 | With n entries the directory takes another block exactly when n is a positive multiple of 16 |
| Uploads.NextFits | dashboard/server.py:681-688 | There is room for the next file if and only if it fits together with those already there |
| Uploads.Upload | dashboard/server.py:829-878 | On a fresh volume all files are stored if and only if they fit at full cost, directory included; otherwise exactly those before the first that does not fit are there |
| Uploads.AcceptedFits | dashboard/server.py:681-688 | What the dashboard accepts fits, up to 4 GiB in all |
| Uploads.AcceptedTooMuch | dashboard/server.py:681-688 | 4 GiB and 1 GiB are accepted for a 10250 MiB container and do not fit it |
| Vault.MakeDeniable | src/fs.c:722-935 | Container, hidden volume, guarded outer mount and hidden mount: made if and only if both sizes are positive and the hidden volume has its place behind the outer one; both are then at their places, empty and free of refusals, with the guard at the hidden volume |
| Vault.DashboardHiddenFits | dashboard/server.py:648-651 | The hidden size that the dashboard asks for always has its place |
| Vault.StoreAndReopen | dashboard/server.py:660-750 | Check, create, mount, store, reopen: the reopened vault holds exactly the files, and so does a reader of its blocks by offsets; made if and only if accepted and fitting, and up to 4 GiB acceptance is enough |

## Left out

- Resizing.VolTruncate: when a read or write of the host fails part way, only the container outside the volume and the bitmap's dirty flags are accounted for; the code itself leaves freed blocks in tables it has not written back.
- Unlink.VolUnlink: the same holds for an unlink that a host failure interrupts after the entry is gone.
- Create.AddDirent: the same holds when the write of a newly linked directory block fails, which leaves that block uninitialised.
- Volume.DenyVolume.WriteBlock: a failed sector write is taken to leave the sector unchanged; torn sectors, crashes and power loss are not modelled.
- Volume.DenyVolume.AllocBlock: volumes have at most 2^31 blocks; beyond that the source's cast of the block number to int makes it negative.
- Layout.OpenContainer: header encryption and key derivation are one uninterpreted function per password that opens what it sealed; sector encryption is, for every key, any function with its inverse; the HMAC is, for every key, any function of the bitmap; salts and initialisation vectors are part of sealing.
- Guard.Session: calls after a create, an unlink or a truncation that was interrupted part way; what they could do to the container is covered by Guard.PerformAll.
- Uploads.Upload: the files come one after the other and the first refusal ends it; the dashboard would go on with the others and then refuse to finish.
- Uploads.UploadFile: the kernel passes a file's pieces on in order, each as one write.
- Bitmap bits are kept as booleans in memory and packed only where sectors are read or written.
- Reserved bytes of the superblock and of inode records are zeros.
- Local buffers of a call (pointer tables, blocks, the claimed bitmap, the name table) are values, not shared memory.
- NULL arguments, memory exhaustion, LONG_MAX bounds of file offsets and container sizes that are not whole sectors.
- Words are little-endian, as on the platforms the project targets.
- The readdir callback is a function of the entries handed over so far.
- AES-XTS, AES-GCM, Argon2id, HKDF and HMAC themselves, deniability and timing.
- denyfs_vol_close, mtime beyond being the time passed in, the FUSE adapter's attributes, the command line, and the dashboard apart from the size check; its check of deniable vaults is the same arithmetic on two volumes.
