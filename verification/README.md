# A Dafny model of MyOSv2's algorithms

This project models the self-contained algorithms of a small operating system and proves what they are
for. `dafny verify dfyconfig.toml` checks all of it. Objects whose C functions change fields in place are
classes with those fields; the loops over arrays, lists and rings are loops over arrays, lists and rings;
each method is proved against a specification on values, and the lemmas are about that specification.

**The ext2 driver** (`src/ext2.c`), bottom up. `ext2_tree.dfy` says what an inode reaches: a slot is a path
of at most three pointer blocks below one of 15 root pointers, and the global invariant is that no two slots
of any inodes share a block and that every pointer is a hole or a used block. `ext2_alloc.dfy` is the bitmap
allocator with its cached counts, `ext2_map.dfy` the allocating block map, `ext2_free.dfy` the release of a
whole tree. `ext2_file.dfy` makes files byte sequences, `ext2_dirblock.dfy` and `ext2_dir.dfy` make packed
directory blocks lists of entries at the level of bytes, `ext2_namespace.dfy` counts entries against
`i_links_count`, `ext2_volume.dfy`, `ext2_steps.dfy`, `ext2_names.dfy`, `ext2_symlink.dfy`, `ext2_unlink.dfy`
and `ext2_rename.dfy` put create, symlink, link, unlink and rename together, `ext2_lookups.dfy` says what a
lookup sees of them, and `ext2_layout.dfy` what the words of all these contracts come to on the disk, byte by
byte. `Volume.Inv` (exact block accounts, tiled directories, exact link counts) is kept by all
five on every path, success or failure, with two exceptions whose exact conditions are part of the contracts:
a 16-bit link count that wraps, and the text of a fast symlink at its last name. `Kept` in `ext2_steps.dfy` is
what each call leaves alone: every inode and every byte of every file outside a named set, and closed books (a
block is used exactly if some inode owns it, `i_blocks` is exact).

**The Lisp core** (`src/lm_core.c`). `lisp_gc.dfy` is the mark-and-sweep collector on arbitrary, also cyclic,
heaps: `Collect` keeps exactly what is reachable. `lisp_text.dfy` is the grammar of the reader and the form
the printer gives, with their round trip, `lisp_reader.dfy` the cursor and the buffer that do it, and
`lisp_laws.dfy` says what each form of text reads as for every inner text.

**The redisplay engine** (`src/rd_core.c`). `text_props.dfy`, `text_buffer.dfy` and `text_ops.dfy` are the gap
buffer with its interval table: a document is a sequence of characters with property lists, and every edit
and every property update is a pointwise change of it. `win_tree.dfy` and `win_frame.dfy` are the window tree
in its node pool. `redisplay.dfy` is the diff loop: incremental painting equals full painting.

**The kernel heap** (`src/kheap.c`, `src/pmm.c`), **the scheduler** (`src/sched.c`) with bounded waiting in
`sched_fair.dfy`, **pipes** as steps of the scheduler's current thread (`src/pipe.c`), **TCP reassembly** and
**the retransmission timeout** (`src/tcp_reasm.c`, `src/tcp_rto.c`) follow the same pattern.

## Where the code and what is said about it differ

The model follows the code. Each of these is a lemma with the exact condition under which the promise holds,
or a clause of the method's contract.

- A write that ends at or past 4 GiB does not leave the spliced file, since `i_size` is cut to 32 bits
  (`WriteContent`, `WriteWraps`, `LastByteLost`).
- `i_links_count` wraps at 65535 links without a check (`NameAddedExactly`, `DirNamedExactly`,
  `DirMovedExactly`; `CountLost` is an input; `Create`, `Link`, `MoveEntry` and `Rename` keep the invariant if
  and only if it does not).
- A file renamed onto its own name in the same directory is unlinked first and does not come back
  (`Rename`, `MoveOntoItself`; `OntoItselfGone` is an input).
- Unlinking the last name of a fast symlink passes its text to the block release. The marks stay, and the
  invariant with them, if and only if the walk over the text meets no marked block (`Unlink`, `MarksSurvive`,
  `LostMark`); for targets of up to 48 bytes that is: none of their words is the number of a marked block
  (`ShortText`). The target "a" frees block 97 (`LetterA`, `LetterABreaks`).
- `rd_buf_delete` with a negative count leaves the text alone but moves intervals (`NegativeDelete`,
  `NegativePushes`).
- A damage rectangle that has run out of slots is said to grow; it can lose its right edge
  (`GrownCovers` for one step, `AllReported` for a whole call, `LostCell` for an input).
- A run of 2^52 pages or more wraps in 64 bits (`AllocPages`, `WholeSpace`), and so does the page count of a
  request near 2^64 bytes (`NoWrap`, `HugeRequest`).
- `bmap_alloc` is said to be total. From file block 12 + 256 + 256^2 + 256^3 on, that is from byte
  17247252480, its index into the triple indirect block is 256 or more (`TopIndex`).
- The timeout is clamped after a sum that can wrap in 32 bits, so a huge sample can give the smallest one
  (`Sample` has the exact condition, `WrapsToFloor` an input).
- The reader and the printer undo each other on a fragment only (`SymbolTrip` and `StringTrip` are
  equivalences; `RoundTrip` builds lists on them).
- A full interval table leaves a property put on a prefix of the range (`PutProp`; `StopsAt` says which prefix,
  `StopsOnce` that there is only one).

## Model

| member | source | states |
|---|---|---|
| `Ext2Tree.IndexOfPath` | src/ext2.c:381-404 | the block map is one-to-one: different file blocks go to different slots, across direct, single, double and triple indirect pointers |
| `Ext2Tree.PathOfIndex` | src/ext2.c:381-404 | ... and onto: every data slot below the 15 root pointers is some file block |
| `Ext2Tree.FrameAll` | src/ext2.c:366-404 | writing blocks no inode owns moves no slot of any inode, at any depth |
| `Ext2Tree.Hang` | src/ext2.c:428-548 | hanging a fresh zeroed block at one empty slot keeps ownership exclusive and grounded, and changes that slot only |
| `Ext2Tree.SameOwned` | src/ext2.c:763-831 | the owned set of an inode depends on its slots only |
| `Ext2Alloc.Ext2.BitmapFindFree` | src/ext2.c:253-259 | the first clear bit, or -1 exactly when there is none |
| `Ext2Alloc.Ext2.AllocBlock` | src/ext2.c:265-288 | claims the lowest free block, adds exactly it to the used set, and keeps every group count and the superblock count equal to the clear bits; 0 exactly when nothing is free |
| `Ext2Alloc.Ext2.FreeBlock` | src/ext2.c:292-308 | on any number: its mark goes if it lies in the groups and had one, and the counts follow; nothing happens otherwise |
| `Ext2Alloc.NumberInGroups` | src/ext2.c:282-300 | the bit arithmetic of alloc_block and free_block is inverse: every block number belongs to one bit of one group |
| `Ext2Alloc.ClearFlip` | src/ext2.c:272-304 | setting one clear bit changes the number of clear bits by one |
| `Ext2Alloc.Claim` | src/ext2.c:265-288 | one bit set, one group count and the superblock count one lower: the counts stay exact and the used set grows by that block |
| `Ext2Alloc.Release` | src/ext2.c:292-308 | the inverse of Claim |
| `Ext2Free.FreeCount` | src/ext2.c:265-308 | the cached superblock count is the number of blocks no bitmap marks, summed over all groups |
| `Ext2Map.Bmap` | src/ext2.c:381-404 | bmap returns the block the four-shape tree holds for that index, 0 for a hole |
| `Ext2Map.AllocZeroedBlock` | src/ext2.c:441-449 | a block that was free, now used and all zero |
| `Ext2Map.EnsureRoot` | src/ext2.c:454-481 | an empty root pointer is filled with a fresh block; no other slot changes |
| `Ext2Map.EnsureChild` | src/ext2.c:419-436 | an empty entry of a pointer block is filled with a fresh block; no other slot changes |
| `Ext2Map.BmapAlloc` | src/ext2.c:454-548 | after bmap_alloc the map holds the returned block; blocks gained were free, lie on the path to that index, and 0 is returned only on a full disk |
| `Ext2Map.TopIndex` | src/ext2.c:515-526 | the walk's first index stays inside the triple indirect block's 256 entries exactly for block numbers below 12 + 256 + 256^2 + 256^3 |
| `Ext2Map.ExtendsMap` | src/ext2.c:454-548 | bmap is unchanged at every other index of the inode, at an index that had a block, and at every index of every other inode |
| `Ext2Map.ExtendsBytes` | src/ext2.c:441-548 | bmap_alloc changes no byte of any file: a claimed data block reads as the hole it replaced |
| `Ext2Map.ExtendsSectors` | src/ext2.c:441-548 | i_blocks grows by exactly two per block gained, data and pointer blocks alike |
| `Ext2Map.ExtendsTrans` | src/ext2.c:454-548 | growth steps compose: gains are disjoint from what was used before |
| `Ext2Map.DropKeeps` | src/ext2.c:911-970 | a caller that drops the grown in-memory inode leaks blocks at worst: the stored tree is still consistent |
| `Ext2Free.OwnedIsSlots` | src/ext2.c:763-814 | the walk of free_inode_blocks reaches exactly the blocks the inode owns |
| `Ext2Free.FreeIndirect` | src/ext2.c:763-814 | on any pointer block, the marks lost are those of the numbers handed to free_block; unless the walk reads a bitmap block while it loses marks, those are what the pointer block said beforehand, entry by entry, then the block itself |
| `Ext2Free.FreeDouble` | src/ext2.c:763-814 | the same one level up |
| `Ext2Free.FreeTriple` | src/ext2.c:763-814 | ... and two |
| `Ext2Free.FreeInodeBlocks` | src/ext2.c:763-814 | on an inode of a consistent table free_block is called once for each block the inode owns and for no other number, and the used set loses exactly those; on any other i_block[] the marks lost are those of the numbers handed over, read off the disk as it was unless the walk reads a bitmap block while it loses marks; i_block[] is all zero |
| `Ext2Free.CallsOnce` | src/ext2.c:763-814 | exclusive ownership makes the walk below any slot meet no number twice |
| `Ext2Free.SlotsOnce` | src/ext2.c:763-814 | ... and the walk over all 15 slots |
| `Ext2Free.TreeCalls` | src/ext2.c:763-814 | the numbers a consistent inode hands over are exactly its blocks, each once, none of them metadata |
| `Ext2Free.ReleaseKeeps` | src/ext2.c:763-831 | after the release every other inode keeps its slots and blocks, and the free count grew by the number of blocks the inode owned |
| `Ext2File.Read` | src/ext2.c:581-609 | returns exactly the requested slice clamped to i_size, holes as zeros; the rest of the buffer is untouched |
| `Ext2File.Write` | src/ext2.c:724-757 | the bytes written are laid over the file and nothing else changes in any file; short only on a full disk; i_size and i_blocks follow |
| `Ext2File.WriteContent` | src/ext2.c:724-757 | below 4 GiB the content after a write is the old one, zero-extended, with the written bytes spliced in, and the stored tail stays zero |
| `Ext2File.WriteWraps` | src/ext2.c:753-755 | at or past 4 GiB it is not: i_size has 32 bits (the other half of the exact condition) |
| `Ext2File.LastByteLost` | src/ext2.c:753-755 | an input that fails: one byte at offset 2^32 - 1 is stored and leaves an empty file |
| `Ext2File.WriteOthers` | src/ext2.c:724-757 | every other file keeps its content |
| `Ext2File.SpliceReads` | src/ext2.c:581-757 | reading back what was written gives the data, and two adjoining writes are one write |
| `Ext2File.DataWrite` | src/ext2.c:740-750 | rewriting a data block changes the bytes of one block of one file and moves no slot |
| `Ext2File.Truncate` | src/ext2.c:819-830 | the inode is empty, its blocks are free again, the free count grew by exactly their number, and every other file keeps its bytes |
| `Ext2DirBlock.AddInBlock` | src/ext2.c:857-889 | the first entry with enough slack takes the new one, and there is a refusal exactly when no entry has it; the block stays tiled by rec_len and its list gains exactly that entry at that place |
| `Ext2DirBlock.RemoveInBlock` | src/ext2.c:1083-1103 | the first entry of the name is absorbed or left as a hole; the block stays tiled and loses exactly that entry |
| `Ext2DirBlock.RetargetInBlock` | src/ext2.c:1117-1127 | the first ".." points elsewhere; the block stays tiled |
| `Ext2DirBlock.LookupInBlock` | src/ext2.c:669-680 | the scan finds the inode of the first entry of that name, 0 if there is none |
| `Ext2DirBlock.NameEq` | src/ext2.c:649-655 | name_eq holds exactly for equal names |
| `Ext2DirBlock.SplitSlot` | src/ext2.c:874-881 | shrinking an entry to its real length and putting a new one behind it keeps the tiling and adds one live entry |
| `Ext2DirBlock.Absorb` | src/ext2.c:1092-1095 | adding a removed entry's span to its predecessor keeps the tiling and drops one live entry |
| `Ext2DirBlock.InsertFind` | src/ext2.c:847-905 | adding an absent name changes the name map at that name only |
| `Ext2DirBlock.RemoveFind` | src/ext2.c:1075-1105 | removing a name changes the name map at that name only, and leaves nothing there if names were distinct |
| `Ext2DirBlock.InsertDistinct` | src/ext2.c:847-905 | adding an absent name keeps names distinct |
| `Ext2Dir.Lookup` | src/ext2.c:660-682 | finds the first entry of that name over all blocks of the directory |
| `Ext2Dir.AddEntry` | src/ext2.c:847-905 | the directory gains exactly that entry, in the first block with a slack, or in a new block exactly when there is none; every other directory is as before, the used set gains what the directory gains, and balanced books stay balanced; false only on a full disk |
| `Ext2Dir.UnlinkEntry` | src/ext2.c:1075-1105 | the directory loses its first entry of that name, or nothing if it is absent; no block changes owner |
| `Ext2Dir.OthersBytes` | src/ext2.c:847-1128 | a directory operation changes no byte of any other file |
| `Ext2Dir.EditBlock` | src/ext2.c:884-886 | rewriting one block of a directory edits its list in place and leaves all other lists alone |
| `Ext2Dir.GrowKeepsDir` | src/ext2.c:893-904 | a block claimed past the end changes no list |
| `Ext2Dir.DropKeepsDir` | src/ext2.c:893-895 | ... even if the grown inode is dropped on a full disk |
| `Ext2Namespace.NameAdded` | src/ext2.c:1188-1207 | one more name for a file: all link counts still equal the entries that name each inode |
| `Ext2Namespace.NameAddedExactly` | src/ext2.c:1204-1205 | the stored 16-bit count stays exact if and only if it was below 65535 |
| `Ext2Namespace.CountLost` | src/ext2.c:1204-1205 | an input that fails: an inode with 65535 names gets one more and its stored count is 0 |
| `Ext2Namespace.FileNamed` | src/ext2.c:911-970 | the first name of a new file: its count 1 is exact |
| `Ext2Namespace.DirNamed` | src/ext2.c:929-969 | a new directory with its two own entries and one name: counts 2 and parent + 1 are exact |
| `Ext2Namespace.DirNamedExactly` | src/ext2.c:961-965 | ... and with the stored 16-bit count if and only if the parent had fewer than 65535 links |
| `Ext2Namespace.NameDropped` | src/ext2.c:1003-1018 | one name less: counts stay exact, and the count reaches zero exactly when no entry names the inode |
| `Ext2Namespace.DirRenamed` | src/ext2.c:1135-1181 | a directory renamed within its parent leaves every count exact |
| `Ext2Namespace.DirMoved` | src/ext2.c:1160-1179 | a directory moved to another parent: its "..", one link less for the old parent and one more for the new keep every count exact |
| `Ext2Namespace.DirMovedExactly` | src/ext2.c:1172-1177 | ... and with the stored 16-bit count if and only if the new parent had fewer than 65535 links |
| `Ext2Volume.Volume.AllocInode` | src/ext2.c:315-337 | the lowest inode number that is neither allocated nor reserved, 0 exactly when none is left |
| `Ext2Steps.NewDir` | src/ext2.c:929-949 | a directory with one direct block and two sectors for it, holding "." and "..", otherwise as given; every other inode and file is as before, and the block it gained was free; on a full disk nothing is left of it |
| `Ext2Steps.UpdateDotDot` | src/ext2.c:1109-1128 | the first ".." of the directory names the new parent, no other entry of any directory changes |
| `Ext2Steps.ReleaseInode` | src/ext2.c:1016-1021 | the inode is gone, its blocks are free, every other inode, file and directory is as before, and balanced books stay balanced |
| `Ext2Names.Create` | src/ext2.c:911-970 | on success one entry and one inode are new: a file of mode 0x81A4 with one link, no bytes, no sectors and no blocks, or a directory of mode 0x41ED with two links, 1024 bytes and two sectors for its one block, listing "." and ".."; no other inode or file changes but the parent, and balanced books stay balanced; on failure no name, inode or link differs and no used block is lost; all invariants hold on every path if and only if the parent's 16-bit count does not wrap |
| `Ext2Names.Symlink` | src/ext2.c:1040-1068 | the same for a fast symlink of 1 to 60 bytes; other lengths are refused |
| `Ext2Names.Link` | src/ext2.c:1188-1207 | one more name, of the right type, and one more link for a file or symlink; no other list, inode, file or symlink changes; directories are refused; all invariants hold if and only if the 16-bit count does not wrap |
| `Ext2Symlink.ShortText` | src/ext2.c:1053-1058 | read as block numbers, a target of up to 48 bytes is harmless if and only if none of its 12 words is the number of a marked block |
| `Ext2Symlink.LetterA` | src/ext2.c:1053-1058 | an input that fails: the target "a" is the block number 97, harmless if and only if block 97 has no mark |
| `Ext2Symlink.MarksSurvive` | src/ext2.c:763-831 | the walk over the text of a symlink leaves the bitmaps as they are if and only if it meets no mark, and then it writes nothing |
| `Ext2Symlink.LostMark` | src/ext2.c:763-831 | with balanced books a mark lost to that walk breaks the block accounts |
| `Ext2Symlink.FreeText` | src/ext2.c:1016-1021 | the release of a symlink's inode: files, directories and counts stay, marks exactly if the text is harmless |
| `Ext2Symlink.ShortIsSafe` | src/ext2.c:1148-1153 | the same condition, up to 48 bytes, on the disk before the entry is removed |
| `Ext2Unlink.Unlink` | src/ext2.c:976-1032 | drops the first entry of that name and one link of a file or symlink; the inode is freed, with exactly its blocks, if and only if no entry anywhere names it any more; no other inode or file changes; all invariants hold, except at the last name of a symlink, where they hold if its text is harmless and, with balanced books, only then |
| `Ext2Unlink.LetterABreaks` | src/ext2.c:1016-1018 | unlinking the last name of a symlink to "a" breaks them where block 97 is in use |
| `Ext2Rename.Rename` | src/ext2.c:1135-1181 | one entry moves, with its type, a file in the way is unlinked first, a directory in the way refuses; no inode or symlink is touched but the directories and what is in the way, on failure too; all invariants hold on every path if and only if no directory moves under a parent with 65535 links; onto its own name only the unlink remains |
| `Ext2Rename.MoveEntry` | src/ext2.c:1156-1179 | the entry half: new name in, old name out, and ".." and both parents' counts follow a directory; the invariants hold if and only if the new parent's count does not wrap |
| `Ext2Rename.MoveOntoItself` | src/ext2.c:1156-1168 | with both names the same, the entry goes in and out again |
| `Ext2Rename.OntoItselfGone` | src/ext2.c:1148-1168 | an input: inode 3 with the one name "a", renamed onto it; name and inode are gone |
| `Ext2Rename.ClearName` | src/ext2.c:1148-1153 | what is in the way of a rename: nothing, a file that is unlinked, or a directory that refuses; at the last name of a symlink the invariants hold if its text is harmless and, with balanced books, only then |
| `Ext2Lookups.AddedSeen` | src/ext2.c:660-905 | as lookups see it, adding a name changes the answer for that name in that directory only |
| `Ext2Lookups.DroppedSeen` | src/ext2.c:976-1105 | as lookups see it, unlink removes that name and no other |
| `Ext2Lookups.RenamedSeen` | src/ext2.c:1135-1181 | as lookups see it, the new name answers what the old one did, the old one nothing, ".." of a directory that changed parents the new parent, and no other name changes |
| `Ext2Layout.BitIs` | src/ext2.c:246-257 | bit i of a bitmap is bit i % 8 of byte i / 8, the lowest bit first |
| `Ext2Layout.MarkIs` | src/ext2.c:283-300 | block x has a mark exactly if bit (x - first) % blocks_per_group of the bitmap of group (x - first) / blocks_per_group is set |
| `Ext2Layout.ClaimedIs` | src/ext2.c:265-288 | alloc_block took the lowest block without a mark, and no other mark and no block but a bitmap changed |
| `Ext2Layout.DroppedIs` | src/ext2.c:292-308 | free_block takes that one mark and touches no block but a bitmap |
| `Ext2Layout.MapIs` | src/ext2.c:366-404 | the tree of slots is the block map spelled out in four-byte little-endian words: 12 direct blocks, then 256, 65536 and 16777216 through one, two and three levels |
| `Ext2Layout.OwnedIs` | src/ext2.c:381-404 | what an inode owns holds each block of its map and each pointer block on the way to it |
| `Ext2Layout.ConsistentIs` | src/ext2.c:763-831 | no two inodes own the same block, and what they own is in use |
| `Ext2Layout.BalancedIs` | src/ext2.c:763-831 | the books are balanced: i_blocks is two sectors for each block owned, and a block in use has an owner |
| `Ext2Layout.ByteIs` | src/ext2.c:590-606 | byte k of a file is byte k % 1024 of block k / 1024 of its map, zero in a hole |
| `Ext2Layout.SpliceIs` | src/ext2.c:724-757 | a write leaves the bytes in front of it, its own, and those behind it, with zeros over a gap |
| `Ext2Layout.EntryIs` | src/ext2.c:134-144 | an entry is its inode number in bytes 0 to 3, rec_len in 4 and 5, name_len in 6, the type in 7, then the name |
| `Ext2Layout.ScanIs` | src/ext2.c:669-680 | a scan steps by rec_len, in multiples of four, and ends with the block exactly |
| `Ext2Layout.EntriesIs` | src/ext2.c:664-680 | a directory lists the entries of its blocks in order, a hole none |
| `Ext2Layout.SlackIs` | src/ext2.c:833-866 | an entry has room for a name if its span less what its own name takes, nothing for a hole, holds eight bytes and the name, rounded up to four |
| `Ext2Layout.InFirstIs` | src/ext2.c:857-889 | the block that took an entry is the first that had room for it, and the only one written |
| `Ext2Layout.FindIs` | src/ext2.c:669-680 | a lookup answers the first entry of that name |
| `Ext2Layout.RemovesIs` | src/ext2.c:1083-1103 | a removal takes the first entry of that name out of the list and nothing else |
| `Ext2Layout.RetargetsIs` | src/ext2.c:1117-1127 | a retargeting keeps name and type of the first entry of that name and gives it the other inode |
| `Ext2Layout.OccIs` | src/ext2.c:1003-1018 | the references of a directory to an inode are the places of its list that name it |
| `Ext2Layout.NamesIs` | src/ext2.c:911-1207 | an entry names an allocated inode whose stored count is the number of references, and a directory stands under one proper name, where its ".." points |
| `Ext2Layout.RefsIs` | src/ext2.c:1003-1018 | the references to an inode add up directory by directory |
| `Ext2Layout.EnteredIs` | src/ext2.c:911-1207 | one entry more in one list, every other list as it was |
| `Ext2Layout.MoreIs` | src/ext2.c:1204-1205 | a link more, modulo 2^16, on the inode or the symlink named, and on no other |
| `Ext2Layout.LessIs` | src/ext2.c:1009-1023 | a link less, and an inode with one or none goes, no other |
| `Ext2Layout.SettledIs` | src/ext2.c:1009-1023 | after a link less the blocks in use are those before, less what went with its last name |
| `Ext2Layout.TypeIs` | src/ext2.c:1156-1160 | the type an entry records is 7 for a symlink, 2 for a directory, 1 for anything else |
| `Ext2Layout.KeptIs` | src/ext2.c:911-1207 | an inode that a call does not name keeps mode, size, sectors, block pointers and content |
| `Ext2Layout.UnlinksIs` | src/ext2.c:976-1032 | an unlink takes the first entry of the name out of that list; no other list changes, and the inode goes exactly when nothing names it any more |
| `Ext2Layout.RenamedIs` | src/ext2.c:1135-1168 | after a rename the new directory has an entry of the new name with the old inode and its type |
| `Ext2Layout.TextIs` | src/ext2.c:1053-1058 | word k of a fast symlink's i_block[] is bytes 4k to 4k + 3 of its text, little endian, zeros behind it |
| `Ext2Layout.TextUnlinksIs` | src/ext2.c:1016-1018 | at the last name of a symlink with up to 48 bytes the marks stay if and only if none of the twelve words is the number of a marked block |
| `LispGc.Gc.MarkPtr` | src/lm_core.c:241-268 | marks the object, and with it everything its new marks point at; every mark set is on a live object; terminates on cyclic heaps |
| `LispGc.Gc.Mark` | src/lm_core.c:270-274 | immediates and null are skipped, anything else is marked |
| `LispGc.Gc.IsHeapObject` | src/lm_core.c:279-286 | true exactly for addresses of listed objects |
| `LispGc.Gc.ScanWords` | src/lm_core.c:289-297 | every word that could be the address of an object marks it |
| `LispGc.Gc.Sweep` | src/lm_core.c:299-318 | keeps exactly the marked objects, in list order, with cleared marks and unchanged fields; the count is the list's length |
| `LispGc.Gc.Collect` | src/lm_core.c:320-349 | keeps exactly the objects reachable by car, cdr, function and value from the proper roots and from scanned words naming an object; their fields are unchanged |
| `LispGc.Gc.Alloc` | src/lm_core.c:214-237 | a fresh object in front of the list; a collection at the threshold frees only the unreachable |
| `LispGc.ClosedCovers` | src/lm_core.c:241-268 | a set closed under pointers that holds the roots holds every reachable object |
| `LispGc.NodeDone` | src/lm_core.c:246-266 | one turn of the mark loop leaves one pointer pending and closes everything else |
| `LispGc.CollectAgain` | src/lm_core.c:320-349 | a second collection with the same root words frees nothing |
| `LispGc.NothingLiveFreed` | src/lm_core.c:320-349 | whatever a survivor of the kinds cons, closure and symbol points at with its two words survives |
| `LispGc.RootsKept` | src/lm_core.c:320-340 | what a proper root points at, and an object a scanned word names, survives |
| `LispGc.LiveIsLeast` | src/lm_core.c:241-349 | nothing else does: any set with the roots that is closed under the two words of conses, closures and symbols holds every survivor |
| `LispGc.Unlinked` | src/lm_core.c:299-318 | relinking through the previous next field removes one node from the list |
| `LispText.RoundTrip` | src/lm_core.c:461-595 | reading printed text gives the value back and stops right behind it, for proper lists of 61-bit numbers, symbols and strings of the fragment |
| `LispText.SymbolTrip` | src/lm_core.c:496-580 | a symbol reads back as itself if and only if it is one token of 1 to 255 characters, no number, and does not start with a quote or # |
| `LispText.StringTrip` | src/lm_core.c:476-585 | a string reads back as itself if and only if it has no quote or backslash and at most 4095 characters |
| `LispText.NumeralTrip` | src/lm_core.c:98-208 | printing a number and parsing it gives it back |
| `LispText.ShowLength` | src/lm_core.c:198-208 | a printed 61-bit number has at most 20 characters, so the digit buffer never overflows |
| `LispReader.ParseFixnum` | src/lm_core.c:98-110 | the whole token as a signed decimal; 64-bit wrap does not show in the 61 bits kept |
| `LispReader.Reader.GetC` | src/lm_core.c:161-173 | the next character: pushed back first, then the text |
| `LispReader.Reader.SkipWhitespace` | src/lm_core.c:467-474 | skips spaces and comments |
| `LispReader.Reader.ReadString` | src/lm_core.c:476-494 | the string up to its closing quote, escapes resolved, cut at 4095 |
| `LispReader.Reader.ReadAtom` | src/lm_core.c:496-510 | a token up to a delimiter, cut at 255, as a number or a symbol |
| `LispReader.Reader.ReadList` | src/lm_core.c:512-521 | agrees with the grammar; an open list is an error |
| `LispReader.Reader.Read` | src/lm_core.c:523-553 | agrees with the grammar and leaves unread exactly what it does; one pushed-back character is enough |
| `LispReader.Writer.PutC` | src/lm_core.c:186-194 | appends until the buffer is full, then drops |
| `LispReader.Writer.Long` | src/lm_core.c:198-208 | the decimal digits of the number, sign first |
| `LispReader.Writer.Print` | src/lm_core.c:559-595 | the buffer holds what fits of the printed form, whichever list and element structure it has |
| `LispReader.PrintThenRead` | src/lm_core.c:461-595 | print into a large enough buffer, read it: the same value |
| `LispLaws.Quotes` | src/lm_core.c:531-534 | a quote in front of any text reads as (quote x), x being what the text reads as |
| `LispLaws.Dispatches` | src/lm_core.c:535-543 | #' in front of any text reads as (function x), # in front of anything else is an error |
| `LispLaws.Closes` | src/lm_core.c:546-548 | a closing parenthesis outside a list is an error |
| `LispLaws.Fragment` | src/lm_core.c:461-595 | the fragment of the round trip has all 61-bit numbers, the symbols and strings that read back, and all lists of its values |
| `LispLaws.Spaces` | src/lm_core.c:467-474 | the six space characters in front of a value or of the rest of a list change nothing |
| `LispLaws.Comments` | src/lm_core.c:467-472 | neither does a comment with the end of its line; at the end of the text it reads as the end |
| `LispLaws.Delimiters` | src/lm_core.c:500-502 | a token ends in front of a space, a parenthesis, a double quote or a semicolon, and nowhere else |
| `LispLaws.Tokens` | src/lm_core.c:496-510 | a run of characters up to a delimiter reads as the atom its first 255 characters are |
| `LispLaws.Numbers` | src/lm_core.c:98-110 | digits, with or without a sign, are that number in 61 bits |
| `LispLaws.Symbols` | src/lm_core.c:98-110 | a lone sign, and a token with a character that is no digit behind its first, is the symbol of that name |
| `LispLaws.Decimals` | src/lm_core.c:98-110 | a digit more is ten times the value and the digit |
| `LispLaws.Fixnums` | src/lm_core.c:98-110 | a number word keeps the 61 low bits as a signed number |
| `LispLaws.EscapeTrip` | src/lm_core.c:476-494 | every string of up to 4095 characters other than NUL, written with escapes for newline, tab, backslash and quote, reads back as itself |
| `LispLaws.Escapes` | src/lm_core.c:480-488 | a backslash makes n a newline, t a tab, and any other character itself |
| `LispLaws.Overlong` | src/lm_core.c:476-494 | a string is cut after 4095 characters, and the character behind the cut is lost |
| `LispLaws.Unclosed` | src/lm_core.c:476-494 | a string left open ends with the text |
| `LispLaws.Prints` | src/lm_core.c:559-595 | what each kind of value prints as; a list spreads over its rest, and a rest that is no list stands behind a dot |
| `LispLaws.PrintsNumber` | src/lm_core.c:198-208 | a number prints its digits without a leading zero, behind a minus if it is negative |
| `TextProps.GetPut` | src/rd_core.c:199-219 | plist_put binds one key and no other |
| `TextProps.GetRemove` | src/rd_core.c:199-244 | plist_remove unbinds one key and no other |
| `TextProps.GetRemoveAll` | src/rd_core.c:514-520 | removing several keys unbinds exactly those |
| `TextProps.PlistGet` | src/rd_core.c:199-211 | the first value under the key, nil if absent |
| `TextProps.PlistRemove` | src/rd_core.c:222-244 | the list without that key |
| `TextProps.PropsAt` | src/rd_core.c:396-403 | in a table the one interval over a position gives its properties |
| `TextProps.WithinIs` | src/rd_core.c:105-113 | text put strictly inside an interval takes its properties, text at its edges or outside does not |
| `TextProps.InsertProps` | src/rd_core.c:87-113 | characters before and after inserted text keep their properties; inserted ones have those of an interval they fall strictly inside of |
| `TextProps.InsertTable` | src/rd_core.c:110-113 | the table stays sorted, disjoint and inside the longer text |
| `TextProps.DeleteProps` | src/rd_core.c:133-159 | characters outside the deleted range keep their properties |
| `TextProps.DeleteTable` | src/rd_core.c:133-159 | the table stays sorted, disjoint, nonempty and inside the shorter text |
| `TextProps.NegativeDelete` | src/rd_core.c:117-159 | a negative count moves no text but moves intervals: the table is unharmed if and only if every interval ends before point |
| `TextProps.NegativePushes` | src/rd_core.c:117-159 | an input that fails: the interval [0, 3) of three characters, count -1 at 2, becomes [0, 4) |
| `TextProps.SplitProps` | src/rd_core.c:287-296 | cutting an interval in two changes no property |
| `TextBuffer.Buffer.CharAt` | src/rd_core.c:54-61 | the character at a text position, -1 outside |
| `TextBuffer.Buffer.GapMove` | src/rd_core.c:64-74 | moves the gap and nothing logical |
| `TextBuffer.Buffer.Insert` | src/rd_core.c:76-115 | the characters that fit are spliced in at point; everything else keeps its character and its properties |
| `TextBuffer.Buffer.Delete` | src/rd_core.c:117-161 | exactly min(n, point) characters before point go; all others keep character and properties |
| `TextBuffer.Buffer.SetPoint` | src/rd_core.c:163-169 | point is clamped to the nearer end of the text; the text and its properties stay |
| `TextBuffer.InsertDoc` | src/rd_core.c:76-115 | text and table together: the propertied document with the new characters spliced in |
| `TextBuffer.DeleteDoc` | src/rd_core.c:117-161 | text and table together: the propertied document without the deleted range |
| `TextOps.InsertAt` | src/rd_core.c:259-273 | the slots from there on move up by one; a full table refuses |
| `TextOps.RemoveAt` | src/rd_core.c:275-281 | the slots behind move down by one |
| `TextOps.SplitEdge` | src/rd_core.c:325-347 | afterwards no interval lies on both sides of the edge and no property has changed; it fails exactly when a slot is needed and none is left |
| `TextOps.PutProp` | src/rd_core.c:314-385 | no position outside the range given changes; with at most 126 intervals in the table every position of the text in the range takes the property on top of what it had; in general a prefix of the clamped range does: none of it if the edges find no slots, the whole range if and only if the holes do too, else up to the first hole that finds none, the table being full |
| `TextOps.StopsOnce` | src/rd_core.c:325-384 | that determines the prefix |
| `TextOps.SetProps` | src/rd_core.c:410-485 | the same for replacing the whole property list; dropping it, for nil, takes the whole range if the table has the slots for the two edges, and else nothing |
| `TextOps.RemoveProps` | src/rd_core.c:493-534 | no position outside the range given changes; inside it the keys are gone and every other key answers as before |
| `TextOps.GetProp` | src/rd_core.c:389-394 | the value of the property at a position |
| `TextOps.PutSeen` | src/rd_core.c:314-394 | after a put, that property at those positions answers the new value and every other question the old one |
| `TextOps.RemoveSeen` | src/rd_core.c:389-534 | after a removal, the removed properties answer nil there and nothing else differs |
| `TextOps.RunsGap` | src/rd_core.c:352-384 | each uncovered stretch of the range takes exactly one slot |
| `WinTree.NodeCount` | src/rd_core.c:708-747 | a tree of n leaves has 2n - 1 nodes |
| `WinTree.SplitTree` | src/rd_core.c:708-723 | splitting doubles one leaf in place in the leaf order |
| `WinTree.DeleteTree` | src/rd_core.c:727-747 | deletion leaves a tree of two nodes less; the leaf selected next is the sibling's first |
| `WinTree.DeleteShows` | src/rd_core.c:727-747 | deletion removes one leaf from the leaf order |
| `WinTree.FullCycle` | src/rd_core.c:756-767 | a sequence of n steps on n leaves meets every leaf exactly once, the one it started from last |
| `WinTree.Partition` | src/rd_core.c:997-1014 | the leaves' rectangles partition the area, whatever the truncated shares |
| `WinTree.Cuts` | src/rd_core.c:997-1014 | a split cuts its rectangle at its ratio in percent, rounded down: side by side if it is vertical, else one above the other, the first half left or on top |
| `WinTree.PutRects` | src/rd_core.c:708-1014 | a subtree replaced moves no rectangle outside of it and shares out the one it hangs in |
| `WinTree.SplitRects` | src/rd_core.c:708-1014 | after a split the selected window and the new one are the left and right, or upper and lower, halves of the old rectangle; every other window keeps its own |
| `WinFrame.Frame.Alloc` | src/rd_core.c:632-645 | the first free pool node, -1 when there is none |
| `WinFrame.Frame.Split` | src/rd_core.c:708-723 | the selected leaf becomes a split with that direction and ratio 50 of two leaves showing what it showed, the first one selected, and the rest of the tree stays; parents stay exact; refused, with nothing changed, exactly when fewer than two nodes are free |
| `WinFrame.Frame.Delete` | src/rd_core.c:727-747 | the tree is the old one with the sibling in the place of the split; parents stay exact; refused exactly on the last window |
| `WinFrame.Frame.OtherWindow` | src/rd_core.c:756-767 | selects the cyclic successor in leaf order |
| `WinFrame.Frame.Tour` | src/rd_core.c:756-767 | m calls of rd_other_window lead m places on; as many as there are leaves select every leaf exactly once and come back |
| `WinFrame.Frame.SetBuffer` | src/rd_core.c:769-773 | only the selected leaf shows something else |
| `WinFrame.Frame.DeleteOthers` | src/rd_core.c:778-786 | one window is left, showing what the selected one showed |
| `WinFrame.Frame.LayoutTree` | src/rd_core.c:997-1014 | every node below gets its rectangle and nothing else changes |
| `WinFrame.Frame.Layout` | src/rd_core.c:1016-1024 | the area above the echo lines is cut up among the leaves |
| `WinFrame.Frame.OneOwner` | src/rd_core.c:997-1024 | after a layout each cell lies in the rectangle of exactly one leaf |
| `Redisplay.PaintCell` | src/rd_core.c:1061-1092 | writes the cell's own rectangle and no other pixel |
| `Redisplay.Screen.Redisplay` | src/rd_core.c:1094-1136 | if the framebuffer showed the old grid and cursor it shows the new ones, as a full repaint would; front equals back; rectangles are the runs of changed cells in reading order, the last one taking in those that find no slot, and cover all changed cells if and only if the runs fit or taking in loses nothing |
| `Redisplay.PaintedUnique` | src/rd_core.c:1094-1136 | what a framebuffer shows of a grid is determined: incremental and full repaint agree pixel by pixel |
| `Redisplay.PaintedIs` | src/rd_core.c:1061-1092 | pixel (x, y) of a painted frame is that of cell (x / 20, y / 40), inverted at the cursor |
| `Redisplay.ChangedIs` | src/rd_core.c:1094-1118 | a cell is painted again unless its contents are the same and the cursor was and is there, or neither |
| `Redisplay.RunsIs` | src/rd_core.c:1119-1135 | the runs counted are the changed cells with no changed one behind them in their row |
| `Redisplay.RunOff` | src/rd_core.c:1119-1135 | a run ends where a cell did not change |
| `Redisplay.GrownCovers` | src/rd_core.c:1124-1131 | out of slots, the grown rectangle always covers the new run, and the old rectangle if and only if its left edge did not move or the run reaches its right edge |
| `Redisplay.MergeCovers` | src/rd_core.c:1124-1131 | after any number of runs the last rectangle covers them all if and only if, from some run on that reaches as far right as all before it, no run starts left of all before it |
| `Redisplay.AllReported` | src/rd_core.c:1113-1133 | over a whole call, every changed cell lies in a reported rectangle if and only if the runs fit their slots or the last slot loses nothing |
| `Redisplay.LostCell` | src/rd_core.c:1124-1131 | an input that fails: one slot, columns 5 and 6 of row 0 and column 3 of row 1 changed; the cell in row 0, column 6 is not reported |
| `Pmm.Pages.Alloc` | src/pmm.c:41-57 | a page nobody holds: a returned one first, else the frontier; 0 only when RAM is used up |
| `Pmm.Pages.AllocPages` | src/pmm.c:59-70 | a contiguous run of pages nobody holds, from the frontier; with 64-bit sums the n pages lie below the new frontier if and only if they fit into RAM without wrapping |
| `Pmm.WholeSpace` | src/pmm.c:63-68 | an input that fails: a run of 2^52 pages is handed out without moving the frontier |
| `Pmm.Pages.Free` | src/pmm.c:72-82 | the page is on the list once; a second free of it changes nothing |
| `Kheap.Heap.Grow` | src/kheap.c:44-70 | whole pages behind the last block, linked in; every byte obtained is accounted for |
| `Kheap.Heap.Take` | src/kheap.c:74-115 | split_block and the mark: the carved block and its rest are linked in place |
| `Kheap.Heap.Kmalloc` | src/kheap.c:92-116 | the first fit or fresh pages; one more live block, aligned and large enough, all others unchanged; 0 only when there is no room, and no two free blocks touch; for every size whose page count put behind the frontier stays below 2^64 |
| `Kheap.NoWrap` | src/kheap.c:44-49 | below that bound no 64-bit sum of grow_heap and pmm_alloc_pages wraps |
| `Kheap.HugeRequest` | src/kheap.c:44-54 | an input beyond it: for 2^64 - 4120 bytes grow_heap asks for no page |
| `Kheap.Heap.Kfree` | src/kheap.c:125-152 | the list is the old one with that block free, in one piece with each free neighbour that touches it; exactly that block is no longer live, blocks stay ordered and disjoint, no byte is lost, no two free blocks touch |
| `Kheap.CarveKeeps` | src/kheap.c:74-90 | splitting keeps order, disjointness and total bytes, and makes one block live |
| `Kheap.NextKeeps` | src/kheap.c:134-142 | merging with the block behind keeps order, bytes and live blocks |
| `Kheap.PrevKeeps` | src/kheap.c:143-151 | merging with the block in front leaves no two mergeable blocks |
| `Kheap.FreedIs` | src/kheap.c:125-152 | what kfree does to the list, neighbour by neighbour, with headers of 32 bytes |
| `Kheap.FreedHolds` | src/kheap.c:125-152 | a release and its merges give no address away and take none |
| `Kheap.CarvedHolds` | src/kheap.c:74-90 | neither does a split |
| `Kheap.CarvedIs` | src/kheap.c:74-90 | what is left of a block is one of its own exactly if it holds 40 bytes |
| `Kheap.Heap.AllocatedIs` | src/kheap.c:92-116 | the block handed out is the first fit, carved at its front, or whole pages behind the last block; the pointer is 32 bytes past the header |
| `Kheap.Roundings` | src/kheap.c:19-54 | requests are rounded up to eight bytes, and as many pages taken as hold them and a header |
| `Kheap.SplitLinked` | src/kheap.c:79-89 | the assignments of a split keep both link directions exact |
| `Kheap.MergeLinked` | src/kheap.c:135-151 | the assignments of a merge keep both link directions exact |
| `Kheap.PayloadsApart` | src/kheap.c:44-152 | a byte of a live payload lies in no header and in no other payload |
| `Kheap.FullyCoalesced` | src/kheap.c:125-152 | once everything is freed no two blocks touch |
| `Sched.Kernel.Schedule` | src/sched.c:403-446 | the first of the highest-priority runnable threads after current runs, alone; the ring stays one cycle |
| `Sched.Kernel.Pick` | src/sched.c:415-425 | the scan finds the first of the best |
| `Sched.ScheduledIs` | src/sched.c:403-446 | the thread that runs next is runnable, none has a higher priority, none between current and it has the same; current itself comes last; no other field of any thread changes |
| `Sched.Kernel.Block` | src/sched.c:354-362 | the thread sleeps on its channel and another one runs |
| `Sched.Kernel.Wake` | src/sched.c:383-398 | every thread waiting on the channel can run, nobody else changes |
| `Sched.Kernel.Tick` | src/sched.c:303-333 | due sleepers can run, nobody else changes; a reschedule is asked for exactly when a due sleeper outranks current or the slice is used up; the slice then starts again at 10 |
| `Sched.Kernel.Exit` | src/sched.c:458-484 | a zombie that stays linked, a parent that can run exactly if it slept, everybody else as before, and the scheduler's choice runs |
| `Sched.Kernel.Insert` | src/sched.c:117-129 | the new thread goes in last; the ring stays one cycle |
| `Sched.Kernel.Reap` | src/sched.c:495-519 | the first zombie child behind the current thread is unlinked, or there is none; the ring stays one cycle |
| `Sched.RotateCycle` | src/sched.c:403-446 | seen from another thread the ring still is one cycle |
| `Sched.UnlinkCycle` | src/sched.c:510-514 | unlinking one thread leaves one cycle through the others |
| `SchedFair.RanCloser` | src/sched.c:403-446 | one call of schedule() brings a waiting top-priority thread closer, or makes it current |
| `SchedFair.OthersNoFarther` | src/sched.c:117-129 | threads linked in or unlinked and state changes never move it away |
| `SchedFair.BoundedWaiting` | src/sched.c:403-446 | over any run, fewer schedule() calls pass it by than the ring had threads |
| `SchedFair.GetsItsTurn` | src/sched.c:403-446 | so it becomes current within as many calls |
| `SchedFair.Follow` | src/sched.c:117-519 | every step of the kernel, a yield, block, sleep, wake, tick, thread created, reaped or ended, is a run of the steps these results are about |
| `SchedFair.Joined` | src/sched.c:117-519 | runs join, so any sequence of kernel steps is one |
| `PipeProtocol.Pipe.Read` | src/pipe.c:28-46 | blocks exactly when the ring is empty and writers remain; else returns the oldest bytes in order and strands nobody |
| `PipeProtocol.Pipe.Write` | src/pipe.c:48-68 | appends, in order, exactly as many bytes as fit while readers remain, none otherwise; blocks exactly if bytes are left and readers remain, in a call recorded as this write; strands nobody |
| `PipeProtocol.Pipe.Fill` | src/pipe.c:59-66 | as many bytes as there is room for, and everybody waiting is woken |
| `PipeProtocol.Pipe.Close` | src/pipe.c:98-106 | one end less, nobody waits any more, freed exactly when no end is left |
| `PipeProtocol.Pipe.Sleep` | src/pipe.c:31-56 | a thread sleeps only in a call that cannot go on |
| `PipeProtocol.Pipe.WokenUp` | src/sched.c:359-361 | a woken thread goes back to its test with its channel cleared, and nobody is stranded by that |
| `PipeProtocol.Pipe.PutByte` | src/pipe.c:60-63 | bytes read and then the ring's contents are the bytes written, after one more byte in |
| `PipeProtocol.Pipe.TakeByte` | src/pipe.c:39-42 | ... and after one byte out |
| `PipeProtocol.HeldTake` | src/pipe.c:39-42 | the ring's first byte is the one at r |
| `PipeProtocol.HeldPut` | src/pipe.c:60-63 | the byte stored at w is the ring's last |
| `PipeProtocol.NoDeadlock` | src/pipe.c:28-68 | a reader and a writer never wait on one pipe at the same time |
| `PipeProtocol.StuckIs` | src/pipe.c:28-68 | who is blocked on a pipe is a reader of an empty ring with a writer left, or an unfinished writer of a full one with a reader left |
| `PipeProtocol.Pipe.OtherStep` | src/sched.c:117-519 | every other step of the kernel, a yield, a block or wake on any other channel, a sleep, a tick, a thread created, reaped or ended, keeps the pipe's bytes and strands nobody on it |
| `PipeProtocol.KeptByOthers` | src/sched.c:354-398 | a step after which nobody waits who did not wait before strands nobody |
| `TcpReasm.Reasm.Accept` | src/tcp_reasm.c:30-41 | of any true piece of the stream exactly the bytes inside the window are taken, whatever came before |
| `TcpReasm.Reasm.Read` | src/tcp_reasm.c:43-54 | what was read is a prefix of the stream; it stops short only at a byte never accepted inside the window |
| `TcpReasm.OffsetIs` | src/tcp_reasm.c:34-35 | the signed 32-bit difference is the true distance as long as it is below 2^31 |
| `TcpReasm.SlotsDiffer` | src/tcp_reasm.c:36-38 | positions of one window fall into different slots |
| `TcpRto.Rto.Sample` | src/tcp_rto.c:21-40 | for every 32-bit sample SRTT and RTTVAR take the steps of RFC 6298; the timeout is SRTT + 4 RTTVAR where that lies in [200000, 60000000] and the nearer limit where it does not, if and only if the sum does not wrap or wraps to at least the upper limit, and always while samples stay below 429496730 |
| `TcpRto.Smoothing` | src/tcp_rto.c:28-38 | up to the rounding of the shifts SRTT goes an eighth of the way to the sample and RTTVAR a quarter of the way to the deviation |
| `TcpRto.WrapsToFloor` | src/tcp_rto.c:13-19 | an input that fails: a first sample of 715827884 microseconds gives the smallest timeout |
| `TcpRto.Rto.BackOff` | src/tcp_rto.c:42-47 | doubles, capped |
| `TcpRto.RunBounded` | src/tcp_rto.c:13-47 | over any run of samples and backoffs SRTT and RTTVAR never exceed the largest sample and RTO stays in [200000, 60000000] |
| `TcpRto.Closer` | src/tcp_rto.c:34-38 | a repeated sample draws SRTT closer until it is within 7, and keeps it there |
| `TcpRto.Calmer` | src/tcp_rto.c:34-38 | then RTTVAR falls to 7 and stays |
| `TcpRto.Converges` | src/tcp_rto.c:21-40 | from any seeded state a repeated sample settles the estimator for good: SRTT stays within 7 microseconds of it, and the timeout between 7 below and 35 above unless a limit cuts it |

## Left out

- Ext2Rename.Rename: a destination that is a fast symlink at its last name is taken to be harmless whatever the directory's own blocks hold, up to 48 bytes the condition of `ShortIsSafe`. Otherwise the invariant is lost in the destination half (`Ext2Rename.ClearName` states when), and what the rest of the call does with broken accounts is not modelled. Renaming a name onto itself is stated for a directory whose names are distinct.
- Ext2Symlink.FreeText: the group descriptors and the superblock on disk are not rewritten, so a text of 49 bytes or more that names one of those blocks as a pointer block is walked as they were; which walks are harmless does not depend on it, since a harmless one writes nothing.
- Ext2Unlink.Unlink: for targets of 49 to 60 bytes the condition is read off the walk itself, through the blocks the last three words name.
- Ext2Rename.MoveEntry: the code does not refuse to move a directory below itself; the invariant counts links and fixes each directory's one parent, and does not say that every directory can be reached from the root.
- Ext2Steps.AddName: a directory's `i_size` is taken to stay below 4 GiB.
- Ext2File.Write: offsets the block map cannot address (from byte 17247252480 on, see `Ext2Map.TopIndex`) are not modelled: there the code leaves its pointer block.
- Ext2Volume.Volume.AllocInode: the inode bitmap's bytes, `bg_used_dirs_count` and the free-inode counts are not modelled; allocation is the lowest free number that is not reserved.
- Kheap.Heap.Kmalloc: sizes whose page count, put behind the frontier, reaches 2^64 are excluded; there sums wrap (`Kheap.HugeRequest`).
- TcpRto.RunBounded: runs are runs of the exact estimator, which the code is for samples of at most 429496729 microseconds; signed overflow is taken to wrap.
- Sched.Kernel.Reap: `sched_wait`'s bookkeeping of the foreground thread and its sleep when there are only live children are left out; so is the liveness of `parent` pointers after a reap.
- PipeProtocol.Pipe.Read: in `pipe_read` and `pipe_write` the calling thread is not the idle thread, which never blocks; signals that end a wait early are not modelled beyond a woken thread testing again.
- TextProps.GetPut: keys of property lists are compared as values, which for interned symbols is identity; a cons used as a key would be compared by address in the code.
- TextOps.PutProp: the code's two branches for a hole before the next interval and for the rest of the range are one branch with two ends; a test that cannot succeed (src/rd_core.c:358-366) is not repeated.
- Ext2Free.FreeInodeBlocks: the code frees the three trees in one function; here each level is a method of its own.
- Redisplay.Screen.Redisplay: surface windows' canvas blit, fonts, blending and faces that change between two frames; a pixel is a function of the cell, of the cursor's inversion and of the place in the cell. Grids are two-dimensional arrays instead of row-major ones.
- WinFrame.Frame.Layout: what a leaf draws inside its rectangle, and the echo lines.
- LispReader.ParseFixnum: signed overflow is taken to wrap.
- File-descriptor input of the Lisp reader, `intern`'s table limit, identity of symbols (here: equality of names) and non-local exits by `lm_error` are not part of this model; a failed read is a result.
- LispGc.Gc.Collect: the C stack and the saved registers are an arbitrary sequence of words; string data owned by string objects is not modelled.
- Serialisation of the superblock, the group descriptors and the inode table to disk blocks, timestamps, the vnode cache, `ext2_readlink`, `ext2_readdir` and mounting.
- Disk errors: reads and writes of blocks succeed.
- Address spaces, floating-point state, signals, file tables and stacks of threads; interrupts are masked inside every scheduler step, so steps are atomic.
- The Lisp evaluator and its primitives, devices, fonts, the network stack beyond the two TCP helpers, and the second-tier modules (seats, poll, shared memory, console, terminals, program loading).
