# Proofs about the file system, the memory manager and the threads

This project models three parts of a small 32-bit x86 kernel in Dafny and proves what they keep:

* the file system of `fs/`: sectors, the bitmaps, the inode table, regular files of up to 12 direct blocks and one table of 128
  indirect ones, directories as tables of 24-byte slots, paths, and the system calls on top;
* threads, semaphores, locks and processes of `thread/` and `userprog/`, under every interleaving;
* the memory manager of `kernel/memory.c`: virtual and physical bitmaps with the page table, and the heap of size classes
  above them; with the bitmaps and the linked lists of `lib/kernel/` below both.

`dafny verify dfyconfig.toml` checks all of it.

## How it is built

Code that changes things in place is a class or a method with loops and invariants, proved against a specification on values: a
partition is a class with the sectors of the disk, its two bitmaps and its list of cached inodes; a file, an inode, a directory,
a bitmap, a list, the memory and the heap are classes too. Threads, locks and processes are transition systems: a region with
interrupts off is one step, and a thread may be switched at any point between two steps.

| file | models |
|---|---|
| `Bytes`, `Wrappers`, `Bitmap`, `List` | words in memory, `lib/kernel/bitmap.c`, `lib/kernel/list.c` |
| `Disk`, `InodeTable`, `Inode` | sector input and output, the layout, the inode table, the mounted partition and its bitmaps |
| `File`, `Seek` | `file_write`, `file_read`, `sys_lseek` |
| `DirEntry`, `Dir` | slots, `search_dir_entry`, `sync_dir_entry`, `delete_dir_entry`, `dir_read` |
| `FileSystem`, `History` | the invariant of the whole file system over runs; what files hold and directories bind over runs |
| `Operations`, `Formatting` | the inode cache, creating and removing inodes; format and mount |
| `Paths`, `PathSearch`, `PathEffects` | `path_parse`, `wash_path`, where the walk along a path ends, `sys_getcwd`, and what operations do to where paths lead |
| `SystemCalls` | `search_file` with the directories it opens, `sys_open`, `sys_mkdir`, `sys_unlink`, `sys_rmdir`, `sys_chdir` on paths |
| `Descriptors` | file descriptors, what fork does to them, and any run of the system calls |
| `Scheduler`, `Locks`, `ProcessTree`, `PidPool` | `schedule` and what calls it, semaphores and locks, fork, exit and wait, pids |
| `Paging`, `Heap` | `malloc_page`, `mfree_page`, `sys_malloc`, `sys_free` |

A few words used throughout. `Contents` of a regular file is its byte sequence, and `Entries` of a directory the sequence of its
live entries in slot order. `Fs` is the disk with the two bitmaps in memory; `Tree` records for every inode in use its type, its
parent and its depth, and for every block its owner. `FsOk` says that bitmaps in memory and on disk agree, that the set bits are
exactly the inodes of the tree and the blocks they own, that every inode is a well-formed file or directory, that the
directories form the tree, and that the super block is on disk; `Sound` adds that every cached inode is in use and equals what
the disk holds. `padding` are the bits the format sets because no block belongs to them. `Cache` maps every cached inode to how
often it is open, and `Target` is where the walk along a path ends.

## Where the code departs from what it is for

Each of these is a statement of the project, with the exact condition under which the code is right.

* A write that brings a file to exactly 140 blocks of bytes runs into an assertion (`Files.FileWrite`: `Halted` exactly then),
  and a read that ends behind block 138 too (`Files.ReadPlan` and `Files.FileRead`).
* `search_file` finds a regular file for any path that goes on behind it, so unlinking "/f/x" removes "/f"; it is right
  exactly for the other paths (`PathSearch.SearchIsStrict`, and `PathSearch.FileFoundBehind` for a path that every regular file
  gives). `sys_open` tells the two apart by the depth of the path (`SystemCalls.SysOpen`).
* `sys_rmdir` of an empty directory leaves a sound file system exactly if the last component of the path is not "." and nobody
  had the directory open before the call (`SystemCalls.SysRmdir`). Through "." the search gives the directory itself as its
  parent, the entry stays, and no tree describes the disk any more (`Operations.Dangling`). A directory that stays cached when
  its number is free makes cache and disk disagree whatever the tree (`Operations.SoundButIff`).
* `sys_open` of a file that is there, and `sys_chdir`, never close the directory the search left open (`SystemCalls.SysOpen`,
  `SystemCalls.SysChdir`), so that the case just named comes about without any concurrency: open a file, close it, unlink it,
  remove its directory (`SystemCalls.LeakedParent`).
* `sys_unlink` looks for the file in the file table only; after it all is sound exactly if the file was not cached
  (`SystemCalls.SysUnlink`). It can be, without a slot: `fork` counts the inodes up but not the slots, so that the first of parent
  and child to close a shared file frees its slot while the other one has it open. Opening, forking, closing in one of the two
  and unlinking leaves cache and disk in disagreement (`Descriptors.SharedSlot`).
* So over any run of the system calls cache and disk agree exactly as long as nothing that is cached is removed, and no directory
  through its own "." (`Descriptors.Calls`, whose `Valid` every call keeps).
* The format leaves clear the bit one past the last block. It names the sector behind the partition unless the two-step sizing
  gave a bitmap sector back (`Disks.FormatFreeBitsInside`). That sector is then a block like the others
  (`Formatting.FormattedOk`): it has one owner at most, it holds what was written to it, and it is the last to be handed out. Runs
  write no sector outside the partition but this one (`FileSystems.RunConfined`), and not even this one if the format spared it
  (`FileSystems.RunInPartition`). A partition of 1000 sectors hands it out (`Formatting.SectorBehindTaken`), and a file may
  then be written there (`Formatting.WriteBehind`).
* `sync_dir_entry` never reads the table of a directory. The entry behind 252 others gets a new table that lists nothing else: no
  entry is lost exactly if there was none behind the direct blocks before (`Dirs.SpillLoses`). However often this happens, the
  directory lists 253 entries afterwards.
* `bitmap_scan` runs into its assertion when not a single bit is clear, so that it never returns -1 for one bit. Without a
  free number, block, frame or pid the kernel stops, and the roll-backs of `sys_mkdir` and `file_create` for these cases are
  never reached (`Bitmaps.Bitmap.Scan`, `SystemCalls.SysMkdir`, `SystemCalls.SysOpen`).
* `sys_lseek` reaches only positions of existing bytes, never the end of the file (`Seeks.Lseek`).

## Model

| member | source | states |
|---|---|---|
| `Bitmaps.Bitmap.FirstClear` | lib/kernel/bitmap.c:25-41 | the opening loops stop at the lowest clear bit, or at the end of the bitmap if there is none |
| `Bitmaps.Bitmap.Scan` | lib/kernel/bitmap.c:22-65 | the result is the lowest start of `cnt` clear bits in a row, across bytes and up to the last bit, and -1 exactly if there is none and some bit is clear; if none is, the assertion stops the kernel |
| `Bitmaps.Bitmap.Set` | lib/kernel/bitmap.c:68-81 | exactly the given bit changes, and no byte but its own |
| `Lists.List.InsertBefore` | lib/kernel/list.c:16-25 | the new node stands before the given one, and all `prev` and `next` pointers agree with the sequence again |
| `Lists.List.Remove` | lib/kernel/list.c:40-46 | the node is gone, the order of the others and the agreement of the pointers are kept |
| `Lists.List.Pop` | lib/kernel/list.c:49-57 | the first node comes off; nothing exactly if the list is empty |
| `Lists.List.Find` | lib/kernel/list.c:60-70 | true exactly if the node is in the list |
| `Lists.List.Len` | lib/kernel/list.c:93-102 | the number of nodes |
| `Lists.WithoutAt` | lib/kernel/list.c:40-46 | `Without`, which the models of the callers use for removal, is removal in place |
| `Disks.Format` | fs/fs.c:79-115 | the regions follow one another without overlap from the partition's start; the data blocks the bitmap counts end with the partition or one sector before it, whatever the two-step sizing of the bitmap gives, and the bitmap has no sector too many |
| `Disks.FormatBlockBitmap` | fs/fs.c:134-153 | of the bits in the bitmap sectors exactly bit 0 and those above bit `bitLen` are set |
| `Disks.FormatFreeBitsInside` | fs/fs.c:89-153 | every clear bit names a sector of the partition if and only if the remainder of the free sectors is at most the number of bitmap sectors first set aside |
| `Disks.SuperLayout` | fs/super_block.h:6-27 | the stored super block starts with the bytes of the magic number, the low one first, and every field lies at its own offset, with the number of inodes and the size of an entry among them and the padding behind |
| `Disks.SuperRoundTrip` | fs/super_block.h:6-27 | the stored form of the super block gives back its fields, and starts with the magic number |
| `Disks.InodeInTable` | fs/inode.c:21-40 | one or two sectors found by `inode_locate` lie in the inode table and hold the whole 76-byte window, which starts at byte 76 times the number |
| `InodeTables.InodeLayout` | fs/inode.h:8-15 | number, size and block slots of a stored inode lie at their own offsets in its 76 bytes, and open count, write flag and list links are zero |
| `InodeTables.InodeRoundTrip` | fs/inode.c:43-70 | the stored form of an inode gives back its number, size and block slots |
| `InodeTables.PatchedWindow` | fs/inode.c:43-70 | rewriting one or two sectors around a window changes that window only, also where it straddles them |
| `Partitions.Partition.InodeBitmapAlloc` | fs/file.c:56-64 | the lowest free number is taken and no other bit changes; it stops exactly if there is none |
| `Partitions.Partition.BlockBitmapAlloc` | fs/file.c:67-75 | the lowest free block is taken and no other bit changes; it stops exactly if there is none |
| `Partitions.Partition.BitmapSync` | fs/file.c:78-97 | the sector of the bitmap that holds the bit is written, and nothing else |
| `Partitions.Partition.AllocBlock` | fs/file.c:266-280 | taking the lowest free block and syncing its bit keeps bitmap and disk in agreement; one free block less, nothing but the bitmap sector changed; it stops exactly if there is none on the disk |
| `Partitions.InodeSync` | fs/inode.c:43-70 | exactly the inode's window changes, to its persistent fields with open count, flag and links zeroed |
| `Files.FlatUpdate` | fs/file.c:416-438 | writing the sector of the q-th block splices its bytes into the flat image of the file |
| `Files.CollectDirect` | fs/file.c:304-329 | the file gets the missing direct blocks, all new, in slots that were zero, and `all_blocks` lists the blocks to be written |
| `Files.CollectCross` | fs/file.c:330-379 | the same with a new indirect table that ends on disk with exactly the new entries |
| `Files.CollectIndirect` | fs/file.c:354-377 | the allocation loop fills direct slots and then table entries, each with a new block |
| `Files.CollectBlocks` | fs/file.c:291-410 | in every case, also without a new block and with the table read back, the mapping grows to the needed length, keeps the old blocks and stays one of distinct taken blocks |
| `Files.AppendCompletes` | fs/file.c:412-442 | collected blocks, copied data and synced inode together are an append that keeps the mapping, the bitmap and all other windows |
| `Files.FileWrite` | fs/file.c:233-443 | the contents become the old contents followed by `buf`; too big, halted or written exactly by the total size; every sector that is not the file's, the block bitmap's or its inode's is unchanged, and the new blocks were free |
| `Files.CollectForRead` | fs/file.c:472-520 | the blocks of the range are listed; the table is there whenever it is needed, also where the read ends on a block boundary |
| `Files.ReadPlan` | fs/file.c:446-478 | -1 exactly at the end, otherwise the clamped count; the block assertions fail exactly for a range that ends in block 139 or behind, or for the position that wraps below zero |
| `Files.FileRead` | fs/file.c:446-546 | the bytes read are the contents from the position on, at most `count` and not beyond the size; -1 exactly at the end; the position advances by as many |
| `Seeks.Lseek` | fs/fs.c:466-499 | from the start to exactly the offset, from the position to exactly position and offset, from the end to exactly size and offset, if that is a position of an existing byte; otherwise -1, and the position stays |
| `Seeks.SeekTwice` | fs/fs.c:466-499 | two seeks from the current position that stay in the file add up |
| `Seeks.WriteSeekRead` | fs/fs.c:397-499 | appending, seeking back in any of the three ways and reading gives the appended bytes, unless the read would end in block 139 |
| `Dirs.SearchDirEntry` | fs/dir.c:32-93 | the result is a live entry of that name, from the direct blocks or those the indirect table lists, and nothing exactly if there is none |
| `Dirs.DirectorySearchable` | fs/dir.c:32-93 | a well-formed directory can be searched, and what the search goes through are its entries |
| `Dirs.LookupIsBinding` | fs/dir.c:32-93 | what the search finds is what the map from names to number and type binds |
| `DirEntries.EntryLayout` | fs/dir.h:17-21 | name, number and type of slot j lie at their own offsets behind byte 24 * j, and no other byte changes |
| `Dirs.FillSlot` | fs/dir.c:195-204 | the entry goes to the lowest free slot of the block; nothing exactly if all 21 are in use |
| `Dirs.SyncDirEntry` | fs/dir.c:120-209 | with a free slot or a hole among the direct blocks the entry is put into the first of them, behind exactly the entries of the slots before it, and the size grows by 24; a block is taken only into a hole, and no sector but the directory's own and the bitmap's changes; otherwise it goes behind them; without the blocks it takes the kernel stops, exactly then |
| `Dirs.PackedStays` | fs/dir.c:120-209 | in a directory without a free slot before its last entry, as a new one is, the new entry is appended and it stays so: the entries are in the order in which they were made |
| `Dirs.SyncBehind` | fs/dir.c:142-190 | behind twelve full blocks the directory gets a new table with one block that holds just the new entry, whatever table it had; both blocks were free, and no other sector but the bitmap's changes |
| `Dirs.SpillLoses` | fs/dir.c:128-190 | then a search finds the 252 entries of the direct blocks and the new one; none is lost if and only if there was none behind the direct blocks |
| `Dirs.InsertedBinding` | fs/dir.c:120-209 | the map gets one binding more |
| `Dirs.DeleteDirEntry` | fs/dir.c:212-336 | the child with that number goes, if there is one, and the size shrinks by 24; a block emptied by it is given back unless it is the first; the assertions hold |
| `Dirs.BehindFirst` | fs/dir.c:250-281 | behind its first block a directory has only children, so a block whose one counted entry goes is empty and may be given back |
| `Dirs.UnlistedBinding` | fs/dir.c:212-336 | the map loses exactly the binding to that number |
| `Dirs.DirRead` | fs/dir.c:339-393 | the k-th call returns the k-th live entry, across holes and missing blocks, and then nothing |
| `Dirs.ListDirectory` | shell/buildin_cmd.c:174-203 | rewinding and reading to the end lists every live entry exactly once, in slot order |
| `Dirs.DirIsEmpty` | fs/dir.c:396-401 | true exactly if only the directory's own two entries are live |
| `Dirs.EmptyDirectoryBlocks` | fs/dir.c:406-412 | an empty directory has no block but its first, as `dir_remove` asserts |
| `Formatting.PartitionFormat` | fs/fs.c:78-197 | the regions hold the super block, the bitmaps, the root's inode and the root's two entries, none overwritten by another; nothing outside them changes |
| `Formatting.FormattedOk` | fs/fs.c:78-197 | a formatted partition satisfies the invariant of the file system, with only the root in it; the sector behind the partition is one of its free blocks if and only if the sizing gave no bitmap sector back |
| `Formatting.MountPartition` | fs/fs.c:22-75 | the super block and both bitmaps are read from the disk, and the partition is sound if and only if the disk holds a well-formed file system |
| `Formatting.InitPartition` | fs/fs.c:926-984 | a disk with the magic number is only mounted, another one is formatted first and then sound: runs start here |
| `Formatting.SectorBehindTaken` | fs/fs.c:89-153 | on a new partition of 1000 sectors the last of the 388 blocks handed out is the sector behind it |
| `Formatting.WriteBehind` | fs/file.c:233-443 | with only that sector free the first byte written to an empty file is written there |
| `Operations.MountAgain` | fs/fs.c:37-58 | mounting the disk of a sound partition, which is all that is left of it, gives the same super block and bitmaps, and every cached inode equals a fresh read |
| `Operations.InodeOpen` | fs/inode.c:73-112 | a cached inode is shared and counted, another one is read and put in front; either equals what the disk holds, and no number is cached twice |
| `Operations.InodeClose` | fs/inode.c:115-128 | one opening less, and the inode leaves the cache exactly at zero |
| `Operations.InodeDelete` | fs/inode.c:131-156 | exactly the inode's window becomes zero |
| `Operations.FreeAll` | fs/inode.c:175-198 | exactly the collected blocks become free, on disk too; the assertions hold |
| `Operations.InodeRealse` | fs/inode.c:159-214 | exactly the blocks the inode leads to, its table included, and its number become free, its window is cleared; other inodes, blocks and the cache stay |
| `Operations.FileCreate` | fs/file.c:100-188 | a new empty file under the lowest free number is listed in the directory, on disk, cached, open once, and in the first free slot of the file table; with no free slot its number is given back and nothing has changed; the kernel stops exactly if there is no number, or a slot but no block for the entry |
| `Operations.MakeDirectory` | fs/fs.c:590-657 | a new directory under the lowest free number with its two entries is listed and on disk; the file system stays sound; the kernel stops exactly if a number, its block or one for its entry is missing |
| `Operations.NewDirectory` | fs/fs.c:618-634 | a block with the two entries makes a well-formed directory, without a gap between its entries |
| `Operations.Append` | fs/file.c:233-443 | `file_write` to a cached file keeps the file system sound |
| `Operations.Unlink` | fs/fs.c:526-554 | a file in the file table is refused; otherwise its entry, its blocks and its number go, and all is sound if and only if it was not cached |
| `Operations.Rmdir` | fs/fs.c:744-752 | refused exactly if the directory is not empty; otherwise it goes, with its block, and all but its own cached inode is right; found in itself, it is released and its entry stays |
| `Operations.Dangling` | fs/dir.c:404-424 | no tree describes a disk on which an inode was released and its entry was not |
| `Operations.SoundButIff` | fs/inode.c:73-128 | with a number free and all else right, all is sound if and only if no cached inode has that number, and otherwise under no tree |
| `FileSystems.WriteOk` | fs/file.c:233-443 | appending keeps the invariant; the blocks taken become the file's |
| `FileSystems.AddOk` | fs/file.c:100-188 | creating a file or a directory keeps the invariant and takes a number not in use |
| `FileSystems.RemoveOk` | fs/inode.c:159-214 | removing a file or an empty directory keeps the invariant: exactly the victim's blocks and number are free again, and a block of its directory if the entry was alone there |
| `FileSystems.FsStepOk` | fs/fs.c:502-757 | every operation keeps the invariant |
| `FileSystems.FsRunOk` | fs/fs.c:502-757 | so does every run |
| `FileSystems.RunConfined` | fs/fs.c:502-757 | in every run no sector outside the partition is written, the one behind it aside, and the super block stays |
| `FileSystems.RunInPartition` | fs/fs.c:502-757 | a run that starts with the sector behind the partition neither free nor owned never writes it either |
| `Histories.NodeKept` | fs/file.c:233-443 | an operation leaves the contents of every file it does not write and the entries of every directory it does not edit as they were |
| `Histories.Refines` | fs/fs.c:502-757 | on the map from files to their bytes and from directories to their bindings a write appends, creating adds a binding and an empty file or directory, removing takes one binding and one file or directory away, and nothing else changes |
| `Histories.RunRefines` | fs/fs.c:502-757 | every run of the file system is a run of those maps |
| `Histories.FileHistory` | fs/file.c:233-443 | in every run a file holds the concatenation of all that was appended to it since it was last created |
| `FileSystems.BlocksExact` | fs/file.c:67-75 | in every run a block is in use if and only if an inode in use leads to it, and then only one does: none is leaked, none is shared |
| `Paths.PathParse` | fs/fs.c:200-217 | the first component and the rest of the path behind it, which is strictly shorter; nothing is left exactly when no component is |
| `Paths.ComponentsApart` | fs/fs.c:200-217 | a slash divides a path: its components are those before the slash and those behind |
| `Paths.PathDepthCnt` | fs/fs.c:220-237 | the number of components |
| `Paths.WashName` | shell/buildin_cmd.c:26-52 | one turn of the loop pushes a name, pops on ".." and ignores ".", in the string buffer as on the stack, which never grows by more than the name and a slash |
| `Paths.WashPath` | shell/buildin_cmd.c:15-55 | the buffer ends with "/" and the joined stack, never longer than the path; the loop terminates |
| `Paths.WashedIsClean` | shell/buildin_cmd.c:15-55 | the washed path has no empty component, no "." and no "..", and its components are the stack |
| `Paths.WashingTwice` | shell/buildin_cmd.c:15-55 | washing is idempotent |
| `Paths.ComponentsJoin` | fs/fs.c:200-217 | parsing the path of a stack gives the stack back |
| `PathSearch.FoundParent` | fs/fs.c:240-302 | what the search finds is in use and of the type it reports, and was found in its parent in the tree, in itself for a last component ".", in its child for ".."; a regular file always in its parent |
| `PathSearch.MissingLast` | fs/fs.c:290-293 | where the search fails, a directory in use lacks the last component searched |
| `PathEffects.WalkMade` | fs/fs.c:240-302 | where only the last component was missing and all bindings stay, the walk finds what that component is bound to now |
| `PathEffects.WalkGone` | fs/fs.c:240-302 | once the name of an inode is gone, every path that led to the inode leads nowhere |
| `PathSearch.SearchIsStrict` | fs/fs.c:270-289 | the walk is the one that fails behind a regular file if and only if the path does not go on behind one; for such a path it finds that file |
| `PathSearch.FileFoundBehind` | fs/fs.c:270-289 | every regular file is found under its path with any name appended |
| `PathSearch.GetParentDirInodeNo` | fs/fs.c:760-773 | the number of the parent in the tree; the assertions hold |
| `PathSearch.GetChildDirName` | fs/fs.c:776-813 | a slash and the child's name are appended exactly if the directory lists that number |
| `PathSearch.Unwind` | fs/fs.c:841-855 | the loop over the last slashes turns the reversed path around |
| `PathSearch.GetCwd` | fs/fs.c:816-858 | the buffer holds the path of the names from the root; the climb ends, its measure is the depth |
| `PathSearch.WalkPathNames` | fs/fs.c:240-302 | walking the names of any inode of the tree leads to it, with its type and parent |
| `PathSearch.CwdRoundTrip` | fs/fs.c:816-858 | `search_file` on the path that `sys_getcwd` returns gives back the directory |
| `PathSearch.WashingKeeps` | shell/buildin_cmd.c:15-55 | if a path leads anywhere the washed path leads to the same inode, with its type, and its components are the names from the root to it |
| `SystemCalls.Open` | fs/inode.c:73-112 | opening an inode in use counts it up or brings it into the cache; all stays sound |
| `SystemCalls.DirClose` | fs/dir.c:96-108 | closing a directory counts it down, the root's own handle excepted; all stays as sound as it was |
| `SystemCalls.SearchFile` | fs/fs.c:240-302 | the search is the walk along the components; it records the components searched and leaves open exactly one directory, the one in which it found its target or failed |
| `SystemCalls.SysMkdir` | fs/fs.c:558-676 | every outcome by what the path leads to: a directory is made if and only if all components but the last are there, and a number and the blocks, and then the path leads to it; otherwise nothing changes or the kernel stops; no directory stays open |
| `SystemCalls.SysUnlink` | fs/fs.c:502-555 | every outcome by what the path leads to; the file removed is the one found, the path leads nowhere afterwards, bindings to directories stay, and all is sound if and only if the file was not cached |
| `SystemCalls.SysRmdir` | fs/fs.c:730-757 | every outcome by what the path leads to; an empty directory goes, and all is sound if and only if the last component was not "." and nobody had it open; otherwise no tree makes it sound |
| `SystemCalls.SysOpen` | fs/fs.c:305-365 | every outcome by what the path leads to, the create flag, the file table, and what numbers and blocks are left; a created file is where the path failed, and the path leads to it; opening leaves the directory of the file open |
| `SystemCalls.FileOpen` | fs/file.c:191-218 | the file is open once more and in the first free slot; refused for writing exactly if it was being written, and then slot and inode stay taken |
| `SystemCalls.FileClose` | fs/file.c:221-230 | the slot is free, the inode is closed once, and all stays sound |
| `SystemCalls.SysChdir` | fs/fs.c:861-876 | the directory the path leads to; what the search left open is never closed |
| `SystemCalls.LeakedParent` | fs/fs.c:305-757 | opening the only file of a directory, closing it, unlinking it and removing the directory leaves cache and disk in disagreement |
| `Descriptors.Task.PcbFdInstall` | fs/file.c:36-53 | the first free descriptor behind the standard streams; -1 exactly if there is none |
| `Descriptors.UpdateInodeOpenCnts` | userprog/fork.c:107-122 | every cached inode is open once more for each descriptor that leads to it |
| `Descriptors.SharedSlot` | userprog/fork.c:107-122 | a file opened, shared by a fork, closed once and unlinked leaves cache and disk in disagreement |
| `Descriptors.HeldClosed` | fs/file.c:221-230 | every inode stays open at least as often as slots hold it, when a slot and one opening go |
| `Descriptors.Calls.constructor` | fs/fs.c:926-984 | after `filesys_init` all is sound, with the root directory open |
| `Descriptors.Calls.Open` | fs/fs.c:305-365 | the run goes on with cache and disk in agreement; the outcome is that of `sys_open`, the descriptor is the first free one of the caller, and without one slot and inode stay taken |
| `Descriptors.Calls.Close` | fs/fs.c:377-394 | so it does after a close: slot and descriptor are free, and the inode is closed once |
| `Descriptors.Calls.Fork` | userprog/fork.c:107-150 | so it does after a fork, with the descriptors of the parent in the child |
| `Descriptors.Calls.Mkdir` | fs/fs.c:558-676 | so it does after `sys_mkdir`, unless the kernel stops; every outcome by what the path leads to, and the directory made is where it leads |
| `Descriptors.Calls.Unlink` | fs/fs.c:502-555 | so it does after `sys_unlink`, unless it removed a file that was cached, and then no tree describes cache and disk; every outcome by what the path leads to, and the file removed is the one found |
| `Descriptors.Calls.Rmdir` | fs/fs.c:730-757 | so it does after `sys_rmdir`, unless it removed a directory that was cached or found through ".", and then no tree does; every outcome by what the path leads to |
| `Descriptors.Calls.Write` | fs/file.c:233-443 | so it does after `file_write` to an open file, unless its assertion stops the kernel |
| `Descriptors.Calls.Chdir` | fs/fs.c:861-876 | so it does after `sys_chdir` |
| `Schedulers.ScheduleStopped` | thread/thread.c:203-232 | `schedule` always finds a thread: with an empty ready list idle is parked and can be woken |
| `Schedulers.TickOk` | thread/thread.c:203-232 | outside the regions one thread runs and the ready list is exactly the ready threads, each once; a tick keeps this |
| `Schedulers.BlockOk` | thread/thread.c:235-244 | so does blocking |
| `Schedulers.UnblockOk` | thread/thread.c:247-260 | so does unblocking; its assertions hold |
| `Schedulers.RoundRobin` | thread/thread.c:203-232 | the thread at place k of the ready list runs after k + 1 ticks |
| `Schedulers.WokenRunsNext` | thread/thread.c:247-260 | a woken thread is the next to run |
| `Schedulers.Cpu.DoSchedule` | thread/thread.c:203-232 | the first in line runs, a thread still running having gone to the back, and idle if there is nobody; the invariant holds afterwards |
| `Schedulers.Cpu.ThreadBlock` | thread/thread.c:235-244 | the caller, unless it is idle, is parked in no line and somebody else runs; the invariant is kept |
| `Schedulers.Cpu.ThreadUnblock` | thread/thread.c:247-260 | the thread is ready and first in line; the invariant is kept |
| `Schedulers.Cpu.ThreadYield` | thread/thread.c:263-271 | the caller is at the back of the line and its head runs; the invariant is kept |
| `Locks.StepOk` | thread/sync.c:22-86 | no assertion of `sema_down`, `sema_up`, `lock_acquire`, `lock_release` and the scheduler fails in any step, and the invariant is kept |
| `Locks.InitialOk` | thread/thread.c:407-423 | the state with no thread in the lock code satisfies the invariant |
| `Locks.TraceOk` | thread/sync.c:22-86 | the invariant holds in every state of every interleaving |
| `Locks.NeverPanics` | thread/sync.c:22-86 | no reachable state has a step that fails an assertion |
| `Locks.MutualExclusion` | thread/sync.c:22-57 | at most one thread is between its `sema_down` and its `sema_up`, and the semaphore is 0 meanwhile |
| `Locks.NoLostWakeup` | thread/sync.c:28-56 | a free lock with waiters has a woken thread, runnable at the re-check, even when others barge in |
| `Locks.HolderMatches` | thread/sync.c:60-86 | in every run the holder and its count are the thread inside and its nesting depth exactly outside the two hand-over windows; with nobody inside there is no holder and the count is 0 |
| `Locks.OneList` | thread/sync.c:30-36 | a thread is in at most one of the ready list and the waiter lists, at most once |
| `Locks.LineMoves` | thread/sync.c:28-56 | in every step the line of a lock gains the thread that found the semaphore taken, at its end, loses its head to a `sema_up`, which makes it the first of the ready list, or stays |
| `Locks.WokenInOrder` | thread/sync.c:28-56 | in every run the thread at place k of the line is woken by the (k + 1)-th `sema_up` on that lock, and is then the first of the ready list |
| `Locks.AcquireHolds` | thread/sync.c:60-70 | in every run, when a call of `lock_acquire` returns, the caller holds the lock, once more than before |
| `Locks.ReleaseDrops` | thread/sync.c:73-86 | in every run, when a call of `lock_release` returns, the caller holds the lock once less, and not at all after the last |
| `ProcessTree.ForkOk` | userprog/fork.c:158-177 | the child gets the lowest free pid, and the invariant is kept |
| `ProcessTree.ForkMakesChild` | userprog/fork.c:16-27 | the child's parent is the forking process, it joins the back of the ready list under a pid of its own, and no other task changes |
| `ProcessTree.ExitHandsOver` | userprog/wait_exit.c:142-164 | whoever exits hangs with the status cut to a signed byte; its children are init's, no task has it for a parent; a parent asleep in wait runs next, and no other task changes |
| `ProcessTree.ExitOk` | userprog/wait_exit.c:142-164 | no assertion or panic is reached, and the invariant is kept |
| `ProcessTree.WaitFacts` | userprog/wait_exit.c:113-138 | a turn of wait takes the first hanging child of the caller in the list of all tasks, or returns -1 and the caller has no child, or sleeps and it has children but none that hangs |
| `ProcessTree.WaitTakes` | userprog/wait_exit.c:110-139 | the child taken goes with its pid, and no other task changes; a caller that sleeps has left the processor |
| `ProcessTree.WaitOk` | userprog/wait_exit.c:110-139 | every turn succeeds and keeps the invariant |
| `ProcessTree.LeaveOk` | thread/thread.c:353-383 | `main` ends without a failed assertion: another thread runs, and the invariant is kept |
| `ProcessTree.MainLeaves` | kernel/main.c:94-98 | then main is in no list and has no pid; nobody had it for a parent, every other task is as before, and its pid can be given out again |
| `ProcessTree.InitialOk` | thread/thread.c:407-423 | the state with main, idle and init satisfies the invariant |
| `ProcessTree.StepOk` | userprog/wait_exit.c:99-164 | every step succeeds and keeps the invariant |
| `ProcessTree.NeverPanics` | userprog/wait_exit.c:145-163 | no reachable state has a step that fails |
| `ProcessTree.TreeSafe` | userprog/wait_exit.c:99-164 | in every run pids are unique and in use, and every parent pid but -1 names a task in the list |
| `ProcessTree.SleepersHaveReason` | userprog/wait_exit.c:113-138 | in every run a task asleep in wait has a child, and unless it is init none of its children hangs |
| `ProcessTree.ReapedOnce` | userprog/wait_exit.c:110-139 | in every run only wait reports, and what it reports is the pid and the status that this child passed to exit, for a child not reported before |
| `ProcessTree.OrderStays` | lib/kernel/list.c:77-91 | in every run two tasks of the list stay in the order in which they stand |
| `ProcessTree.EarlierFirst` | userprog/wait_exit.c:113-121 | of two hanging children of the caller wait never reports the one that stands behind the other |
| `ProcessTree.ForkedFirst` | userprog/wait_exit.c:113-121 | in every run, of two children that both hang, wait reports the one forked first |
| `ProcessTree.ExitsConserved` | userprog/wait_exit.c:110-164 | in every run whoever has exited either hangs or has been reaped, and nobody else |
| `ProcessTree.FreePidIsLowest` | thread/thread.c:57-65 | the pid given out is the lowest free one |
| `PidPools.PidPool.AllocatePid` | thread/thread.c:57-65 | the bitmap hands out the pid the process tree takes, and it alone becomes used; it stops exactly if all are |
| `PidPools.PidPool.ReleasePid` | thread/thread.c:68-74 | exactly this pid becomes free |
| `Paging.Memory.constructor` | kernel/memory.c:267-341 | where the pools and virtual ranges begin and how many frames and pages each has, half of the memory behind the first 2 MB to either; they do not overlap, and everything in them is free |
| `Paging.Memory.VaddrGet` | kernel/memory.c:62-90 | the lowest run of free pages is taken; nothing exactly if some page is free but there is no run, and the kernel stops exactly if none is free or the lowest run of a process is the page of its stack |
| `Paging.Memory.Palloc` | kernel/memory.c:110-120 | the lowest free frame of the pool is taken, and no other; nothing exactly if there is none |
| `Paging.Memory.PageTableAdd` | kernel/memory.c:123-156 | the page is mapped to the frame, with one kernel frame for a page table exactly if there was none, and nothing else is mapped differently; the entry was not present, as the code asserts |
| `Paging.Memory.MallocPage` | kernel/memory.c:159-185 | the lowest run of pages is mapped, each to a frame of its own, with page tables made for no other pages; nothing else changes its mapping, and the invariant of bitmaps, page table and uses is kept; nothing comes of it, and nothing changes, exactly if some page is free but there is no run; the kernel stops at the assertion of `bitmap_scan` exactly if no page is free or there are too few frames for the pages or, in a process, for their missing page tables |
| `Paging.Memory.Pfree` | kernel/memory.c:455-467 | exactly this frame becomes free, in its own pool |
| `Paging.Memory.MfreePage` | kernel/memory.c:497-539 | exactly these pages are unmapped, their frames and their virtual bits free; the assertions on the pool hold |
| `Paging.Memory.MallocThenFree` | kernel/memory.c:159-539 | allocating and freeing restores the virtual bitmaps, the mapping and all frames, but for kernel frames of page tables made on the way |
| `Paging.AllocateThenFree` | kernel/memory.c:159-539 | allocating and freeing restores the virtual bitmaps, the mapping and every frame but those of page tables made on the way |
| `Paging.Injective` | kernel/memory.c:123-156 | no frame is mapped at two pages |
| `Paging.TableTaken` | kernel/memory.c:144-153 | a frame that becomes a cleared page table keeps the invariant: a frame is taken exactly if it is mapped or holds a page table |
| `Paging.PageMapped` | kernel/memory.c:134-155 | so does a page mapped to a new frame |
| `Paging.PageUnmapped` | kernel/memory.c:469-476 | so does a page unmapped whose frame goes back |
| `Paging.DirectoryMapsItself` | kernel/memory.c:93-107 | the directory entry of an address is the table entry of its table entry |
| `Paging.TablePage` | kernel/memory.c:149-150 | the page cleared for a new table holds the entries of exactly the pages of its directory entry |
| `Heaps.BlockPlaces` | kernel/memory.c:348-358 | the blocks of an arena lie from its header on inside its page, one behind the other, as many as fit, and `block2arena` leads back from each |
| `Heaps.LiveApart` | kernel/memory.c:361-447 | what is handed out never overlaps and covers no header of another arena |
| `Heaps.PopOk` | kernel/memory.c:437-443 | handing out the first free block keeps the invariant: `cnt` is the number of the arena's blocks on the list, and the lists hold exactly the free blocks of existing arenas |
| `Heaps.PushOk` | kernel/memory.c:581-583 | so does putting a block back; only that address stops being live |
| `Heaps.NewArenaOk` | kernel/memory.c:414-436 | so does cutting a new page into blocks |
| `Heaps.WithoutArenaOk` | kernel/memory.c:583-590 | when `cnt` reaches the number of blocks all of them are on the list, so the assertions hold, and no live address goes with the page |
| `Heaps.ArenaHasLive` | kernel/memory.c:583-591 | an arena exists if and only if something in it is live |
| `Heaps.Heap.FindDesc` | kernel/memory.c:407-412 | the smallest block size that does |
| `Heaps.Heap.SysMalloc` | kernel/memory.c:361-447 | a small request gets the first block on the list of the smallest size that does, and then no page changes; only if that list is empty one page is taken, the lowest, whose other blocks make the list in the order of their addresses; a large request gets exactly the pages it needs; NULL and the stops are told apart exactly, and neither is possible with a block on the list; the address was not live and now is, every other address keeps its state and size, and pages of the other pool stay mapped where they were |
| `Heaps.Heap.SysFree` | kernel/memory.c:557-595 | exactly this address stops being live; the pages go back if and only if nothing in the arena is live any more, and then its blocks leave the list and the rest keeps its order; otherwise the block is the last on its list and no page changes; pages of the other pool stay mapped where they were |
| `Heaps.Heap.MallocThenFree` | kernel/memory.c:361-595 | what is allocated and freed at once leaves the arenas, the free pages and all that is live as they were |
| `Heaps.HeapsApart` | kernel/memory.c:361-595 | so the kernel's heap and that of a process leave each other's pages backed |

## Left out

- Dirs.DeleteDirEntry: only for directories without an indirect table, and so are the invariant of runs and `dir_read`; the calls that create require fewer than 252 entries in the directory.
- Operations.FileCreate: failure for lack of memory, here and in `Operations.MakeDirectory`; a block to be taken must be a sector of the disk, which the one behind the last partition is not.
- Files.FileWrite: a write below 3 GB, so that the sizes do not wrap around, with enough free blocks, as `bitmap_scan` asserts on a full bitmap.
- SystemCalls.SearchFile: a path of slashes only, other than "/", makes the code return an uninitialised number, and a component over 15 bytes overruns its name buffer.
- SystemCalls.SysMkdir: a directory with 252 entries, as for the members it calls; so too `SystemCalls.SysOpen` when it creates.
- Formatting.MountPartition: a super block with the magic number and a layout other than the format's, which the code mounts unseen; so too `Formatting.InitPartition`.
- SystemCalls.SysUnlink: what follows a failed assertion, here and in `SystemCalls.SysRmdir`: unlinking or removing the root stops the kernel.
- PathSearch.GetCwd: a path of 512 bytes or more, which overruns the buffers of the code.
- PathSearch.WashingKeeps: only for paths that lead somewhere; washing is done on the names alone, so that "/x/.." is washed to "/" whether there is "/x" or not.
- Paths.PathDepthCnt: of a path without components the code reads an uninitialised byte.
- Heaps.Heap.SysMalloc: the bytes of the blocks, and so the clearing of a block; the model keeps addresses, headers and lists.
- ProcessTree.ForkOk: the copy of the address space, the assertion on the length of the name, and failure for lack of memory.
- ProcessTree.WaitOk: init never exits, and idle and main do not fork, exit or wait; releasing a process's memory and files is not modelled.
- Locks.StepOk: threads are created outside locks and do not end inside them; the nesting count does not wrap around.
- The file system is modelled one system call at a time: the disk driver sleeps, but two calls at once on one partition are not interleaved.
- The read and write position and the flags kept in the file table, pipes, `sys_execv`, the shell and all input and output to screen, keyboard and timer.
- Boot code, the partition scan and the disk controller; sectors are read and written as whole values.
- The page directories of several processes at once, and the user heap after fork.
