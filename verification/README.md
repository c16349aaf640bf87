# Verification of the storage stack

This project models the storage stack of the file system in Dafny 4.11 and proves what its layers promise each other: the
write-back block cache, the free list that lives inside the free blocks, the inode table and block maps, `read_file`,
`write_file` and `truncate_file`, directories as logs of entries, and formatting. `dafny verify dfyconfig.toml` checks it.

The code is modelled as it is. Where it departs from its intent the departure is in the model, and a theorem says for which
inputs the code still does what it should, exactly.

## Layers and files

| files | code | what is modelled |
|---|---|---|
| `Blocks` | | bytes, little-endian words, 32-bit device offsets |
| `CacheSpec`, `CacheTraces` | `disk.c` | the cache as a state machine over values, and its theorems over whole traces |
| `RecencyList`, `HashTable`, `DiskCache`, `CacheRuns` | `disk.c` | the pointer structures, proved to take exactly those steps |
| `Calls`, `CallTraces` | `sb.c`, `db.c` | what the calls of these files ask of the cache, and when it gets them right |
| `Store` | `sb.c`, `db.c` | the superblock and `db_read`/`db_write` over a plain array of blocks |
| `FreeList`, `FreeRuns`, `InitialList` | `db.c` | the free list as a set of blocks, runs of allocations and releases, `db_init` |
| `Inodes`, `Ownership`, `BlockMap` | `inode.c` | the inode table, who owns which block, the invariant of the file system |
| `Extend`, `Growth` | `inode.c` | `add_block`, and growing an inode block by block |
| `Billing`, `Ledger` | `inode.c` | how many blocks a write takes, and whether it loses one |
| `Shrink`, `Cut` | `inode.c` | `free_block_by_num`, and cutting a file |
| `Lifetime` | `inode.c` | `inode_allocate`, `inode_free` |
| `FileView`, `Chunking`, `Files`, `Reading`, `FileRuns` | `inode.c` | files as byte sequences |
| `Directory`, `DirOps`, `Paths` | `syscall.c` | directories, paths, rename |
| `Format` | `fs.c` | `mkfs` over the cache |

The layers above the cache see the device as a plain array of blocks (`Store.Device`). `CacheRuns.RunTrace` is what justifies
it, on the traces that `CacheTraces.Sound` describes; on other traces the cache itself breaks (see below). `Format.Mount`
closes the gap for the state that formatting leaves.

A device and a cache each keep a log of the accesses made to them (`Calls.Log`). The calls of sb.c and db.c are proved to add
exactly the accesses that `Calls.Accesses` lists, with the contents written, and `mkfs` exactly `Format.MkfsOps`. That ties the
theorems over traces to the code.

Blocks of the upper layers are kept as 1024 words; `Blocks.WordsRoundTrip` and `Blocks.BytesRoundTrip` make that the same as
4096 bytes. The struct layouts are those of x86-64: the superblock takes 24 words, an inode 26 words in a slot of 32 with
the mode first and the link count last, a directory entry 264 bytes. `Format.SuperBytes`, `Inodes.RecordLayout` and
`Directory.EntryBytes` give every field by its byte offset. The C globals `super`, `target_node` and `bitmap` are
locals.

Some predicates are written as `forall w :: Opened(w) ==> ...`. That is the same as the body, but the verifier looks inside
only where `Opened` is mentioned, which keeps the proofs small. Each layer has its own key, so that opening one leaves the
others shut: `CacheRuns.Unsealed`, `FreeList.Unsealed`, `BlockMap.Opened`, `BlockMap.Headed`, `BlockMap.Shown` and
`Billing.Settled`.

## What the code does otherwise than intended

- `list_prioritize` leaves the `prev` pointer of a promoted tail (disk.c:188-197). The list survives a trace exactly when no
  access hits the least recently used block of a full cache and the next access, flushes and bypassing writes aside, is to the
  same block (`CacheTraces.SafeExactly`). `db_allocate` and `db_free` read the head of the free list and, in the branches
  that change an entry of it, write it with nothing in between: those trip whenever that block is at the tail
  (`CacheTraces.ReadThenWrite`). With three buffers or more this is the only way in which a run of calls of sb.c and db.c can
  break the list (`CallTraces.CallsSafe`): reading the superblock first, they keep it among the two most recent blocks.
- `db_free` looks at the block id only to compare it with NUM_BLOCK. The list takes in exactly the data blocks that are not
  free (`FreeList.TakenExactly`); any other id it does not refuse leaves a list that does not record it or miscounts.
- Offsets are 32-bit products (disk.c:30, disk.c:47, disk.c:103), so ids that agree modulo 2^20 share a place
  (`Blocks.PositionWraps`, `CacheTraces.WrapOverwrites`). `sb_init` counts 7863029 free blocks, and `db_init` then writes index
  blocks into the inode table: it stays clear of it exactly up to 1023 * 1024 free blocks (`InitialList.PlacesExact`).
- A write with `access_disk` is seen by later reads exactly when the block is not cached (`CacheTraces.BypassCoherent`).
- `mkfs` on a cache of two buffers breaks the list when `inode_list_init` starts, and not before (`Format.TwoBuffersTrip`);
  three are enough (`Format.FormatDevice`).
- `free_block_by_num` gives up the double indirect block for any block number of its first row (inode.c:339). That loses no
  smaller number exactly when the number is not one of the 1023 after the first (`Shrink.ClearedSafe`), and loses no block
  exactly then (`Shrink.DropExact`); `truncate_file` is right for the cuts that release none of these
  (`Cut.CleanCutExact`). Any other cut of an exact file loses blocks as soon as it releases the first of these
  (`Cut.DropUntilEarly`): those of the earlier numbers of its row, and so blocks to be kept if more than 1036 are. What the
  loop does after that is not modelled.
- `inode_free` indexes the bitmap by `inum + bitmap_off` (inode.c:773): it marks inode `2 * inum` unused
  (`Lifetime.InodeFree`), and is inside the block exactly for `inum < 2048` (`Lifetime.MarkIndex`).
- `write_file` adds the length of each extending chunk to the size (inode.c:959), so a write that starts before an unaligned
  end of file and goes past it leaves too large a size. `Files.RightSizeWhen` says when the size is right, including a coincidence
  in which two errors cancel. The bytes are right in every case.
- `write_file` adds a block for every chunk that ends beyond the size, also when the chunk ends inside the last block
  (inode.c:947-949). One number too many is then mapped, and the next block added goes over its reference: the old one is
  neither owned nor free (`Ledger.Stranded`). `Billing.LosesNothingExactly` says for which offsets, sizes and file sizes no
  block ends up beyond the size or lost, and `Files.WriteFile` that the device does exactly that. An append to a file that
  does not end at a block boundary never qualifies (`Billing.AppendInside`); an extension by `truncate_file` does exactly if
  the file ends at one (`Files.TruncateFile`).
- `read_file` forgets the offset when it clamps the size (inode.c:868-874). `Reading.ReadExact` says for which reads the count is
  right. The others go on behind the mapped blocks, where `find_block_by_num` returns whatever word is there: `Reading.ReadFails`
  says when that ends in -1, and `Reading.ReadReached` what is read otherwise, block 0 included.
- `pcd_rename` deletes before it resolves the new parent. An existing file loses its name exactly if the new parent does not
  resolve, or its path goes through the old entry (`Paths.RenameLoses`), as for every move of a directory below itself
  (`Paths.BelowItself`, `Paths.RenameBelowItself`). Nor does it look for an entry with the new name, which then hides the
  renamed one (`Paths.MovedNames`).
- `find_inode` steps over as many bytes as the component has, counted from the slashes before it. A path with one slash too
  many resolves like the normalised one (`Paths.TokensDoubled`); one that begins with three has the last byte of its component
  looked up again (`Paths.TokensTripled`).

## Model

| member | source | states |
|---|---|---|
| Blocks.PositionWraps | disk.c:30-47 | the 32-bit offset of a block is the low 20 bits of its id: an id keeps its own place exactly below 2^20 |
| Blocks.WordsRoundTrip | inode.c:244-246 | copying words into a block and back gives the same words |
| Blocks.BytesRoundTrip | inode.c:244-246 | copying a block into words and back gives the same bytes |
| Blocks.WordAt | inode.c:244-246 | word k of a block is the little-endian one at byte 4 * k |
| CacheSpec.StepOk | disk.c:24-65 | slots in use stay first, distinct and, when clean, equal to the device, whatever is hit, evicted or written |
| CacheSpec.StepView | disk.c:24-82 | an operation changes the device a caller sees at the block it writes and nowhere else |
| CacheTraces.RunTransparent | disk.c:24-65 | after any admissible trace a block reads as the last value written to it, or its initial one |
| CacheTraces.BypassCoherent | disk.c:45-53 | a bypassing write is seen exactly when the block is not cached, or is cached with that content |
| CacheTraces.WrapOverwrites | disk.c:97-111 | writing one id and flushing changes another exactly when they agree modulo 2^20 |
| CacheTraces.SyncFlushes | disk.c:70-82 | sync leaves no dirty slot, makes the raw device equal to the view and keeps the view |
| CacheTraces.RecencyOrder | disk.c:157-211 | the reference list of recent blocks is in strictly decreasing order of last access |
| CacheTraces.RecencyMembers | disk.c:157-211 | the reference list holds exactly the blocks accessed |
| CacheTraces.LruExact | disk.c:157-211 | after any trace the cache holds exactly the most recent distinct blocks, most recent first, and the head is stale exactly after a tail hit |
| CacheTraces.LruInclusion | disk.c:157-211 | on the same trace, capacity K holds a prefix of what capacity K+1 holds |
| CacheTraces.SafeExactly | disk.c:183-198 | the list survives a trace exactly when no tail hit is followed by an access to the same block |
| CacheTraces.ReadThenWrite | db.c:33-83 | reading a block and then writing it breaks the list exactly when the block was at the tail |
| CacheTraces.UnsafeTrace | disk.c:188-198 | a trace of four reads that breaks a two-buffer cache |
| CacheTraces.CachedRecent | disk.c:24-65 | after any trace a block is cached exactly when it is among the k most recent |
| CacheTraces.SoundExactly | disk.c:24-82 | every operation of a trace finds the cache in order exactly when the trace is sound, a property of its block numbers alone |
| CacheTraces.SoundTransparent | disk.c:24-82 | after any sound trace a block reads as the last value written to it, or its initial one |
| CacheTraces.RawVersions | disk.c:97-111 | on every sound trace each raw block holds its initial value or a past write, and never an older one than before |
| CacheTraces.DirtyNotWritten | disk.c:163-171 | a block that is dirty after a step was not written to the device by that step |
| CallTraces.CallsSafe | db.c:5-264 | with three buffers or more, any run of calls leaves the list intact exactly if no head index block is at the tail when an entry of it is changed |
| CallTraces.CallsSound | db.c:5-264 | the cache gets a run of calls right exactly if that is so and all block ids are below 2^20 |
| CallTraces.RunCalls | db.c:5-264 | on such a run the pointer structures answer like a plain array of blocks; the accesses of a call are the ones its method in Store or FreeList is proved to make |
| RecencyList.List.constructor | disk.c:121-146 | list_init builds a doubly linked list of K nodes with buffer ids 0..K-1 |
| RecencyList.List.Prioritize | disk.c:183-212 | the node moves to the front and the links stay right, exactly unless the node is the stale head |
| RecencyList.List.Recycle | disk.c:157-181 | the tail becomes the head of a well-linked list that is not stale |
| HashTable.Table.Find | disk.c:239-250 | finds exactly the node the index maps the block to |
| HashTable.Table.Insert | disk.c:251-272 | adds one mapping, or refuses a block already there |
| HashTable.Table.Delete | disk.c:273-298 | removes exactly one mapping and reports whether it was there |
| DiskCache.Cache.constructor | fs.c:27-32 | the structures start as the empty cache over the device |
| DiskCache.Cache.ListAdd | disk.c:157-182 | list_add is the abstract insertion: dirty tail written back, buffer and node reused, index updated |
| DiskCache.Cache.ListPrioritize | disk.c:183-212 | list_prioritize is the abstract promotion, exactly unless it hits the stale head |
| DiskCache.Cache.DiskRead | disk.c:24-44 | returns what the caller should see on every call, and takes the abstract step exactly unless the step trips |
| DiskCache.Cache.DiskWrite | disk.c:45-65 | takes the abstract step exactly unless the step trips |
| DiskCache.Cache.DiskBypass | disk.c:46-53 | changes the device behind the cache and nothing else |
| DiskCache.Cache.SyncAll | disk.c:70-82 | the walk over the list takes the abstract flush |
| CacheRuns.RunTrace | disk.c:24-82 | a fresh cache of any capacity answers any sound trace like a plain array, ends well linked, and has made exactly the accesses of the trace |
| Store.SbRead | sb.c:46-64 | reads the superblock fields, with one access, to block 0 |
| Store.SbWrite | sb.c:66-78 | writes the superblock fields, with one access; the rest of block 0 is arbitrary |
| Store.DbRead | db.c:230-247 | reads a block, refusing ids above NUM_BLOCK, after one access to the superblock |
| Store.DbWrite | db.c:248-264 | writes a block and nothing else, refusing ids above NUM_BLOCK, after one access to the superblock |
| FreeList.DbAllocate | db.c:5-116 | removes and returns one free block, the first entry of the head index block or that block itself, fails exactly when there is none, changes only the superblock and the head index block, and makes exactly the accesses of the call |
| FreeList.DbFree | db.c:118-198 | for every id: refused above NUM_BLOCK; a data block that is not free is added, in the first hole of the head index block or as a new one, changing only the superblock, the head index block or the block itself; no other id is; the accesses are exactly those of the call |
| FreeList.TakenExactly | db.c:118-198 | afterwards the list is well formed and records that block as well exactly if it is a data block that was not free |
| FreeList.HandOut | db.c:68-116 | the search hands out an entry of the head index block, or the block itself |
| FreeList.Refuse | db.c:14-27 | an empty list is reset to the empty state, inconsistent fields included |
| FreeList.TakeEntry | db.c:68-95 | handing out an entry keeps the chain well formed and removes just that id |
| FreeList.TakeHead | db.c:96-116 | handing out an index block keeps the chain well formed from its link on |
| FreeList.GiveEntry | db.c:157-176 | filling a hole keeps the chain well formed and adds just that id |
| FreeList.GiveHead | db.c:178-192 | pushing an index block keeps the chain well formed and adds just that id |
| FreeList.ChainFrame | db.c:5-198 | blocks that are not free do not matter to the free list |
| FreeList.Exhausted | db.c:13-14 | the count is zero exactly when the chain and the free set are empty |
| FreeRuns.RunRequests | db.c:5-198 | over any run of allocations and releases, free and lent blocks make up the original set, lent blocks are distinct and keep their contents, NUM_FREE_BLOCK counts the free ones, and the accesses are those of a sequence of calls as in CallTraces |
| FreeRuns.Drain | db.c:5-116 | allocating until failure returns every free block exactly once |
| InitialList.LaidChain | db.c:293-325 | the index blocks of db_init form a well-formed chain that records one contiguous range |
| InitialList.InitialListOk | db.c:293-325 | db_init leaves a well-formed list of exactly the blocks from START_DATA_BLOCK on, also when the last index block is full |
| InitialList.PlacesExact | db.c:297-307 | the index blocks land on their own places exactly up to 1023 * 1024 free blocks, and in the inode table beyond |
| Inodes.PlacesDistinct | inode.c:125-131 | distinct inodes have disjoint records |
| Inodes.TableRange | inode.c:122-127 | records lie in the inode table and marks in the bitmap |
| Inodes.RecordLayout | inode.h:31-62 | every field of a record by its byte offset, and the mark by its byte |
| Inodes.FindInode | inode.c:102-135 | returns the record exactly of a marked inode |
| Inodes.WriteInode | inode.c:137-160 | the record reads back as written, every other record and block as before |
| Ownership.OneReference | inode.c:385-596 | under the invariant no block is referenced twice |
| Ownership.RefSetAllIds | inode.c:385-596 | rewriting one reference changes that reference and what lies under it, in no other inode |
| BlockMap.FindBlock | inode.c:218-272 | returns the id at the block number wherever its index blocks exist, -1 exactly for negative numbers, and otherwise, as long as the first id followed is not above NUM_BLOCK, exactly the word that the code picks up, those of block 0 included |
| BlockMap.LookedAt | inode.c:239-257 | which word that is: in the record, in the single indirect block, or in a row of the double indirect one |
| BlockMap.RefSetFs | inode.c:385-596 | setting one reference keeps the invariant as long as no mapped number is lost |
| BlockMap.OnlyFreeFs | inode.c:392-394 | allocating and releasing free blocks leaves every inode alone |
| Extend.AddBlock | inode.c:385-596 | maps the next block number to the block db_allocate hands out first, at the cost of exactly the blocks it needs, or fails exactly when there are too few; the attributes of the inode, other inodes, other numbers, bitmap, superblock and all file data stay; from an exact shape every block is accounted for |
| Growth.SetInodeSize | inode.c:604-611 | changes the size and nothing else |
| Growth.CostStep | inode.c:411-494 | the closed form for the blocks of a file grows by what each new block needs |
| Growth.Grow | inode.c:385-494 | growing block by block takes exactly that many blocks, numbers map to the ids returned, earlier numbers and other inodes do not change |
| Growth.FindGrown | inode.c:218-272 | on a grown inode find_block_by_num finds the k-th id at number k |
| Growth.GrowAndFind | inode.c:218-494 | looking all numbers up after growth gives the ids that add_block returned, in order |
| Growth.GrowAndFree | inode.c:718-766 | inode_free after growth restores the free set and NUM_FREE_BLOCK, up to the end of the double indirect region |
| Billing.LoopBillIs | inode.c:929-976 | the blocks that the loop of write_file takes, and whether it loses one, in closed form |
| Billing.ZeroBillIs | inode.c:1035-1056 | the same for an extension by zeroes, page by page |
| Billing.LosesNothingExactly | inode.c:906-976 | a write accounts for every block exactly for the offsets and sizes stated |
| Billing.AppendInside | inode.c:945-962 | an append to a file that ends inside a block never does |
| Ledger.Stranded | inode.c:385-494 | adding a block while one number too many is mapped leaves the old block neither owned nor free |
| Ledger.CountedExactly | inode.c:385-494 | from an exact shape, the device accounts for every block exactly when the bill says so |
| Shrink.ClearedSafe | inode.c:326-343 | the reference zeroed gives up smaller numbers exactly for the 1023 numbers after the first of the double indirect region |
| Shrink.FreeBlockByNum | inode.c:284-343 | zeroes one reference and releases exactly the index blocks the code takes to be empty |
| Shrink.DropLast | inode.c:1007-1011 | one turn of the loop releases and unlinks the last number, keeping the invariant |
| Shrink.DropExact | inode.c:326-343 | from an exact shape a turn accounts for every block exactly when its number is not one of those 1023 |
| Cut.CleanCutExact | inode.c:1005-1019 | a cut releases none of those numbers exactly for the totals and remainders stated |
| Cut.DropBlocks | inode.c:1005-1019 | the loop releases the blocks beyond the cut, keeps the others, and loses none from an exact shape |
| Cut.EarlyLoses | inode.c:336-341 | an early turn leaves the earlier blocks of the row neither owned nor free |
| Cut.DropUntilEarly | inode.c:1005-1019 | from an exact shape a cut that is not clean loses blocks, those of the numbers before the first early one included |
| Cut.RemainingIs | inode.c:1013-1017 | what the loop leaves of inode_size |
| Cut.CutFile | inode.c:996-1033 | the file keeps its first bytes, the tail is zeroed where the code zeroes it, blocks beyond are free, and its attributes, the bitmap and other files are as before |
| Lifetime.FindFreeInode | inode.c:77-100 | marks and returns the first unmarked inode, or fails exactly when all are marked |
| Lifetime.InodeAllocate | inode.c:680-716 | the new inode is empty and live with the record given, and nothing else changes, superblock included |
| Lifetime.FreeIndirect | inode.c:162-180 | releases the index block and its entries up to the first empty one |
| Lifetime.FreeDoubleIndirect | inode.c:182-198 | releases the double indirect block and its rows up to the first empty one |
| Lifetime.InodeFree | inode.c:718-777 | releases blocks of that inode only, all that its size covers, marks inode 2 * inum unused, and changes no record, no other mark and nothing in the superblock but the free list |
| Lifetime.MarkIndex | inode.c:769-774 | the bitmap index is inside the block exactly for the first 2048 inodes |
| FileView.OthersContents | inode.c:906-1059 | what happens to one inode leaves the bytes of every other file alone |
| FileView.RewriteFs | inode.c:274-282 | writing a data block keeps the invariant and changes that block of that file only |
| Chunking.WriteChunk | inode.c:945-965 | a turn of the loop adds a block if the chunk ends beyond the size, puts the chunk in place, grows the size by its length, and takes the blocks its bill says |
| Chunking.ChunkNext | inode.c:929-973 | the chunks tile the bytes written without gap or overlap |
| Chunking.SizeNext | inode.c:946-962 | the size after each chunk, in closed form |
| Chunking.WriteBlocks | inode.c:929-976 | the loop terminates, writes every byte of the buffer, keeps the rest of the file and of other files, leaves the closed-form size and takes exactly the blocks of its bill |
| Files.RightSizeWhen | inode.c:946-962 | the size left is right exactly for the writes stated, and never too small |
| Files.WriteFile | inode.c:906-977 | the result, the size and the bytes of write_file, errors included, with the rest of the old blocks, the attributes of the inode, the bitmap and other files kept and the invariant preserved; it takes exactly the blocks of its bill, and from an exact shape accounts for every block exactly if LosesNothing holds |
| Files.ExtendFile | inode.c:1035-1056 | extending appends zeroes up to the new size, page by page, and takes exactly the blocks of its bill |
| Files.TruncateFile | inode.c:979-1059 | truncate_file is a cut or a zero extension, errors included, and keeps the attributes of the inode; an extension accounts for every block exactly if the file ends at a block boundary |
| Reading.CopiedTotal | inode.c:886-901 | the bytes the loop of read_file copies, in closed form |
| Reading.ReadCountIs | inode.c:863-902 | the count that read_file comes to, in closed form, for every offset and size |
| Reading.ReadExact | inode.c:863-902 | that count is the number of bytes there are exactly for the reads stated |
| Reading.ReadBlocks | inode.c:884-901 | the result, and the bytes copied, for every number the loop gets to: the blocks found, block 0 for the id 0, what was in the buffer before for a refused id, and -1 exactly at the first number whose lookup comes up with UINT_MAX |
| Reading.ReadFile | inode.c:849-904 | the same for every read whose last block number does not wrap, errors included, and for the right ones the slice of the file |
| Reading.ReadFails | inode.c:887-902 | the result is -1 exactly if the lookup of a number on the way returns UINT_MAX, and the count otherwise |
| Reading.ReadReached | inode.c:887-902 | where the index blocks exist, and always below number 12, the count is returned; the bytes are those of the blocks mapped, also behind the end of the file, and of block 0 elsewhere |
| FileRuns.Perform | inode.c:849-1059 | one operation does to the device what it does to the map of files, and returns the code and the bytes that the map says |
| FileRuns.Run | inode.c:849-1059 | every run of allowed operations with enough free blocks refines the map from inode numbers to byte sequences, return codes included, changes no attribute of any file, and if no single operation loses a block then the run loses none |
| FileRuns.GrowAndCut | inode.c:996-1033 | a cut undoes block-aligned growth: contents and free set are what they were |
| Directory.RenamedName | syscall.c:624-646 | strcpy into an entry gives it that name and keeps its inode number |
| Directory.Renamed | syscall.c:646-647 | byte by byte: the name, its terminator, and nothing else, the file type included |
| Directory.Tomb | syscall.c:231-233 | byte by byte: four bytes of ones, a zero in front of the name, and the rest as before |
| Directory.EntryBytes | dir.h:7-12 | the inode number is the little-endian int at byte 0, and the name the C string at byte 5 |
| Directory.Terminated | dir.h:11 | an entry is terminated exactly if one of the 256 bytes of its name is zero |
| Directory.DirentTrip | syscall.c:180-183 | an entry filled from number, type and name, as DirentOf spells it byte by byte, reads back as them |
| Directory.NamesBear | syscall.c:78-106 | the name map holds exactly the names written from entry 2 on, with the numbers in front of them |
| Directory.FindNames | syscall.c:85-102 | searching the entries finds what the name map says |
| Directory.NoNames | syscall.c:265-277 | no name is in use exactly when every entry is empty |
| Directory.AppendNames | syscall.c:185-187 | appending adds the name to the map; names stay unique exactly when it was unused |
| Directory.DeleteNames | syscall.c:228-238 | the empty entry left behind removes exactly that name |
| DirOps.FindInodeIndex | syscall.c:78-106 | returns the inode number the name map has, or -1: the little-endian int in front of the name in the bytes of the directory |
| DirOps.DeleteDirent | syscall.c:208-252 | replaces the first entry of that name by an empty one, byte by byte, and hands it out, or fails exactly when there is none |
| DirOps.IsEmptyDir | syscall.c:260-280 | holds exactly when the name map is empty, and exactly when the name of every entry starts with a zero |
| DirOps.AddEntry | syscall.c:416-419 | write_file at the end of a directory appends the entry |
| DirOps.AddedFound | syscall.c:180-186 | an entry added under an unused name is found with its number, and every other name as before |
| DirOps.EntryRoomBound | syscall.c:416-419 | an entry never takes more than six blocks |
| Paths.FindInode | syscall.c:110-146 | looks the tokens of a path up one after the other from the root, and refuses a path without a leading slash |
| Paths.FirstTokenIs | syscall.c:68-76 | the token is what is behind the first slashes, up to the next one or the end |
| Paths.TokensOf | syscall.c:66-76 | the tokens of a normalised path are its components |
| Paths.TokensDoubled | syscall.c:123-143 | so are those of a path with one slash doubled, or one at its end |
| Paths.TokensTripled | syscall.c:123-143 | behind two slashes too many, the last byte of the component is looked up as well |
| Paths.WalkParent | syscall.c:610-625 | a path resolves exactly when its parent does and has the last name |
| Paths.GetParent | syscall.c:42-64 | splits a path at its last slash, and refuses one without a slash or with one at its end |
| Paths.ParentOf | syscall.c:42-64 | for a normalised path other than the root that gives its parent and its last name |
| Paths.Rename | syscall.c:627-661 | the outcome of pcd_rename in every case, including the one that loses the name; when it completes, byte by byte: the old entry is empty, and the new parent ends with a copy of it, number and type included, under the new name |
| Paths.MovedNames | syscall.c:639-658 | the old name goes, and the new one stands for the same inode exactly when it was unused by then or already did |
| Paths.ResolveDropped | syscall.c:110-146 | without an entry, exactly the paths through it cease to resolve, and the others resolve as before |
| Paths.RenameLoses | syscall.c:627-661 | the outcome of pcd_rename by the tree before the call: the name is lost exactly if the new parent does not resolve or is reached through the old entry |
| Paths.BelowItself | syscall.c:639-647 | the path of anything below an entry goes through it |
| Paths.RenameBelowItself | syscall.c:639-647 | a rename whose new parent exists when it is called, and which loses the name |
| Paths.WalkIs | syscall.c:110-146 | resolving a path over the entries on the device and over the name maps gives the same |
| Paths.RunTree | syscall.c:208-661 | over any run of additions, deletions, renames, lookups and tests for emptiness the entries on the device go on spelling the name maps, every result is the one the maps give, and no attribute of any file changes |
| Format.SbInit | sb.c:5-44 | block 0 holds the superblock, every field but padding and mount time by its place and value as in the source |
| Format.SuperFields | sb.c:7-30 | the struct in its block has those values in those places |
| Format.SuperBytes | sb.h:10-44 | and at those byte offsets |
| Format.SuperConstants | inode.c:102-131 | the constants of this model are the values that the code reads from there |
| Format.InodeBitmapInit | inode.c:12-33 | the bitmap blocks are zero |
| Format.InodeListInit | inode.c:35-72 | every slot of the inode table holds the default record, all of whose fields are zero |
| Format.DbInit | db.c:265-330 | the index blocks hold the initial free list, through writes to uncached blocks only |
| Format.Mkfs | fs.c:5-20 | the view has superblock, empty bitmap, default inodes and free list, whatever was on the device, through exactly the accesses of MkfsOps |
| Format.FormatDevice | fs.c:5-32 | the same from a fresh cache of at least three buffers |
| Format.TwoBuffersTrip | inode.c:12-68 | from an empty cache of two buffers, mkfs breaks the list at the second read of the superblock in inode_list_init and not before |
| Format.MkfsStarts | inode.c:12-68 | the trace of that theorem is how the accesses of mkfs start |
| Format.FormattedFs | fs.c:5-20 | a formatted device satisfies the invariants of the upper layers, with the free list disjoint from the metadata |
| Format.Mount | fs.c:5-20 | the upper layers can take such a device over |

## Left out

- Real input and output: `open`, `lseek`, `read`, `write`, short reads, and every path taken when they fail. The device is a
  total array of blocks.
- `malloc` and `free`, `printf`, the clock, users and groups. Time and owner are parameters of `Lifetime.InodeAllocate`.
- The accessors for mode, owner, times and link count, and the link count itself.
- FUSE, `pcd_mkroot`, `pcd_mkdir`, `pcd_mknod`, `pcd_link` and the other thin wrappers of syscall.c; the entries they write are
  arguments of `DirOps.AddEntry`.
- Triple indirect blocks: for int offsets the numbers stay below 2^19 (`Chunking.IntBlocks`), so they are never reached.
- Inode numbers after `inode_free`: the inode whose mark is cleared is not the one freed, so both leave the live set.
- Running out of space inside `write_file`, which ignores the result of `add_block`; the exact number of blocks taken is a
  precondition.
- Store.Device: upper layers sit on an array of blocks, and do not state which accesses they add to its log; which of their
  traces the cache gets right is what `CallTraces.CallsSound` says.
- Reading.ReadFile: does not model the zero byte that a read of an empty file puts into the buffer.
- Reading.ReadFile: requires that the last block number does not wrap to 2^32 - 1; a read for which it does goes on through
  the triple indirect numbers, where the indexes computed leave their blocks.
- BlockMap.FindBlock: says nothing about the word returned where the first index block followed has an id above NUM_BLOCK; no
  live inode has such an id.
- Files.WriteFile: says nothing about bytes that the write does not reach in a block it adds; they are what the free block held.
- Extend.AddBlock: requires a file that has not reached the triple indirect region.
- Growth.SetInodeSize: requires a size up to the blocks mapped, beyond which the invariant would not hold.
- Growth.GrowAndFree: requires an inode number below 2048, beyond which `inode_free` leaves the bitmap block
  (`Lifetime.MarkIndex`).
- Lifetime.InodeFree: likewise.
- Cut.DropBlocks: requires a clean cut; `Cut.DropUntilEarly` has the other ones up to and including the first early turn. After
  that the loop goes on in the superblock.
- Cut.CutFile: likewise.
- Files.TruncateFile: likewise.
- Paths.RunTree: six free blocks for each operation are an upper bound (`DirOps.EntryRoomBound`); new names are unused, because
  after an addition of a used one (`Directory.AppendNames`) a name no longer determines its entry.
- CacheTraces.WrapOverwrites: stated for one write and a flush on a fresh cache.
- Paths.FindInode: requires that `strtok` finds a token whenever there is something left of the path; otherwise `get_dir` copies
  from a null pointer. Components are looked up in directories only, and names are shorter than 256 bytes.
- Paths.Rename: requires normalised paths other than the root; for the root `get_parent` leaves the parent path unset.
- Format.SbInit: the counts are parameters, because those in the source are beyond what 32-bit offsets can address; padding
  and mount time are arbitrary.
- Inodes.FindInode: an unmarked inode leaves the caller with the previous record; callers here use live inodes only.
