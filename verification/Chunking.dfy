// The chunk loop of write_file (inode.c).

module Chunking {
  import opened Blocks
  import opened Store
  import opened Inodes
  import opened Ownership
  import opened BlockMap
  import opened Extend
  import opened Growth
  import opened FileView
  import opened Billing
  import opened Ledger
  import opened Lifetime
  import FreeList

  // write_block_by_num
  method WriteBlockByNum(s: Device, inum: nat, num: int, block: WordBlock) returns (r: Option<nat>)
    requires Fs(s) && inum in s.live && 0 <= num < FIRST_TRIPLE && Id(s.blocks, inum, Data(num)) != 0
    modifies s.log, s`blocks
    ensures Fs(s) && r == Some(Id(old(s.blocks), inum, Data(num)))
    ensures Rewritten(old(s.blocks), s.blocks, s.own, s.live, inum, num, block)
  {
    ghost var d := s.blocks;
    LiveInRange(d, s.free, s.own, s.live);
    assert Reachable(d, inum, num) && InData(d, Id(d, inum, Data(num))) by {
      Open(d, s.free, s.own, s.live);
      MappedReachable(d, s.own, s.live, inum, num);
    }
    r := FindBlock(s, inum, num);
    var _ := DbWrite(s, block, r.value);
    RewriteFs(d, s.blocks, s.chain, s.free, s.own, s.live, inum, num, block);
  }

  // The middle of write_file's loop: the block is found, read, patched and written back.
  method PatchBlock(s: Device, inum: nat, num: int, o: nat, chunk: seq<Byte>) returns (ghost ws: WordBlock)
    requires Fs(s) && inum in s.live && 0 <= num < FIRST_TRIPLE && Id(s.blocks, inum, Data(num)) != 0
    requires o + |chunk| <= DB_SIZE
    modifies s.log, s`blocks
    ensures Fs(s)
    ensures Rewritten(old(s.blocks), s.blocks, s.own, s.live, inum, num, ws)
    ensures Spliced(DataAt(old(s.blocks), inum, num), ws, o, chunk)
  {
    ghost var d := s.blocks;
    LiveInRange(d, s.free, s.own, s.live);
    assert Reachable(d, inum, num) && InData(d, Id(d, inum, Data(num))) by {
      Open(d, s.free, s.own, s.live);
      MappedReachable(d, s.own, s.live, inum, num);
    }
    var bid := FindBlock(s, inum, num);
    var block := DbRead(s, bid.value);
    BlockSpliced(block.value, o, chunk);
    ws := BlockSplice(block.value, o, chunk);
    var _ := WriteBlockByNum(s, inum, num, BlockSplice(block.value, o, chunk));
  }

  // ---------- one turn of write_file's loop ----------

  lemma GrowSame(d: Disk, own: Owners, d': Disk, live: set<nat>, inum: nat, n: nat, x: nat)
    requires OwnOk(d, own, live) && inum in live && x != 0 && n < FIRST_TRIPLE
    requires forall k {:trigger Data(k)} :: 0 <= k < n ==> Id(d, inum, Data(k)) != 0
    requires AddedIds(d, d', live, inum, n, x)
    requires forall id {:trigger own[id]} :: id in own && own[id].ref.Data? ==> W(d', id) == W(d, id)
    ensures SameData(d, d', inum, n) && AllMapped(d', inum, n + 1)
  {
    forall k | 0 <= k < n
      ensures Id(d', inum, Data(k)) == Id(d, inum, Data(k)) != 0 && DataAt(d', inum, k) == DataAt(d, inum, k)
    {
      assert Id(d, inum, Data(k)) != 0;
      assert own[Id(d, inum, Data(k))] == Owner(inum, Data(k));
    }
  }

  lemma GrowData(d: Disk, free: set<nat>, own: Owners, d': Disk, free': set<nat>, own': Owners,
                 live: set<nat>, inum: nat, x: nat)
    requires FsOk(d, free, own, live) && inum in live && x != 0 && BlocksOf(InodeAt(d, inum)) < FIRST_TRIPLE
    requires Added(d, free, own, d', free', own', live, inum, x)
    ensures var n := BlocksOf(InodeAt(d, inum)); SameData(d, d', inum, n) && AllMapped(d', inum, n + 1)
    ensures OthersKept(d, own, d', live, inum)
  {
    var n := BlocksOf(InodeAt(d, inum));
    assert SameData(d, d', inum, n) && AllMapped(d', inum, n + 1) by {
      Open(d, free, own, live);
      assert Mapped(d, inum);
      GrowSame(d, own, d', live, inum, n, x);
    }
  }

  // The chunk is in the file at pos, and the bytes of the blocks mapped before are otherwise the same.  Sealed like
  // Linked.
  ghost predicate ChunkWritten(d: Disk, d': Disk, inum: nat, n: nat, pos: nat, chunk: seq<Byte>)
  {
    forall w {:trigger Opened(w)} :: Opened(w) ==>
      && (forall p {:trigger Raw(d', inum, p)} :: 0 <= p < DB_SIZE * n ==>
           Raw(d', inum, p) == Put(d, inum, pos, chunk, p))
      && (forall p {:trigger Raw(d', inum, p)} :: pos <= p < pos + |chunk| ==> Raw(d', inum, p) == chunk[p - pos])
  }

  lemma ChunkInBlock(num: nat, o: nat, w: nat, p: nat)
    requires o + w <= DB_SIZE && DB_SIZE * num + o <= p < DB_SIZE * num + o + w
    ensures p / DB_SIZE == num
  {
  }

  // Growth, patch and new size together; without growth n1 == n, and without a new size d3 == d2.
  lemma ChunkBytes(d: Disk, d1: Disk, d2: Disk, d3: Disk, inum: nat, n: nat, n1: nat,
                   num: nat, o: nat, chunk: seq<Byte>, pos: nat)
    requires o + |chunk| <= DB_SIZE && num < n1 && n <= n1 && pos == DB_SIZE * num + o
    requires SameData(d, d1, inum, n) && Patched(d1, d2, inum, n1, pos, chunk) && SameData(d2, d3, inum, n1)
    ensures ChunkWritten(d, d3, inum, n, pos, chunk)
  {
    assert Opened(true);
    forall p | 0 <= p < DB_SIZE * n1
      ensures Raw(d3, inum, p) == Raw(d2, inum, p)
      ensures p < DB_SIZE * n ==> Raw(d1, inum, p) == Raw(d, inum, p)
    {
      assert p / DB_SIZE < n1 && (p < DB_SIZE * n ==> p / DB_SIZE < n);
      assert DataAt(d3, inum, p / DB_SIZE) == DataAt(d2, inum, p / DB_SIZE);
      assert p < DB_SIZE * n ==> DataAt(d1, inum, p / DB_SIZE) == DataAt(d, inum, p / DB_SIZE);
    }
    forall p | pos <= p < pos + |chunk|
      ensures Raw(d3, inum, p) == chunk[p - pos]
    {
      ChunkInBlock(num, o, |chunk|, p);
      assert p < DB_SIZE * n1;
      assert Raw(d2, inum, p) == Put(d1, inum, pos, chunk, p);
    }
  }

  // Room and place of an extending chunk.
  lemma ChunkPlace(cur: nat, num: nat, o: nat, w: nat)
    requires 0 < w && o + w <= DB_SIZE && DB_SIZE * num + o <= cur
    ensures DB_SIZE * num + o + w <= cur ==> num < BlocksFor(cur)
    ensures DB_SIZE * num + o + w > cur ==> num < BlocksFor(cur) + 1 && BlocksFor(cur + w) <= BlocksFor(cur) + 1
  {
  }

  // A turn that stays inside the file.
  method ChunkInside(s: Device, inum: nat, chunk: seq<Byte>, start_num: nat, start_off: nat, ghost pos: nat,
                     ghost cur: nat)
    requires Fs(s) && inum in s.live && cur == Size(InodeAt(s.blocks, inum)) && pos == DB_SIZE * start_num + start_off
    requires start_off + |chunk| <= DB_SIZE && start_num < BlocksFor(cur)
    modifies s.log, s`blocks
    ensures Fs(s) && OthersKept(old(s.blocks), s.own, s.blocks, s.live, inum) && SameMap(old(s.blocks), s.blocks, inum)
    ensures Size(InodeAt(s.blocks, inum)) == cur
    ensures ChunkWritten(old(s.blocks), s.blocks, inum, BlocksFor(cur), pos, chunk)
  {
    ghost var d := s.blocks;
    NumMapped(d, s.free, s.own, s.live, inum, start_num);
    ghost var ws := PatchBlock(s, inum, start_num, start_off, chunk);
    InsideEffect(d, s.blocks, s.free, s.own, s.live, inum, BlocksFor(cur), start_num, start_off, chunk, ws, pos);
  }

  lemma NumMapped(d: Disk, free: set<nat>, own: Owners, live: set<nat>, inum: nat, k: nat)
    requires FsOk(d, free, own, live) && inum in live && k < BlocksOf(InodeAt(d, inum))
    ensures Id(d, inum, Data(k)) != 0 && k < FIRST_TRIPLE
  {
    MappedFile(d, free, own, live, inum);
    MappedAt(d, inum, BlocksOf(InodeAt(d, inum)), k);
  }

  lemma RewrittenMap(d: Disk, d': Disk, own: Owners, live: set<nat>, inum: nat, num: nat, ws: WordBlock)
    requires Rewritten(d, d', own, live, inum, num, ws) && inum in live
    ensures SameMap(d, d', inum)
  {
    assert Opened(true);
  }

  lemma ResizedMap(d1: Disk, d2: Disk, d3: Disk, live: set<nat>, inum: nat, size: nat)
    requires SameMap(d1, d2, inum) && inum in live && size < 0x1_0000_0000_0000_0000
    requires Resized(d2, d3, live, inum, size)
    ensures SameMap(d1, d3, inum)
  {
    SameMapThen(d1, d2, d3, inum);
  }

  lemma InsideEffect(d: Disk, d': Disk, free: set<nat>, own: Owners, live: set<nat>, inum: nat, n: nat,
                     num: nat, o: nat, chunk: seq<Byte>, ws: WordBlock, pos: nat)
    requires FsOk(d, free, own, live) && inum in live && o + |chunk| <= DB_SIZE && num < n && pos == DB_SIZE * num + o
    requires n == BlocksOf(InodeAt(d, inum))
    requires Rewritten(d, d', own, live, inum, num, ws) && Spliced(DataAt(d, inum, num), ws, o, chunk)
    ensures OthersKept(d, own, d', live, inum) && InodeAt(d', inum) == InodeAt(d, inum)
    ensures ChunkWritten(d, d', inum, n, pos, chunk) && SameMap(d, d', inum)
  {
    RewrittenMap(d, d', own, live, inum, num, ws);
    MappedFile(d, free, own, live, inum);
    MappedAt(d, inum, n, num);
    BeyondPatched(d, d', free, own, live, inum, n, num, o, chunk, ws, n, pos);
    ChunkBytes(d, d, d', d', inum, n, n, num, o, chunk, pos);
  }

  // A turn that extends the file, after add_block: d0 is the state before it.
  method ChunkBeyond(s: Device, inum: nat, chunk: seq<Byte>, start_num: nat, start_off: nat, size: nat,
                     ghost pos: nat, ghost d0: Disk, ghost n: nat, ghost n1: nat)
    requires pos == DB_SIZE * start_num + start_off && n1 == n + 1
    requires Fs(s) && inum in s.live && AllMapped(s.blocks, inum, n1) && SameData(d0, s.blocks, inum, n)
    requires start_off + |chunk| <= DB_SIZE && start_num < n1 && BlocksFor(size) <= n1 && size < 0x1_0000_0000_0000_0000
    modifies s.log, s`blocks
    ensures Fs(s) && OthersKept(old(s.blocks), s.own, s.blocks, s.live, inum) && SameMap(old(s.blocks), s.blocks, inum)
    ensures Size(InodeAt(s.blocks, inum)) == size
    ensures ChunkWritten(d0, s.blocks, inum, n, pos, chunk)
  {
    ghost var d1 := s.blocks;
    MappedAt(d1, inum, n1, start_num);
    ghost var ws := PatchBlock(s, inum, start_num, start_off, chunk);
    ghost var d2 := s.blocks;
    BeyondPatched(d1, d2, s.free, s.own, s.live, inum, n1, start_num, start_off, chunk, ws, BlocksFor(size), pos);
    RewrittenMap(d1, d2, s.own, s.live, inum, start_num, ws);
    var _ := SetInodeSize(s, inum, size);
    ResizedMap(d1, d2, s.blocks, s.live, inum, size);
    BeyondEffect(d0, d1, d2, s.blocks, s.free, s.own, s.live, inum, n, n1, start_num, start_off, chunk, size, pos);
  }

  lemma BeyondPatched(d1: Disk, d2: Disk, free: set<nat>, own: Owners, live: set<nat>, inum: nat, n: nat,
                      num: nat, o: nat, chunk: seq<Byte>, ws: WordBlock, m: nat, pos: nat)
    requires pos == DB_SIZE * num + o
    requires FsOk(d1, free, own, live) && inum in live && o + |chunk| <= DB_SIZE && num < n && m <= n
    requires AllMapped(d1, inum, n)
    requires Rewritten(d1, d2, own, live, inum, num, ws) && Spliced(DataAt(d1, inum, num), ws, o, chunk)
    ensures Patched(d1, d2, inum, n, pos, chunk) && AllMapped(d2, inum, n) && AllMapped(d2, inum, m)
    ensures OthersKept(d1, own, d2, live, inum) && InodeAt(d2, inum) == InodeAt(d1, inum)
  {
    MappedAt(d1, inum, n, num);
    assert Patched(d1, d2, inum, n, pos, chunk) && AllMapped(d2, inum, n) by {
      OpenOwn(d1, free, own, live);
      RewritePatched(d1, d2, own, live, inum, num, o, chunk, ws, n, pos);
    }
    assert OthersKept(d1, own, d2, live, inum) && InodeAt(d2, inum) == InodeAt(d1, inum) by {
      OpenOwn(d1, free, own, live);
      RewriteOthers(d1, d2, own, live, inum, num, ws);
    }
    MappedLess(d2, inum, n, m);
  }

  lemma BeyondEffect(d0: Disk, d1: Disk, d2: Disk, d3: Disk, free: set<nat>, own: Owners, live: set<nat>,
                     inum: nat, n: nat, n1: nat, num: nat, o: nat, chunk: seq<Byte>, size: nat, pos: nat)
    requires pos == DB_SIZE * num + o && n <= n1
    requires FsOk(d1, free, own, live) && FsOk(d2, free, own, live) && inum in live && o + |chunk| <= DB_SIZE
    requires num < n1
    requires SameData(d0, d1, inum, n) && Patched(d1, d2, inum, n1, pos, chunk) && AllMapped(d2, inum, n1)
    requires OthersKept(d1, own, d2, live, inum) && size < 0x1_0000_0000_0000_0000 && Resized(d2, d3, live, inum, size)
    ensures OthersKept(d1, own, d3, live, inum)
    ensures ChunkWritten(d0, d3, inum, n, pos, chunk)
  {
    assert SameData(d2, d3, inum, n1) by {
      OpenOwn(d2, free, own, live);
      ResizeData(d2, own, d3, live, inum, size, n1);
    }
    ChunkBytes(d0, d1, d2, d3, inum, n, n1, num, o, chunk, pos);
    assert OthersKept(d1, own, d3, live, inum) by {
      OpenOwn(d1, free, own, live);
      OthersResized(d1, own, d2, d3, live, inum, size);
    }
  }

  // What a turn takes, and does to the books.
  function ChunkBill(cur: nat, pos: nat, w: nat): Bill
  {
    if pos + w > cur then TurnBill(cur, w) else NO_BILL
  }

  // Room for the next turn.  Sealed by Settled.
  ghost predicate CanAdd(cur: nat, free: set<nat>)
  {
    forall w {:trigger Settled(w)} :: Settled(w) ==> BlocksFor(cur) < FIRST_TRIPLE && |free| >= Needed(BlocksFor(cur))
  }

  // ChunkBill, sealed by Settled.
  ghost predicate ChunkIs(cur: nat, pos: nat, w: nat, t: Bill)
  {
    forall v {:trigger Settled(v)} :: Settled(v) ==> t == ChunkBill(cur, pos, w)
  }

  // Added, with what write_file needs to know of it.  Sealed by Shown.
  ghost predicate Lengthened(d: Disk, free: set<nat>, own: Owners, d': Disk, free': set<nat>, own': Owners,
                             live: set<nat>, inum: nat, x: nat)
  {
    forall w {:trigger Shown(w)} :: Shown(w) ==>
      && FsOk(d, free, own, live) && FsOk(d', free', own', live) && inum in live
      && Added(d, free, own, d', free', own', live, inum, x) && OthersKept(d, own, d', live, inum)
  }

  // add_block for a file of size cur.
  method AddFor(s: Device, inum: nat, cur: nat, ghost n: nat, ghost n1: nat) returns (ghost x: nat)
    requires Fs(s) && inum in s.live && cur == Size(InodeAt(s.blocks, inum)) && CanAdd(cur, s.free)
    requires n == BlocksFor(cur) && n1 == n + 1
    modifies s.log, s`blocks, s`chain, s`free, s`own
    ensures Fs(s) && Lengthened(old(s.blocks), old(s.free), old(s.own), s.blocks, s.free, s.own, s.live, inum, x)
    ensures SameData(old(s.blocks), s.blocks, inum, n) && AllMapped(s.blocks, inum, n1)
  {
    ghost var d, free, own := s.blocks, s.free, s.own;
    assert BlocksFor(cur) < FIRST_TRIPLE && |s.free| >= Needed(BlocksFor(cur)) by { assert Settled(true); }
    var r := AddTo(s, inum);
    GrowData(d, free, own, s.blocks, s.free, s.own, s.live, inum, r.value);
    x := r.value;
  }

  method AddTo(s: Device, inum: nat) returns (r: Option<nat>)
    requires Fs(s) && inum in s.live && BlocksOf(InodeAt(s.blocks, inum)) < FIRST_TRIPLE
    requires |s.free| >= Needed(BlocksOf(InodeAt(s.blocks, inum)))
    modifies s.log, s`blocks, s`chain, s`free, s`own
    ensures Fs(s) && r.Some? && r.value != 0
    ensures Added(old(s.blocks), old(s.free), old(s.own), s.blocks, s.free, s.own, s.live, inum, r.value)
  {
    FreeList.RecordsFacts(s.blocks, s.chain, s.free);
    r := AddBlock(s, inum);
  }

  lemma ExtendingDone(d: Disk, free: set<nat>, own: Owners, d1: Disk, free1: set<nat>, own1: Owners,
                      d2: Disk, live: set<nat>, inum: nat, x: nat, cur: nat, pos: nat, w: nat, t: Bill)
    requires Lengthened(d, free, own, d1, free1, own1, live, inum, x) && cur == Size(InodeAt(d, inum))
    requires Size(InodeAt(d2, inum)) == cur + w && 0 < w <= DB_SIZE && pos + w > cur && ChunkIs(cur, pos, w, t)
    requires OthersKept(d1, own1, d2, live, inum) && SameMap(d1, d2, inum)
    ensures Counted(d, free, own, d2, free1, own1, inum, t) && OthersKept(d, own, d2, live, inum)
  {
    assert t == TurnBill(cur, w) by { assert Settled(true); }
    assert Shown(true);
    TurnCounted(d, free, own, d1, free1, own1, d2, live, inum, x, cur, w);
    OthersThen(d, free, own, d1, free1, own1, d2, live, inum);
  }

  // A turn that extends the file: a block is added, whatever the chunk needs, the chunk is written, and the size grows
  // by its length.
  method ChunkExtending(s: Device, inum: nat, chunk: seq<Byte>, start_num: nat, start_off: nat, pos: nat,
                        inode_size: nat, ghost t: Bill)
    requires Fs(s) && inum in s.live && inode_size == Size(InodeAt(s.blocks, inum)) < 0x2_0000_0000
    requires pos == DB_SIZE * start_num + start_off && 0 < |chunk| <= DB_SIZE - start_off
    requires pos <= inode_size < pos + |chunk|
    requires CanAdd(inode_size, s.free) && ChunkIs(inode_size, pos, |chunk|, t)
    modifies s.log, s`blocks, s`chain, s`free, s`own
    ensures Fs(s) && OthersKept(old(s.blocks), old(s.own), s.blocks, s.live, inum)
    ensures Size(InodeAt(s.blocks, inum)) == inode_size + |chunk|
    ensures ChunkWritten(old(s.blocks), s.blocks, inum, BlocksFor(inode_size), pos, chunk)
    ensures Counted(old(s.blocks), old(s.free), old(s.own), s.blocks, s.free, s.own, inum, t)
  {
    ghost var d, free, own := s.blocks, s.free, s.own;
    ChunkPlace(inode_size, start_num, start_off, |chunk|);
    ghost var n, n1 := BlocksFor(inode_size), BlocksFor(inode_size) + 1;
    ghost var x := AddFor(s, inum, inode_size, n, n1);
    ghost var d1, free1, own1 := s.blocks, s.free, s.own;
    ChunkBeyond(s, inum, chunk, start_num, start_off, inode_size + |chunk|, pos, d, n, n1);
    ExtendingDone(d, free, own, d1, free1, own1, s.blocks, s.live, inum, x, inode_size, pos, |chunk|, t);
  }

  // One turn; t is what it takes.
  method WriteChunk(s: Device, inum: nat, chunk: seq<Byte>, start_num: nat, start_off: nat, pos: nat, inode_size: nat)
    returns (size: nat, ghost t: Bill)
    requires Fs(s) && inum in s.live && inode_size == Size(InodeAt(s.blocks, inum)) < 0x2_0000_0000
    requires pos == DB_SIZE * start_num + start_off && 0 < |chunk| <= DB_SIZE - start_off && pos <= inode_size
    requires pos + |chunk| > inode_size ==> CanAdd(inode_size, s.free)
    modifies s.log, s`blocks, s`chain, s`free, s`own
    ensures Fs(s) && OthersKept(old(s.blocks), old(s.own), s.blocks, s.live, inum)
    ensures size == Size(InodeAt(s.blocks, inum)) == if pos + |chunk| > inode_size then inode_size + |chunk|
      else inode_size
    ensures ChunkWritten(old(s.blocks), s.blocks, inum, BlocksFor(inode_size), pos, chunk)
    ensures ChunkIs(inode_size, pos, |chunk|, t)
    ensures Counted(old(s.blocks), old(s.free), old(s.own), s.blocks, s.free, s.own, inum, t)
  {
    ghost var d := s.blocks;
    t := ChunkBill(inode_size, pos, |chunk|);
    size := inode_size;
    if pos + |chunk| > inode_size {
      size := inode_size + |chunk|;
      ChunkExtending(s, inum, chunk, start_num, start_off, pos, inode_size, t);
    } else {
      ChunkPlace(inode_size, start_num, start_off, |chunk|);
      ChunkInside(s, inum, chunk, start_num, start_off, pos, inode_size);
      CountedSame(d, s.blocks, s.free, s.own, inum);
    }
  }

  // ---------- the loop of write_file ----------

  const INT_MAX := 0x7FFF_FFFF

  // The size that write_file leaves.  Each extending chunk adds its length to a size that may already lie inside the
  // chunk, so a write that starts before an unaligned end of file and goes past it overshoots by what it overlaps
  // there.
  function SizeAfter(inodeSize: nat, offset: nat, size: nat): nat
    requires offset <= inodeSize && size > 0
  {
    var e := FirstBeyond(inodeSize, offset);
    var over := inodeSize - e;
    var last := LastChunk(offset, size);
    if offset + size <= inodeSize then inodeSize
    else if last > e && offset + size - last <= over then last + over
    else offset + size + over
  }

  // The size during the loop, with the chunks before pos written.
  predicate SizeAt(inodeSize: nat, offset: nat, size: nat, pos: nat, cur: nat)
    requires offset <= inodeSize
  {
    var e := FirstBeyond(inodeSize, offset);
    cur == if offset + size <= inodeSize || pos <= e then inodeSize else pos + (inodeSize - e)
  }

  // Position of the loop: the next chunk is bytes [o, o + w) of block num.
  predicate ChunkAt(offset: nat, size: nat, pos: nat, num: nat, o: nat, w: nat)
  {
    var rest := offset + size - pos;
    && offset <= pos <= offset + size
    && (if rest == 0 then size > 0 && num == (offset + size - 1) / DB_SIZE + 1
        else pos == DB_SIZE * num + o && o < DB_SIZE && w == (if rest >= DB_SIZE - o then DB_SIZE - o else rest))
    && (pos > offset && rest > 0 ==> o == 0)
  }

  lemma ChunkNext(offset: nat, size: nat, pos: nat, num: nat, o: nat, w: nat)
    requires ChunkAt(offset, size, pos, num, o, w) && pos < offset + size
    ensures 0 < w <= DB_SIZE - o && num <= (offset + size - 1) / DB_SIZE && w == ChunkLength(pos, offset + size - pos)
    ensures var rest := offset + size - pos - w;
      rest >= 0 && ChunkAt(offset, size, pos + w, num + 1, 0, if rest >= DB_SIZE then DB_SIZE else rest)
  {
    var last := offset + size - 1;
    assert pos % DB_SIZE == o;
    assert DB_SIZE * (last / DB_SIZE) + last % DB_SIZE == last;
  }

  // The loop is at its end exactly when num has passed the last block.
  lemma ChunkEnd(offset: nat, size: nat, pos: nat, num: nat, o: nat, w: nat)
    requires ChunkAt(offset, size, pos, num, o, w)
    ensures size > 0 ==> (pos == offset + size <==> num > (offset + size - 1) / DB_SIZE)
  {
    if pos < offset + size { ChunkNext(offset, size, pos, num, o, w); }
  }

  lemma SizeNext(inodeSize: nat, offset: nat, size: nat, pos: nat, num: nat, o: nat, w: nat, cur: nat)
    requires offset <= inodeSize && ChunkAt(offset, size, pos, num, o, w) && pos < offset + size
    requires SizeAt(inodeSize, offset, size, pos, cur)
    ensures pos <= cur && inodeSize <= cur
    ensures var cur' := if pos + w > cur then cur + w else cur;
      if pos + w == offset + size then cur' == SizeAfter(inodeSize, offset, size)
      else SizeAt(inodeSize, offset, size, pos + w, cur')
  {
    ChunkNext(offset, size, pos, num, o, w);
    var e := FirstBeyond(inodeSize, offset);
    assert inodeSize == DB_SIZE * (inodeSize / DB_SIZE) + inodeSize % DB_SIZE;
  }

  // The bytes written so far are buf's; the rest of the file's old blocks is untouched, also behind its end.
  ghost predicate Progress(d0: Disk, d: Disk, inum: nat, inodeSize: nat, offset: nat, buf: seq<Byte>, pos: nat)
    requires offset <= pos <= offset + |buf|
  {
    && (forall p {:trigger Raw(d, inum, p)} :: offset <= p < pos ==> Raw(d, inum, p) == buf[p - offset])
    && (forall p {:trigger Raw(d, inum, p)} :: 0 <= p < DB_SIZE * BlocksFor(inodeSize) && !(offset <= p < pos) ==>
         Raw(d, inum, p) == Raw(d0, inum, p))
  }

  lemma ProgressNext(d0: Disk, d: Disk, d': Disk, inum: nat, inodeSize: nat, offset: nat, buf: seq<Byte>,
                     pos: nat, cur: nat, chunk: seq<Byte>)
    requires offset <= pos <= pos + |chunk| <= offset + |buf| && pos <= cur && inodeSize <= cur
    requires Progress(d0, d, inum, inodeSize, offset, buf, pos) && chunk == buf[pos - offset..pos - offset + |chunk|]
    requires ChunkWritten(d, d', inum, BlocksFor(cur), pos, chunk)
    ensures Progress(d0, d', inum, inodeSize, offset, buf, pos + |chunk|)
  {
    assert Opened(true);
    assert cur <= DB_SIZE * BlocksFor(cur) && DB_SIZE * BlocksFor(inodeSize) <= DB_SIZE * BlocksFor(cur);
    forall p | offset <= p < pos + |chunk|
      ensures Raw(d', inum, p) == buf[p - offset]
    {
      if p < pos { assert Raw(d, inum, p) == buf[p - offset]; }
    }
    forall p | 0 <= p < DB_SIZE * BlocksFor(inodeSize) && !(offset <= p < pos + |chunk|)
      ensures Raw(d', inum, p) == Raw(d0, inum, p)
    {
      assert Raw(d, inum, p) == Raw(d0, inum, p);
    }
  }

  // The variables of the loop.  Sealed like Linked.
  ghost predicate Counters(inodeSize: nat, offset: nat, total: nat, done: nat, size: nat, num: nat, end: nat, o: nat,
                           w0: nat, cur: nat)
  {
    forall w {:trigger Opened(w)} :: Opened(w) ==>
      CountersAll(inodeSize, offset, total, done, size, num, end, o, w0, cur)
  }

  predicate CountersAll(inodeSize: nat, offset: nat, total: nat, done: nat, size: nat, num: nat, end: nat, o: nat,
                        w: nat, cur: nat)
  {
    && offset <= inodeSize && total > 0 && done + size == total && end == (offset + total - 1) / DB_SIZE
    && ChunkAt(offset, total, offset + done, num, o, w) && (num > end <==> size == 0)
    && (if size > 0 then SizeAt(inodeSize, offset, total, offset + done, cur)
         else cur == SizeAfter(inodeSize, offset, total))
  }

  lemma CountersStart(inodeSize: nat, offset: nat, total: nat, end: nat, w: nat)
    requires offset <= inodeSize && total > 0
    requires end == (offset + total) / DB_SIZE - if (offset + total) % DB_SIZE == 0 then 1 else 0
    requires var o := offset % DB_SIZE; w == if total >= DB_SIZE - o then DB_SIZE - o else total
    ensures Counters(inodeSize, offset, total, 0, total, offset / DB_SIZE, end, offset % DB_SIZE, w, inodeSize)
  {
    ChunkEnd(offset, total, offset, offset / DB_SIZE, offset % DB_SIZE, w);
  }

  lemma CountersFit(inodeSize: nat, offset: nat, total: nat, done: nat, size: nat, num: nat, end: nat, o: nat, w: nat,
                    cur: nat)
    requires Counters(inodeSize, offset, total, done, size, num, end, o, w, cur) && num <= end
    ensures w <= size
  {
    assert Opened(true);
    ChunkNext(offset, total, offset + done, num, o, w);
  }

  // What a turn relies on.
  lemma CountersTurn(inodeSize: nat, offset: nat, total: nat, done: nat, size: nat, num: nat, end: nat, o: nat, w: nat,
                     cur: nat, pos: nat)
    requires Counters(inodeSize, offset, total, done, size, num, end, o, w, cur) && num <= end && pos == offset + done
    ensures size > 0 && 0 < w <= DB_SIZE - o && IsChunk(pos, size, w) && pos == DB_SIZE * num + o
    ensures pos <= cur && inodeSize <= cur && (cur == inodeSize || cur <= offset + total + DB_SIZE)
  {
    assert Opened(true);
    ChunkNext(offset, total, pos, num, o, w);
    SizeNext(inodeSize, offset, total, pos, num, o, w, cur);
  }

  // The primed variables are those the loop computes.
  lemma CountersNext(inodeSize: nat, offset: nat, total: nat, done: nat, size: nat, num: nat, end: nat, o: nat, w: nat,
                     cur: nat, pos: nat, done': nat, size': nat, num': nat, w': nat, cur': nat)
    requires Counters(inodeSize, offset, total, done, size, num, end, o, w, cur) && num <= end && pos == offset + done
    requires done' == done + w && size' == size - w && num' == num + 1 && w' == if size' >= DB_SIZE then DB_SIZE
      else size'
    requires cur' == if pos + w > cur then cur + w else cur
    ensures Counters(inodeSize, offset, total, done', size', num', end, 0, w', cur')
  {
    assert Opened(true);
    ChunkNext(offset, total, pos, num, o, w);
    SizeNext(inodeSize, offset, total, pos, num, o, w, cur);
    ChunkEnd(offset, total, pos + w, num', 0, w');
  }

  lemma CountersDone(inodeSize: nat, offset: nat, total: nat, done: nat, size: nat, num: nat, end: nat, o: nat, w: nat,
                     cur: nat)
    requires Counters(inodeSize, offset, total, done, size, num, end, o, w, cur) && num > end
    ensures done == total && size == 0 && offset <= inodeSize && total > 0 && cur == SizeAfter(inodeSize, offset, total)
  {
    assert Opened(true);
  }

  // What the loop has done to the device.  Sealed like Linked.
  ghost predicate Writing(d0: Disk, own0: Owners, d: Disk, live: set<nat>,
                          inum: nat, inodeSize: nat, offset: nat, buf: seq<Byte>, done: nat)
  {
    forall w {:trigger Opened(w)} :: Opened(w) ==>
      OthersKept(d0, own0, d, live, inum) && done <= |buf| &&
      Progress(d0, d, inum, inodeSize, offset, buf, offset + done)
  }

  lemma WritingStart(d: Disk, own: Owners, live: set<nat>, inum: nat, inodeSize: nat, offset: nat, buf: seq<Byte>)
    ensures Writing(d, own, d, live, inum, inodeSize, offset, buf, 0)
  {
  }

  lemma WritingNext(d0: Disk, free0: set<nat>, own0: Owners, d: Disk, free: set<nat>, own: Owners,
                    d': Disk, live: set<nat>, inum: nat, inodeSize: nat, offset: nat, buf: seq<Byte>,
                    done: nat, cur: nat, pos: nat, w: nat, done': nat)
    requires FsOk(d0, free0, own0, live) && FsOk(d, free, own, live)
    requires Writing(d0, own0, d, live, inum, inodeSize, offset, buf, done)
    requires pos == offset + done && done' == done + w <= |buf| && pos <= cur && inodeSize <= cur
    requires ChunkWritten(d, d', inum, BlocksFor(cur), pos, buf[done..done + w])
    requires OthersKept(d, own, d', live, inum)
    ensures Writing(d0, own0, d', live, inum, inodeSize, offset, buf, done')
  {
    assert Opened(true);
    ProgressNext(d0, d, d', inum, inodeSize, offset, buf, pos, cur, buf[done..done + w]);
    OthersThen(d0, free0, own0, d, free, own, d', live, inum);
  }

  // The bill so far, the bill to come, and enough free blocks for both.  Sealed by Settled.
  ghost predicate Paying(goal: Bill, cur: nat, pos: nat, rest: nat, b: Bill, c: Bill, free0: set<nat>, free: set<nat>)
  {
    forall w {:trigger Settled(w)} :: Settled(w) ==>
      LoopIs(cur, pos, rest, c) && IsThen(b, c, goal) && |free0| >= goal.taken && |free| + b.taken == |free0|
  }

  lemma PayingStart(goal: Bill, cur: nat, pos: nat, rest: nat, free: set<nat>)
    requires LoopIs(cur, pos, rest, goal) && |free| >= goal.taken
    ensures Paying(goal, cur, pos, rest, NO_BILL, goal, free, free)
  {
  }

  lemma FromPaying(goal: Bill, cur: nat, pos: nat, rest: nat, b: Bill, c: Bill, free0: set<nat>, free: set<nat>)
    requires Paying(goal, cur, pos, rest, b, c, free0, free)
    ensures LoopIs(cur, pos, rest, c) && IsThen(b, c, goal) && |free0| >= goal.taken && |free| + b.taken == |free0|
  {
    assert Settled(true);
  }

  lemma PayingRoom(goal: Bill, cur: nat, pos: nat, rest: nat, b: Bill, c: Bill, free0: set<nat>, free: set<nat>, w: nat)
    requires Paying(goal, cur, pos, rest, b, c, free0, free) && rest > 0 && IsChunk(pos, rest, w) && pos + w > cur
    requires pos + rest <= INT_MAX
    ensures CanAdd(cur, free)
  {
    FromPaying(goal, cur, pos, rest, b, c, free0, free);
    assert Settled(true);
    var _ := LoopSplit(cur, pos, rest, w, c, cur + w, pos + w, rest - w);
    IntBlocks(cur);
  }

  lemma PayingSplit(cur: nat, pos: nat, rest: nat, c: Bill, w: nat, t: Bill, cur': nat, pos': nat, rest': nat)
    returns (c': Bill)
    requires LoopIs(cur, pos, rest, c) && rest > 0 && IsChunk(pos, rest, w) && ChunkIs(cur, pos, w, t)
    requires cur' == (if pos + w > cur then cur + w else cur) && pos' == pos + w && rest' == rest - w
    ensures LoopIs(cur', pos', rest', c') && IsThen(t, c', c)
  {
    assert t == ChunkBill(cur, pos, w) && w == ChunkLength(pos, rest) by { assert Settled(true); }
    c' := LoopSplit(cur, pos, rest, w, c, cur', pos', rest');
  }

  lemma PayingNext(goal: Bill, cur: nat, pos: nat, rest: nat, b: Bill, c: Bill, free0: set<nat>, free: set<nat>, w: nat,
                   t: Bill, free': set<nat>, b': Bill, cur': nat, pos': nat, rest': nat) returns (c': Bill)
    requires Paying(goal, cur, pos, rest, b, c, free0, free) && rest > 0 && IsChunk(pos, rest, w)
    requires ChunkIs(cur, pos, w, t)
    requires IsThen(b, t, b') && |free'| + b'.taken == |free0|
    requires cur' == (if pos + w > cur then cur + w else cur) && pos' == pos + w && rest' == rest - w
    ensures Paying(goal, cur', pos', rest', b', c', free0, free')
  {
    FromPaying(goal, cur, pos, rest, b, c, free0, free);
    c' := PayingSplit(cur, pos, rest, c, w, t, cur', pos', rest');
    ThenNext(b, c, goal, t, c', b');
  }

  lemma PayingEnd(goal: Bill, cur: nat, pos: nat, b: Bill, c: Bill, free0: set<nat>, free: set<nat>)
    requires Paying(goal, cur, pos, 0, b, c, free0, free)
    ensures b == goal
  {
    FromPaying(goal, cur, pos, 0, b, c, free0, free);
    LoopOver(cur, pos, c);
    ThenNothing(b, goal);
  }

  // A device at some moment, what write_file is to do with it, and where its loop stands: `done` bytes are written, up
  // to `pos`, with `rest` to go, the size is `cur`, b is the bill so far and c the one to come.
  datatype Snapshot = Snapshot(d: Disk, free: set<nat>, own: Owners)

  datatype Job = Job(live: set<nat>, inum: nat, inodeSize: nat, offset: nat, buf: seq<Byte>, goal: Bill)

  datatype Place = Place(done: nat, pos: nat, rest: nat, cur: nat, b: Bill, c: Bill)

  ghost function Now(s: Device): Snapshot
    reads s
  {
    Snapshot(s.blocks, s.free, s.own)
  }

  // The state during the loop.  Sealed by Shown.
  ghost predicate Turning(s0: Snapshot, s1: Snapshot, job: Job, at: Place)
  {
    forall w {:trigger Shown(w)} :: Shown(w) ==>
      && FsOk(s0.d, s0.free, s0.own, job.live) && FsOk(s1.d, s1.free, s1.own, job.live)
      && job.inum in job.live && Size(InodeAt(s1.d, job.inum)) == at.cur
      && Writing(s0.d, s0.own, s1.d, job.live, job.inum, job.inodeSize, job.offset, job.buf, at.done)
      && at.done <= |job.buf| && at.pos == job.offset + at.done && at.rest == |job.buf| - at.done
      && Paying(job.goal, at.cur, at.pos, at.rest, at.b, at.c, s0.free, s1.free)
      && Counted(s0.d, s0.free, s0.own, s1.d, s1.free, s1.own, job.inum, at.b)
  }

  // The effect of one turn on the state.  Sealed by Shown.
  ghost predicate Turned(s1: Snapshot, s2: Snapshot, job: Job, pos: nat, chunk: seq<Byte>, cur: nat, size: nat, t: Bill)
  {
    forall w {:trigger Shown(w)} :: Shown(w) ==>
      && FsOk(s2.d, s2.free, s2.own, job.live) && Size(InodeAt(s2.d, job.inum)) == size
      && OthersKept(s1.d, s1.own, s2.d, job.live, job.inum)
      && ChunkWritten(s1.d, s2.d, job.inum, BlocksFor(cur), pos, chunk)
      && ChunkIs(cur, pos, |chunk|, t) && Counted(s1.d, s1.free, s1.own, s2.d, s2.free, s2.own, job.inum, t)
  }

  // Sizes that an int can express stay far below the triple indirect region.
  lemma IntBlocks(size: nat)
    requires size <= INT_MAX
    ensures BlocksFor(size) <= 0x8_0000 < FIRST_TRIPLE
  {
  }

  lemma TurningStart(s0: Snapshot, job: Job, at: Place)
    requires FsOk(s0.d, s0.free, s0.own, job.live) && job.inum in job.live
    requires Size(InodeAt(s0.d, job.inum)) == job.inodeSize && |s0.free| >= job.goal.taken
    requires LoopIs(job.inodeSize, job.offset, |job.buf|, job.goal)
    requires at == Place(0, job.offset, |job.buf|, job.inodeSize, NO_BILL, job.goal)
    ensures Turning(s0, s0, job, at)
  {
    WritingStart(s0.d, s0.own, job.live, job.inum, job.inodeSize, job.offset, job.buf);
    PayingStart(job.goal, job.inodeSize, job.offset, |job.buf|, s0.free);
    CountedNothing(s0.d, s0.free, s0.own, job.inum);
  }

  // What the loop leaves.  Sealed by Shown.
  ghost predicate Written(d0: Disk, free0: set<nat>, own0: Owners, d: Disk, free: set<nat>, own: Owners, live: set<nat>,
                          inum: nat, inodeSize: nat, offset: nat, buf: seq<Byte>, bill: Bill)
  {
    forall w {:trigger Shown(w)} :: Shown(w) ==>
      && offset <= inodeSize && |buf| > 0 && Size(InodeAt(d, inum)) == SizeAfter(inodeSize, offset, |buf|)
      && Writing(d0, own0, d, live, inum, inodeSize, offset, buf, |buf|)
      && Counted(d0, free0, own0, d, free, own, inum, bill)
  }

  lemma TurningDone(s0: Snapshot, s1: Snapshot, job: Job, at: Place)
    requires Turning(s0, s1, job, at) && at.rest == 0
    requires job.offset <= job.inodeSize && |job.buf| > 0 && at.cur == SizeAfter(job.inodeSize, job.offset, |job.buf|)
    ensures Written(s0.d, s0.free, s0.own, s1.d, s1.free, s1.own, job.live, job.inum, job.inodeSize, job.offset,
                    job.buf, job.goal)
  {
    assert at.done == |job.buf| && Paying(job.goal, at.cur, at.pos, 0, at.b, at.c, s0.free, s1.free) by {
      assert Shown(true);
    }
    PayingEnd(job.goal, at.cur, at.pos, at.b, at.c, s0.free, s1.free);
    assert Shown(true);
  }

  // Room for the next turn, when it extends the file.
  lemma TurnReady(s0: Snapshot, s1: Snapshot, job: Job, at: Place, w: nat)
    requires Turning(s0, s1, job, at) && at.rest > 0 && IsChunk(at.pos, at.rest, w) && at.pos + at.rest <= INT_MAX
    ensures job.inum in job.live && Size(InodeAt(s1.d, job.inum)) == at.cur
    ensures at.pos + w > at.cur ==> CanAdd(at.cur, s1.free)
  {
    assert Paying(job.goal, at.cur, at.pos, at.rest, at.b, at.c, s0.free, s1.free) && job.inum in job.live
      && Size(InodeAt(s1.d, job.inum)) == at.cur by { assert Shown(true); }
    if at.pos + w > at.cur { PayingRoom(job.goal, at.cur, at.pos, at.rest, at.b, at.c, s0.free, s1.free, w); }
  }

  // A turn of w bytes takes the loop from one place to the next.
  predicate NextPlace(at: Place, w: nat, at': Place)
  {
    && at'.done == at.done + w && at'.pos == at.pos + w && at'.rest == at.rest - w
    && at'.cur == if at.pos + w > at.cur then at.cur + w else at.cur
  }

  lemma PlaceAfter(at: Place, w: nat, size: nat, t: Bill) returns (next: Place)
    requires w <= at.rest && size == if at.pos + w > at.cur then at.cur + w else at.cur
    ensures NextPlace(at, w, next) && next.cur == size && IsThen(at.b, t, next.b)
  {
    next := Place(at.done + w, at.pos + w, at.rest - w, size, Then(at.b, t), NO_BILL);
  }

  // A turn that wrote `chunk` at pos and left the size at `size`.
  lemma TurnDone(s0: Snapshot, s1: Snapshot, s2: Snapshot, job: Job, at: Place, w: nat, chunk: seq<Byte>, pos: nat,
                 cur: nat, size: nat, t: Bill)
    returns (at': Place)
    requires Turning(s0, s1, job, at) && at.rest > 0 && IsChunk(at.pos, at.rest, w) && at.done + w <= |job.buf|
    requires at.pos == pos <= cur == at.cur && job.inodeSize <= cur && chunk == job.buf[at.done..at.done + w]
    requires Turned(s1, s2, job, pos, chunk, cur, size, t) && size == if pos + w > cur then cur + w else cur
    ensures Turning(s0, s2, job, at') && NextPlace(at, w, at') && at'.cur == size
  {
    var next := PlaceAfter(at, w, size, t);
    at' := TurnNext(s0, s1, s2, job, at, w, t, next);
  }

  lemma TurnNext(s0: Snapshot, s1: Snapshot, s2: Snapshot, job: Job, at: Place, w: nat, t: Bill, next: Place)
    returns (at': Place)
    requires Turning(s0, s1, job, at) && at.rest > 0 && IsChunk(at.pos, at.rest, w)
    requires at.pos <= at.cur && job.inodeSize <= at.cur && at.done + w <= |job.buf|
    requires NextPlace(at, w, next) && IsThen(at.b, t, next.b)
    requires Turned(s1, s2, job, at.pos, job.buf[at.done..at.done + w], at.cur, next.cur, t)
    ensures at' == next.(c := at'.c) && Turning(s0, s2, job, at')
  {
    TurnWritten(s0, s1, s2, job, at, w, t, next);
    var c := TurnPaid(s0, s1, s2, job, at, w, t, next);
    at' := next.(c := c);
    TurnFs(s0, s1, s2, job, at, w, t, next.cur);
    assert at.pos == job.offset + at.done && at.rest == |job.buf| - at.done by { assert Shown(true); }
  }

  lemma TurnWritten(s0: Snapshot, s1: Snapshot, s2: Snapshot, job: Job, at: Place, w: nat, t: Bill, next: Place)
    requires Turning(s0, s1, job, at) && at.rest > 0 && IsChunk(at.pos, at.rest, w)
    requires at.pos <= at.cur && job.inodeSize <= at.cur && at.done + w <= |job.buf|
    requires NextPlace(at, w, next)
    requires Turned(s1, s2, job, at.pos, job.buf[at.done..at.done + w], at.cur, next.cur, t)
    ensures Writing(s0.d, s0.own, s2.d, job.live, job.inum, job.inodeSize, job.offset, job.buf, next.done)
  {
    assert Shown(true);
    WritingNext(s0.d, s0.free, s0.own, s1.d, s1.free, s1.own, s2.d, job.live, job.inum, job.inodeSize, job.offset,
                job.buf, at.done, at.cur, at.pos, w, next.done);
  }

  lemma TurnFs(s0: Snapshot, s1: Snapshot, s2: Snapshot, job: Job, at: Place, w: nat, t: Bill, size: nat)
    requires Turning(s0, s1, job, at) && at.done + w <= |job.buf|
    requires Turned(s1, s2, job, at.pos, job.buf[at.done..at.done + w], at.cur, size, t)
    ensures FsOk(s0.d, s0.free, s0.own, job.live) && FsOk(s2.d, s2.free, s2.own, job.live) && job.inum in job.live
    ensures Size(InodeAt(s2.d, job.inum)) == size
  {
    assert Shown(true);
  }

  lemma TurnPaid(s0: Snapshot, s1: Snapshot, s2: Snapshot, job: Job, at: Place, w: nat, t: Bill, next: Place)
    returns (c: Bill)
    requires Turning(s0, s1, job, at) && at.rest > 0 && IsChunk(at.pos, at.rest, w) && at.done + w <= |job.buf|
    requires NextPlace(at, w, next) && IsThen(at.b, t, next.b)
    requires Turned(s1, s2, job, at.pos, job.buf[at.done..at.done + w], at.cur, next.cur, t)
    ensures Counted(s0.d, s0.free, s0.own, s2.d, s2.free, s2.own, job.inum, next.b)
    ensures Paying(job.goal, next.cur, next.pos, next.rest, next.b, c, s0.free, s2.free)
  {
    assert Paying(job.goal, at.cur, at.pos, at.rest, at.b, at.c, s0.free, s1.free)
      && Counted(s0.d, s0.free, s0.own, s1.d, s1.free, s1.own, job.inum, at.b) by { assert Shown(true); }
    assert ChunkIs(at.cur, at.pos, w, t) && Counted(s1.d, s1.free, s1.own, s2.d, s2.free, s2.own, job.inum, t) by {
      assert Shown(true);
    }
    CountedThen(s0.d, s0.free, s0.own, s1.d, s1.free, s1.own, s2.d, s2.free, s2.own, job.inum, at.b, t, next.b);
    CountedFree(s0.d, s0.free, s0.own, s2.d, s2.free, s2.own, job.inum, next.b);
    c := PayingNext(job.goal, at.cur, at.pos, at.rest, at.b, at.c, s0.free, s1.free, w, t, s2.free, next.b, next.cur,
                    next.pos, next.rest);
  }

  // A turn with its effect as a whole.
  method TakeTurn(s: Device, inum: nat, chunk: seq<Byte>, start_num: nat, start_off: nat, pos: nat, inode_size: nat,
                  ghost job: Job)
    returns (size: nat, ghost t: Bill)
    requires Fs(s) && inum in s.live && inode_size == Size(InodeAt(s.blocks, inum)) < 0x2_0000_0000
    requires job.live == s.live && job.inum == inum
    requires pos == DB_SIZE * start_num + start_off && 0 < |chunk| <= DB_SIZE - start_off && pos <= inode_size
    requires pos + |chunk| > inode_size ==> CanAdd(inode_size, s.free)
    modifies s.log, s`blocks, s`chain, s`free, s`own
    ensures Fs(s) && size == if pos + |chunk| > inode_size then inode_size + |chunk| else inode_size
    ensures Turned(old(Now(s)), Now(s), job, pos, chunk, inode_size, size, t)
  {
    size, t := WriteChunk(s, inum, chunk, start_num, start_off, pos, inode_size);
  }

  // A turn at buf_off, from one place of the loop to the next.
  method WriteTurn(s: Device, inum: nat, buf: seq<Byte>, buf_off: nat, toWrite: nat, start_num: nat, start_off: nat,
                   inode_size: nat, ghost s0: Snapshot, ghost job: Job, ghost at: Place)
    returns (size: nat, ghost at': Place)
    requires Fs(s) && Turning(s0, Now(s), job, at) && job.live == s.live && job.inum == inum && job.buf == buf
    requires at.done == buf_off && at.cur == inode_size && at.pos == DB_SIZE * start_num + start_off
    requires at.rest > 0 && buf_off + at.rest == |buf| && at.pos + at.rest <= INT_MAX
    requires 0 < toWrite <= DB_SIZE - start_off && IsChunk(at.pos, at.rest, toWrite)
    requires at.pos <= inode_size && job.inodeSize <= inode_size < 0x2_0000_0000
    modifies s.log, s`blocks, s`chain, s`free, s`own
    ensures Fs(s) && Turning(s0, Now(s), job, at') && NextPlace(at, toWrite, at') && at'.cur == size
  {
    ghost var s1, t := Now(s), NO_BILL;
    TurnReady(s0, s1, job, at, toWrite);
    var chunk := buf[buf_off..buf_off + toWrite];
    var pos: nat := DB_SIZE * start_num + start_off;
    size, t := TakeTurn(s, inum, chunk, start_num, start_off, pos, inode_size, job);
    at' := TurnDone(s0, s1, Now(s), job, at, toWrite, chunk, pos, inode_size, size, t);
  }

  // A turn with the variables of the loop; the primed ones are those it goes on with.
  method WriteStep(s: Device, inum: nat, buf: seq<Byte>, buf_off: nat, toWrite: nat, start_num: nat, ghost end_num: nat,
                   start_off: nat, inode_size: nat, ghost num': nat, ghost left': nat, ghost toWrite': nat,
                   ghost s0: Snapshot, ghost job: Job, ghost at: Place)
    returns (size: nat, ghost at': Place)
    requires Fs(s) && Turning(s0, Now(s), job, at) && job.live == s.live && job.inum == inum && job.buf == buf
    requires at.done == buf_off && at.cur == inode_size && at.pos == job.offset + buf_off
    requires Counters(job.inodeSize, job.offset, |buf|, buf_off, at.rest, start_num, end_num, start_off, toWrite,
                      inode_size)
    requires start_num <= end_num && buf_off + at.rest == |buf| && job.offset + |buf| <= INT_MAX
    requires job.inodeSize < 0x2_0000_0000
    requires num' == start_num + 1 && left' == at.rest - toWrite
    requires toWrite' == if left' >= DB_SIZE then DB_SIZE else left'
    modifies s.log, s`blocks, s`chain, s`free, s`own
    ensures Fs(s) && Turning(s0, Now(s), job, at') && NextPlace(at, toWrite, at') && at'.cur == size
    ensures Counters(job.inodeSize, job.offset, |buf|, at'.done, left', num', end_num, 0, toWrite', size)
  {
    CountersTurn(job.inodeSize, job.offset, |buf|, buf_off, at.rest, start_num, end_num, start_off, toWrite, inode_size,
                 at.pos);
    size, at' := WriteTurn(s, inum, buf, buf_off, toWrite, start_num, start_off, inode_size, s0, job, at);
    CountersNext(job.inodeSize, job.offset, |buf|, buf_off, at.rest, start_num, end_num, start_off, toWrite, inode_size,
                 at.pos, at'.done, left', num', toWrite', size);
  }

  // The loop.
  method WriteLoop(s: Device, inum: nat, buf: seq<Byte>, offset: nat, start_num0: nat, end_num: nat, start_off0: nat,
                   toWrite0: nat, inode_size0: nat, ghost job: Job)
    returns (buf_off: nat)
    requires Fs(s) && job.live == s.live && inum in s.live && job.inum == inum && job.buf == buf && job.offset == offset
    requires job.inodeSize == inode_size0 == Size(InodeAt(s.blocks, inum))
    requires LoopIs(inode_size0, offset, |buf|, job.goal)
    requires |s.free| >= job.goal.taken && offset + |buf| <= INT_MAX && inode_size0 < 0x2_0000_0000
    requires start_num0 <= end_num + 1
    requires Counters(inode_size0, offset, |buf|, 0, |buf|, start_num0, end_num, start_off0, toWrite0, inode_size0)
    modifies s.log, s`blocks, s`chain, s`free, s`own
    ensures Fs(s) && buf_off == |buf|
    ensures Written(old(s.blocks), old(s.free), old(s.own), s.blocks, s.free, s.own, s.live, inum, inode_size0, offset,
                    buf, job.goal)
  {
    ghost var s0, at := Now(s), Place(0, offset, |buf|, inode_size0, NO_BILL, job.goal);
    TurningStart(s0, job, at);
    var inode_size, size: nat := inode_size0, |buf|;
    var start_num, start_off: nat, toWrite: nat := start_num0, start_off0, toWrite0;
    buf_off := 0;
    while start_num <= end_num
      invariant start_num <= end_num + 1 && buf_off + size == |buf|
      invariant at.done == buf_off && at.pos == offset + buf_off && at.rest == size && at.cur == inode_size
      invariant Counters(inode_size0, offset, |buf|, buf_off, size, start_num, end_num, start_off, toWrite, inode_size)
      invariant Fs(s) && Turning(s0, Now(s), job, at)
    {
      CountersFit(inode_size0, offset, |buf|, buf_off, size, start_num, end_num, start_off, toWrite, inode_size);
      var left: nat, num: nat := size - toWrite, start_num + 1;
      var chunk: nat := if left >= DB_SIZE then DB_SIZE else left;
      inode_size, at := WriteStep(s, inum, buf, buf_off, toWrite, start_num, end_num, start_off, inode_size, num, left,
                                  chunk, s0, job, at);
      buf_off, size, start_num, start_off, toWrite := buf_off + toWrite, left, num, 0, chunk;
    }
    CountersDone(inode_size0, offset, |buf|, buf_off, size, start_num, end_num, start_off, toWrite, inode_size);
    TurningDone(s0, Now(s), job, at);
  }

  // write_file from "Locate offset" on, for an offset inside the file or at its end.  The bill is that of the loop
  // (LoopBill).
  method WriteBlocks(s: Device, inum: nat, buf: seq<Byte>, offset: nat, inode_size: nat, ghost bill: Bill)
    returns (r: int)
    requires Fs(s) && inum in s.live && inode_size == Size(InodeAt(s.blocks, inum)) && offset <= inode_size
    requires |buf| > 0 && offset + |buf| <= INT_MAX && inode_size < 0x2_0000_0000
    requires LoopIs(inode_size, offset, |buf|, bill) && |s.free| >= bill.taken
    modifies s.log, s`blocks, s`chain, s`free, s`own
    ensures r == |buf| && Fs(s)
    ensures Written(old(s.blocks), old(s.free), old(s.own), s.blocks, s.free, s.own, s.live, inum, inode_size, offset,
                    buf, bill)
  {
    var start_num: nat, end_num: nat := offset / DB_SIZE, (offset + |buf|) / DB_SIZE;
    if (offset + |buf|) % DB_SIZE == 0 {
      end_num := end_num - 1;
    }
    var start_off: nat := offset % DB_SIZE;
    var toWrite: nat := if |buf| >= DB_SIZE - start_off then DB_SIZE - start_off else |buf|;
    CountersStart(inode_size, offset, |buf|, end_num, toWrite);
    r := WriteLoop(s, inum, buf, offset, start_num, end_num, start_off, toWrite, inode_size,
                   Job(s.live, inum, inode_size, offset, buf, bill));
  }
}
