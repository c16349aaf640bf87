// read_file (inode.c).

module Reading {
  import opened Blocks
  import opened Store
  import opened Inodes
  import opened Ownership
  import opened BlockMap
  import opened Lifetime
  import opened Growth
  import opened FileView
  import opened Chunking

  // ---------- what the loop bounds come to ----------

  // The variable `size` after the clamp, which forgets the offset.
  function Clamped(inodeSize: nat, size: nat, offset: nat): nat
  {
    if offset + size > inodeSize then inodeSize else size
  }

  // end_num; -1 stands for the wrapped value.
  function EndNum(inodeSize: nat, size: nat, offset: nat): int
  {
    var n := Clamped(inodeSize, size, offset);
    (if offset + size > inodeSize then inodeSize / DB_SIZE else (offset + size) / DB_SIZE)
    - if (offset + n) % DB_SIZE == 0 then 1 else 0
  }

  function Least(a: int, b: int): int
  {
    if a <= b then a else b
  }

  // Bytes copied by `blocks` turns of the loop.
  function Copied(blocks: nat, toRead: int, size: int): int
  {
    if blocks == 0 then 0 else toRead + Copied(blocks - 1, Least(DB_SIZE, size - toRead), size - toRead)
  }

  // The value returned for a nonempty file and an offset inside it.  A wrapped end_num sends the loop through every
  // block number until find_block_by_num refuses one, and then -1 is returned.
  function ReadCount(inodeSize: nat, size: nat, offset: nat): int
  {
    var n, start, end := Clamped(inodeSize, size, offset), offset / DB_SIZE, EndNum(inodeSize, size, offset);
    if end < 0 then -1
    else Copied(if start <= end then end - start + 1 else 0, Least(DB_SIZE - offset % DB_SIZE, n), n)
  }

  // What there is to read.
  function Available(inodeSize: nat, size: nat, offset: nat): nat
    requires offset <= inodeSize
  {
    if offset + size > inodeSize then inodeSize - offset else size
  }

  // The reads that return what there is: inside the file (but not of nothing at offset 0), from its start, with offset
  // and end of file at block boundaries, or from an end of file half way into a block other than the first.
  predicate ReadOk(inodeSize: nat, size: nat, offset: nat)
  {
    && (size > 0 || offset > 0)
    && (|| offset + size <= inodeSize || offset == 0 || (offset % DB_SIZE == 0 && inodeSize % DB_SIZE == 0)
        || (offset == inodeSize && inodeSize % DB_SIZE == DB_SIZE / 2 && inodeSize >= DB_SIZE))
  }

  lemma {:induction false} CopiedTotal(blocks: nat, o: nat, size: nat)
    requires blocks > 0 && o < DB_SIZE
    ensures Copied(blocks, Least(DB_SIZE - o, size), size) == Least(size, DB_SIZE * blocks - o)
    decreases blocks
  {
    var toRead := Least(DB_SIZE - o, size);
    if blocks > 1 {
      CopiedTotal(blocks - 1, 0, size - toRead);
    } else {
      assert Copied(1, toRead, size) == toRead;
    }
  }

  lemma CountIs(inodeSize: nat, size: nat, offset: nat)
    ensures var n, start, end := Clamped(inodeSize, size, offset), offset / DB_SIZE, EndNum(inodeSize, size, offset);
      ReadCount(inodeSize, size, offset)
      == if end < 0 then -1 else if start > end then 0 else Least(n, DB_SIZE * (end - start + 1) - offset % DB_SIZE)
  {
    var n, start, end := Clamped(inodeSize, size, offset), offset / DB_SIZE, EndNum(inodeSize, size, offset);
    if end >= 0 && start <= end { CopiedTotal(end - start + 1, offset % DB_SIZE, n); }
  }

  // The count in closed form.
  lemma ReadCountIs(inodeSize: nat, size: nat, offset: nat)
    ensures var beyond := offset + size > inodeSize;
      var n, start := if beyond then inodeSize else size, offset / 4096;
      var end := (if beyond then inodeSize else offset + size) / 4096 - if (offset + n) % 4096 == 0 then 1 else 0;
      var room := 4096 * (end - start + 1) - offset % 4096;
      ReadCount(inodeSize, size, offset)
      == if end < 0 then -1 else if start > end then 0 else if n <= room then n else room
  {
    CountIs(inodeSize, size, offset);
  }

  // The block that holds the last of x bytes.
  lemma LastBlock(x: nat)
    requires x > 0
    ensures x / DB_SIZE - (if x % DB_SIZE == 0 then 1 else 0) == (x - 1) / DB_SIZE == BlocksFor(x) - 1
  {
  }

  // Inside the file.
  lemma CountInside(inodeSize: nat, size: nat, offset: nat)
    requires offset + size <= inodeSize
    ensures ReadCount(inodeSize, size, offset) == if size > 0 || offset > 0 then size else -1
  {
    CountIs(inodeSize, size, offset);
    if offset + size > 0 {
      LastBlock(offset + size);
      var last := offset + size - 1;
      assert offset == DB_SIZE * (offset / DB_SIZE) + offset % DB_SIZE;
      assert last == DB_SIZE * (last / DB_SIZE) + last % DB_SIZE;
    }
  }

  lemma Aligned(x: nat, y: nat)
    ensures (x + y) % DB_SIZE == 0 <==> x % DB_SIZE + y % DB_SIZE in {0, DB_SIZE}
  {
    var k := x / DB_SIZE + y / DB_SIZE;
    assert x + y == DB_SIZE * k + (x % DB_SIZE + y % DB_SIZE);
  }

  // Beyond it, in terms of the blocks and bytes of offset and end.
  lemma CountBeyond(inodeSize: nat, size: nat, offset: nat)
    requires 0 < inodeSize && offset <= inodeSize < offset + size
    ensures ReadCount(inodeSize, size, offset) == inodeSize - offset <==> ReadOk(inodeSize, size, offset)
  {
    CountIs(inodeSize, size, offset);
    Aligned(offset, inodeSize);
    assert offset == DB_SIZE * (offset / DB_SIZE) + offset % DB_SIZE;
    assert inodeSize == DB_SIZE * (inodeSize / DB_SIZE) + inodeSize % DB_SIZE;
  }

  // The condition is exact.
  lemma ReadExact(inodeSize: nat, size: nat, offset: nat)
    requires 0 < inodeSize && offset <= inodeSize
    ensures ReadCount(inodeSize, size, offset) == Available(inodeSize, size, offset) <==>
      ReadOk(inodeSize, size, offset)
  {
    if offset + size <= inodeSize {
      CountInside(inodeSize, size, offset);
    } else {
      CountBeyond(inodeSize, size, offset);
    }
  }

  // The right reads stay in the blocks that the size maps.
  lemma ReadOkMapped(inodeSize: nat, size: nat, offset: nat)
    requires 0 < inodeSize && offset <= inodeSize && ReadOk(inodeSize, size, offset)
    ensures var end := EndNum(inodeSize, size, offset);
      0 <= end && (offset / DB_SIZE <= end ==> end < BlocksFor(inodeSize))
  {
    LastBlock(inodeSize);
    if offset + size <= inodeSize {
      LastBlock(offset + size);
    } else {
      Aligned(offset, inodeSize);
    }
  }

  // ---------- where a read stops, and what it reads ----------

  // The first number from num to end whose lookup comes up with UINT_MAX, or the one behind them if there is none.
  function FirstRefused(d: Disk, n: Inode, num: nat, end: nat): (k: nat)
    requires end < FIRST_TRIPLE
    ensures num <= k && (num <= end ==> k <= end + 1) && (num > end ==> k == num)
    ensures forall j :: num <= j < k && j <= end ==> Looked(d, n, j) != UINT_MAX
    ensures k <= end ==> Looked(d, n, k) == UINT_MAX
    decreases FIRST_TRIPLE - num
  {
    if num > end || Looked(d, n, num) == UINT_MAX then num else FirstRefused(d, n, num + 1, end)
  }

  // Of `total` bytes from offset on, those before block k.
  function Reached(total: nat, offset: nat, k: nat): nat
  {
    if DB_SIZE * k <= offset then 0 else if total <= DB_SIZE * k - offset then total else DB_SIZE * k - offset
  }

  // The count is what is reached if nothing is refused.
  lemma ReachedAll(inodeSize: nat, size: nat, offset: nat)
    requires 0 <= EndNum(inodeSize, size, offset)
    ensures var end, start := EndNum(inodeSize, size, offset), offset / DB_SIZE;
      ReadCount(inodeSize, size, offset)
      == Reached(Clamped(inodeSize, size, offset), offset, if start <= end then end + 1 else start)
  {
    CountIs(inodeSize, size, offset);
    assert offset == DB_SIZE * (offset / DB_SIZE) + offset % DB_SIZE;
  }

  // What is in the buffer `block` after the read for number num, in a loop that started at number start with `stale`:
  // the block found, which is block 0 for a number without one, or what was there if db_read refuses it.
  function Fetched(d: Disk, n: Inode, start: nat, num: nat, stale: WordBlock): WordBlock
    requires start <= num < FIRST_TRIPLE
    decreases num
  {
    if Looked(d, n, num) <= NumBlock(d) then W(d, Looked(d, n, num))
    else if num == start then stale
    else Fetched(d, n, start, num - 1, stale)
  }

  // In a file in order, numbers that the size maps get their own block, and others the one that is mapped or block 0;
  // only where an index block is missing anything else can come up, and then from the words of block 0.
  lemma FetchedFile(d: Disk, free: set<nat>, own: Owners, live: set<nat>, inum: nat, start: nat, num: nat,
                    stale: WordBlock)
    requires FsOk(d, free, own, live) && inum in live && start <= num < FIRST_TRIPLE
    ensures num < FIRST_SINGLE || Reachable(d, inum, num) ==>
      var id := Id(d, inum, Data(num));
      Looked(d, InodeAt(d, inum), num) == id < UINT_MAX && (id == 0 || InData(d, id))
      && Fetched(d, InodeAt(d, inum), start, num, stale) == W(d, id)
    ensures num < BlocksOf(InodeAt(d, inum)) ==>
      Fetched(d, InodeAt(d, inum), start, num, stale) == DataAt(d, inum, num)
  {
    OpenOwn(d, free, own, live);
    if num < BlocksOf(InodeAt(d, inum)) { FileBlock(d, free, own, live, inum, num); }
    if num < FIRST_SINGLE || Reachable(d, inum, num) {
      LookedId(d, inum, num);
      assert Id(d, inum, Data(num)) == Id(d, inum, Data(num));
    }
  }

  // ---------- the loop ----------

  // The variables of the loop, for `total` bytes: `done` bytes copied, which are those before block num, `size` left,
  // and the next stretch w bytes from o on.  Sealed like Linked.
  ghost predicate ReadAt(offset: nat, total: nat, done: nat, size: nat, num: nat, o: nat, w0: nat)
  {
    forall w {:trigger Opened(w)} :: Opened(w) ==> ReadAtAll(offset, total, done, size, num, o, w0)
  }

  predicate ReadAtAll(offset: nat, total: nat, done: nat, size: nat, num: nat, o: nat, w: nat)
  {
    && o < DB_SIZE && w == Least(DB_SIZE - o, size) && (size > 0 ==> offset + done == DB_SIZE * num + o)
    && done + size == total && done == Reached(total, offset, num) && offset < DB_SIZE * (num + 1)
    && (DB_SIZE * num > offset ==> o == 0)
  }

  lemma ReadStart(offset: nat, total: nat)
    ensures var o := offset % DB_SIZE;
      ReadAt(offset, total, 0, total, offset / DB_SIZE, o, Least(DB_SIZE - o, total))
  {
    assert offset == DB_SIZE * (offset / DB_SIZE) + offset % DB_SIZE;
  }

  // After a turn: the primed variables are those the loop computes.
  lemma ReadNext(offset: nat, total: nat, done: nat, size: nat, num: nat, o: nat, w: nat,
                 done': nat, size': nat, num': nat, w': nat)
    requires ReadAt(offset, total, done, size, num, o, w)
    requires done' == done + w && size' == size - w && num' == num + 1 && w' == Least(DB_SIZE, size')
    ensures ReadAt(offset, total, done', size', num', 0, w')
  {
    assert Opened(true);
  }

  lemma ReadHere(offset: nat, total: nat, done: nat, size: nat, num: nat, o: nat, w: nat)
    requires ReadAt(offset, total, done, size, num, o, w)
    ensures o + w <= DB_SIZE && w <= size && (w > 0 ==> offset + done == DB_SIZE * num + o)
    ensures done == Reached(total, offset, num)
  {
    assert Opened(true);
  }

  // Byte i of the buffer is byte (offset + i) % DB_SIZE of what was fetched for number (offset + i) / DB_SIZE.  Sealed
  // like Linked.
  ghost predicate Delivered(d: Disk, n: Inode, offset: nat, buf: seq<Byte>, stale: WordBlock)
    requires offset + |buf| <= DB_SIZE * FIRST_TRIPLE
  {
    forall w {:trigger Opened(w)} :: Opened(w) ==> forall i {:trigger buf[i]} :: 0 <= i < |buf| ==>
      buf[i] == Bytes(Fetched(d, n, offset / DB_SIZE, (offset + i) / DB_SIZE, stale))[(offset + i) % DB_SIZE]
  }

  lemma DeliveredNothing(d: Disk, n: Inode, offset: nat, stale: WordBlock)
    requires offset <= DB_SIZE * FIRST_TRIPLE
    ensures Delivered(d, n, offset, [], stale)
  {
  }

  lemma DeliveredNext(d: Disk, n: Inode, offset: nat, buf: seq<Byte>, stale: WordBlock, num: nat, o: nat, w: nat,
                      block: WordBlock, buf': seq<Byte>)
    requires offset / DB_SIZE <= num < FIRST_TRIPLE && o + w <= DB_SIZE
    requires w > 0 ==> offset + |buf| == DB_SIZE * num + o
    requires offset + |buf| <= DB_SIZE * FIRST_TRIPLE && offset + |buf| + w <= DB_SIZE * FIRST_TRIPLE
    requires Delivered(d, n, offset, buf, stale) && block == Fetched(d, n, offset / DB_SIZE, num, stale)
    requires buf' == buf + Bytes(block)[o..o + w]
    ensures Delivered(d, n, offset, buf', stale)
  {
    assert Opened(true);
    forall i | |buf| <= i < |buf'|
      ensures (offset + i) / DB_SIZE == num && buf'[i] == Bytes(block)[(offset + i) % DB_SIZE]
    {
      var j := i - |buf| + o;
      assert offset + i == DB_SIZE * num + j;
      Divided(num, j);
    }
  }

  lemma Divided(num: nat, j: nat)
    requires j < DB_SIZE
    ensures (DB_SIZE * num + j) / DB_SIZE == num && (DB_SIZE * num + j) % DB_SIZE == j
  {
  }

  // As far as the size goes that is the file.
  lemma DeliveredFile(d: Disk, free: set<nat>, own: Owners, live: set<nat>, inum: nat, offset: nat, buf: seq<Byte>,
                      stale: WordBlock)
    requires FsOk(d, free, own, live) && inum in live && offset + |buf| <= Size(InodeAt(d, inum))
    requires offset + |buf| <= DB_SIZE * FIRST_TRIPLE && Delivered(d, InodeAt(d, inum), offset, buf, stale)
    ensures buf == Contents(d, inum)[offset..offset + |buf|]
  {
    assert Opened(true);
    forall i | 0 <= i < |buf|
      ensures buf[i] == Raw(d, inum, offset + i)
    {
      PlaceBound(offset + i, Size(InodeAt(d, inum)));
      FetchedFile(d, free, own, live, inum, offset / DB_SIZE, (offset + i) / DB_SIZE, stale);
    }
  }

  lemma FileBlock(d: Disk, free: set<nat>, own: Owners, live: set<nat>, inum: nat, num: nat)
    requires FsOk(d, free, own, live) && inum in live && num < BlocksOf(InodeAt(d, inum))
    ensures num < FIRST_TRIPLE && Reachable(d, inum, num)
    ensures Id(d, inum, Data(num)) < NumBlock(d) && InData(d, Id(d, inum, Data(num)))
  {
    MappedFile(d, free, own, live, inum);
    MappedAt(d, inum, BlocksOf(InodeAt(d, inum)), num);
    OpenOwn(d, free, own, live);
    MappedReachable(d, own, live, inum, num);
  }

  // The lookup and the read of a turn.
  method ReadTurn(s: Device, inum: nat, num: nat, block: WordBlock) returns (refused: bool, block': WordBlock)
    requires Fs(s) && inum in s.live && num < FIRST_TRIPLE
    modifies s.log
    ensures var bid := Looked(s.blocks, InodeAt(s.blocks, inum), num);
      && refused == (bid == UINT_MAX)
      && (!refused ==> block' == if bid <= NumBlock(s.blocks) then W(s.blocks, bid) else block)
  {
    LiveInRange(s.blocks, s.free, s.own, s.live);
    LiveReadable(s.blocks, s.free, s.own, s.live, inum);
    var bid := FindBlock(s, inum, num);
    if bid.value == UINT_MAX {
      return true, block;
    }
    refused := false;
    block' := ReadInto(s, bid.value, block);
  }

  lemma LiveReadable(d: Disk, free: set<nat>, own: Owners, live: set<nat>, inum: nat)
    requires FsOk(d, free, own, live) && inum in live
    ensures Readable(d, InodeAt(d, inum))
  {
    OpenOwn(d, free, own, live);
    assert Id(d, inum, Single) == InodeAt(d, inum)[SINGLE] && Id(d, inum, Double) == InodeAt(d, inum)[DOUBLE];
  }

  // The bounds that read_file works out: first and last block number, the clamped size, and the first stretch.
  method Locate(inode_size: nat, size: nat, offset: nat)
    returns (start_num: nat, end_num: nat, left: nat, start_off: nat, toRead: nat)
    requires EndNum(inode_size, size, offset) >= 0
    ensures end_num == EndNum(inode_size, size, offset) && start_num == offset / DB_SIZE
    ensures left == Clamped(inode_size, size, offset) && ReadAt(offset, left, 0, left, start_num, start_off, toRead)
  {
    start_num, left := offset / DB_SIZE, size;
    if offset + size > inode_size {
      end_num := inode_size / DB_SIZE;
      left := inode_size;
    } else {
      end_num := (offset + size) / DB_SIZE;
    }
    if (offset + left) % DB_SIZE == 0 {
      end_num := end_num - 1;
    }
    start_off := offset % DB_SIZE;
    toRead := if left >= DB_SIZE - start_off then DB_SIZE - start_off else left;
    ReadStart(offset, left);
  }

  // The state of the loop at number num.  Sealed by Shown.
  ghost predicate Reads(d: Disk, n: Inode, offset: nat, end: nat, num: nat, buf: seq<Byte>, block: WordBlock,
                        stale: WordBlock)
  {
    forall w {:trigger Shown(w)} :: Shown(w) ==>
      && end < FIRST_TRIPLE && offset / DB_SIZE <= num && (num <= end || num == offset / DB_SIZE || num == end + 1)
      && FirstRefused(d, n, offset / DB_SIZE, end) == FirstRefused(d, n, num, end)
      && (num == offset / DB_SIZE ==> block == stale)
      && (offset / DB_SIZE < num ==> num <= FIRST_TRIPLE && block == Fetched(d, n, offset / DB_SIZE, num - 1, stale))
      && offset + |buf| <= DB_SIZE * FIRST_TRIPLE && Delivered(d, n, offset, buf, stale)
  }

  lemma ReadsStart(d: Disk, n: Inode, offset: nat, end: nat, stale: WordBlock)
    requires end < FIRST_TRIPLE && offset <= INT_MAX
    ensures Reads(d, n, offset, end, offset / DB_SIZE, [], stale, stale)
  {
    DeliveredNothing(d, n, offset, stale);
  }

  lemma ReadsNext(d: Disk, n: Inode, offset: nat, end: nat, num: nat, buf: seq<Byte>, block: WordBlock,
                  stale: WordBlock, o: nat, w: nat, block': WordBlock, buf': seq<Byte>, num': nat)
    requires Reads(d, n, offset, end, num, buf, block, stale) && num <= end && num' == num + 1 && num < FIRST_TRIPLE
    requires Looked(d, n, num) != UINT_MAX
    requires block' == if Looked(d, n, num) <= NumBlock(d) then W(d, Looked(d, n, num)) else block
    requires o + w <= DB_SIZE && (w > 0 ==> offset + |buf| == DB_SIZE * num + o)
    requires buf' == buf + Bytes(block')[o..o + w]
    ensures Reads(d, n, offset, end, num', buf', block', stale)
  {
    assert Shown(true);
    assert block' == Fetched(d, n, offset / DB_SIZE, num, stale);
    DeliveredNext(d, n, offset, buf, stale, num, o, w, block', buf');
  }

  // What read_file leaves in the buffer and returns, once it has worked out its bounds: up to the first number that is
  // refused, and then -1, or everything.
  ghost predicate ReadResult(d: Disk, n: Inode, inodeSize: nat, size: nat, offset: nat, r: int, buf: seq<Byte>,
                             stale: WordBlock)
  {
    var end := EndNum(inodeSize, size, offset);
    && 0 <= end < FIRST_TRIPLE
    && var k := FirstRefused(d, n, offset / DB_SIZE, end);
      && r == (if k <= end then -1 else ReadCount(inodeSize, size, offset))
      && |buf| == Reached(Clamped(inodeSize, size, offset), offset, k) && (r >= 0 ==> r == |buf|)
      && offset + |buf| <= DB_SIZE * FIRST_TRIPLE && Delivered(d, n, offset, buf, stale)
  }

  lemma ReadDone(d: Disk, n: Inode, inodeSize: nat, size: nat, offset: nat, r: int, buf: seq<Byte>, stale: WordBlock,
                 num: nat, end: nat, block: WordBlock)
    requires EndNum(inodeSize, size, offset) == end < FIRST_TRIPLE && Reads(d, n, offset, end, num, buf, block, stale)
    requires |buf| == Reached(Clamped(inodeSize, size, offset), offset, num)
    requires if num <= end then r == -1 && Looked(d, n, num) == UINT_MAX else r == |buf|
    ensures ReadResult(d, n, inodeSize, size, offset, r, buf, stale)
  {
    assert Shown(true);
    assert FirstRefused(d, n, offset / DB_SIZE, end) == num;
    if num > end { ReachedAll(inodeSize, size, offset); }
  }

  // The loop of read_file, for bounds that have not wrapped; `stale` is what its uninitialised block buffer held.
  method ReadBlocks(s: Device, inum: nat, size: nat, offset: nat, inode_size: nat)
    returns (r: int, buf: seq<Byte>, ghost stale: WordBlock)
    requires Fs(s) && inum in s.live && inode_size == Size(InodeAt(s.blocks, inum)) && offset <= inode_size
    requires offset + size <= INT_MAX && EndNum(inode_size, size, offset) >= 0
    modifies s.log
    ensures ReadResult(s.blocks, InodeAt(s.blocks, inum), inode_size, size, offset, r, buf, stale)
  {
    ghost var d, n, total := s.blocks, InodeAt(s.blocks, inum), Clamped(inode_size, size, offset);
    var start_num: nat, end_num: nat, left: nat, start_off: nat, toRead: nat := Locate(inode_size, size, offset);
    EndBound(inode_size, size, offset);
    var block: WordBlock :| true;
    stale := block;
    var buf_off: nat := 0;
    buf := [];
    ReadsStart(d, n, offset, end_num, stale);
    while start_num <= end_num
      invariant |buf| == buf_off && ReadAt(offset, total, buf_off, left, start_num, start_off, toRead)
      invariant s.blocks == d && Reads(d, n, offset, end_num, start_num, buf, block, stale)
    {
      ReadHere(offset, total, buf_off, left, start_num, start_off, toRead);
      var refused, block' := ReadTurn(s, inum, start_num, block);
      if refused {
        ReadDone(d, n, inode_size, size, offset, -1, buf, stale, start_num, end_num, block);
        return -1, buf, stale;
      }
      var buf' := buf + Bytes(block')[start_off..start_off + toRead];
      var next, rest: nat, num := buf_off + toRead, left - toRead, start_num + 1;
      ReadsNext(d, n, offset, end_num, start_num, buf, block, stale, start_off, toRead, block', buf', num);
      var count: nat := if rest >= DB_SIZE then DB_SIZE else rest;
      ReadNext(offset, total, buf_off, left, start_num, start_off, toRead, next, rest, num, count);
      buf, buf_off, start_off, start_num, left, toRead := buf', next, 0, num, rest, count;
      block := block';
    }
    ReadHere(offset, total, buf_off, left, start_num, start_off, toRead);
    r := buf_off;
    ReadDone(d, n, inode_size, size, offset, r, buf, stale, start_num, end_num, block);
  }

  lemma EndBound(inodeSize: nat, size: nat, offset: nat)
    requires offset + size <= INT_MAX
    ensures EndNum(inodeSize, size, offset) < FIRST_TRIPLE
  {
  }

  // read_file, into a buffer returned as what was copied to its start, for every offset and size whose last block
  // number does not wrap.  For the reads of ReadOk the result is the slice of the file there is to read; ReadExact says
  // that the count of no other read is even its length.
  method ReadFile(s: Device, inum: nat, size: int, offset: int)
    returns (r: int, buf: seq<Byte>, ghost stale: WordBlock)
    requires Fs(s) && inum in s.live && offset + size <= INT_MAX
    requires var isz := Size(InodeAt(s.blocks, inum)); isz > 0 && size >= 0 && 0 <= offset <= isz ==>
      EndNum(isz, size, offset) >= 0
    modifies s.log
    ensures var isz := Size(InodeAt(s.blocks, inum));
      if size < 0 then r == -1 && buf == []
      else if isz == 0 then r == 0 && buf == []
      else if offset < 0 || offset > isz then r == -1 && buf == []
      else
        && ReadResult(s.blocks, InodeAt(s.blocks, inum), isz, size, offset, r, buf, stale)
        && (ReadOk(isz, size, offset) ==>
              r == Available(isz, size, offset) && buf == Contents(s.blocks, inum)[offset..offset + r])
  {
    stale := Zeros();
    if size < 0 {
      return -1, [], stale;
    }
    var inode_size := GetInodeSize(s, inum);
    if inode_size == 0 {
      return 0, [], stale;
    }
    if offset < 0 || offset > inode_size {
      return -1, [], stale;
    }
    r, buf, stale := ReadBlocks(s, inum, size, offset, inode_size);
    if ReadOk(inode_size, size, offset) {
      ReadRight(s.blocks, s.free, s.own, s.live, inum, inode_size, size, offset, r, buf, stale);
    }
  }

  // The same for the right reads alone.
  method ReadSlice(s: Device, inum: nat, size: nat, offset: nat) returns (r: int, buf: seq<Byte>)
    requires Fs(s) && inum in s.live && offset + size <= INT_MAX
    requires var isz := Size(InodeAt(s.blocks, inum)); isz > 0 && offset <= isz ==> ReadOk(isz, size, offset)
    modifies s.log
    ensures var isz := Size(InodeAt(s.blocks, inum));
      && r == (if isz == 0 then 0 else if offset > isz then -1 else Available(isz, size, offset))
      && buf == if isz == 0 || offset > isz then [] else Contents(s.blocks, inum)[offset..offset + r]
  {
    ghost var isz, stale := Size(InodeAt(s.blocks, inum)), Zeros();
    if isz > 0 && offset <= isz { ReadOkMapped(isz, size, offset); }
    r, buf, stale := ReadFile(s, inum, size, offset);
  }

  // Numbers whose index blocks exist are not refused, nor are direct ones.
  lemma NotRefused(d: Disk, free: set<nat>, own: Owners, live: set<nat>, inum: nat, start: nat, end: nat)
    requires FsOk(d, free, own, live) && inum in live && end < FIRST_TRIPLE
    requires forall k :: start <= k <= end ==> k < FIRST_SINGLE || Reachable(d, inum, k)
    ensures var k := FirstRefused(d, InodeAt(d, inum), start, end); k > end || start > end
  {
    var k := FirstRefused(d, InodeAt(d, inum), start, end);
    if start <= k <= end { FetchedFile(d, free, own, live, inum, start, k, Zeros()); }
  }

  // The result is -1 exactly if the lookup of a number on the way comes up with UINT_MAX.
  lemma ReadFails(d: Disk, n: Inode, inodeSize: nat, size: nat, offset: nat, r: int, buf: seq<Byte>, stale: WordBlock)
    requires ReadResult(d, n, inodeSize, size, offset, r, buf, stale)
    ensures r == -1 <==>
      exists k :: offset / DB_SIZE <= k <= EndNum(inodeSize, size, offset) && Looked(d, n, k) == UINT_MAX
    ensures r != -1 ==> r == ReadCount(inodeSize, size, offset) == |buf|
  {
    var k := FirstRefused(d, n, offset / DB_SIZE, EndNum(inodeSize, size, offset));
    ReachedAll(inodeSize, size, offset);
    if k <= EndNum(inodeSize, size, offset) { assert Looked(d, n, k) == UINT_MAX; }
  }

  // As long as the index blocks on the way exist, and always among the direct blocks, the count is returned, also
  // beyond the end of the file.  The bytes are those of the blocks mapped, and of block 0 for numbers without one.
  lemma ReadReached(d: Disk, free: set<nat>, own: Owners, live: set<nat>, inum: nat, size: nat, offset: nat,
                    r: int, buf: seq<Byte>, stale: WordBlock)
    requires FsOk(d, free, own, live) && inum in live
    requires ReadResult(d, InodeAt(d, inum), Size(InodeAt(d, inum)), size, offset, r, buf, stale)
    requires forall k :: offset / DB_SIZE <= k <= EndNum(Size(InodeAt(d, inum)), size, offset) ==>
      k < FIRST_SINGLE || Reachable(d, inum, k)
    ensures r == ReadCount(Size(InodeAt(d, inum)), size, offset) == |buf|
    ensures forall i :: 0 <= i < |buf| ==>
      buf[i] == if Id(d, inum, Data((offset + i) / DB_SIZE)) != 0 then Raw(d, inum, offset + i)
                else Bytes(W(d, 0))[(offset + i) % DB_SIZE]
  {
    var n, isz := InodeAt(d, inum), Size(InodeAt(d, inum));
    var end := EndNum(isz, size, offset);
    NotRefused(d, free, own, live, inum, offset / DB_SIZE, end);
    ReadFails(d, n, isz, size, offset, r, buf, stale);
    ReachedAll(isz, size, offset);
    assert Opened(true);
    forall i | 0 <= i < |buf|
      ensures buf[i] == if Id(d, inum, Data((offset + i) / DB_SIZE)) != 0 then Raw(d, inum, offset + i)
                        else Bytes(W(d, 0))[(offset + i) % DB_SIZE]
    {
      ReachedWhere(Clamped(isz, size, offset), offset, end, i);
      FetchedFile(d, free, own, live, inum, offset / DB_SIZE, (offset + i) / DB_SIZE, stale);
    }
  }

  // A byte before block end + 1 is in one up to `end`.
  lemma ReachedWhere(total: nat, offset: nat, end: nat, i: nat)
    requires i < Reached(total, offset, if offset / DB_SIZE <= end then end + 1 else offset / DB_SIZE)
    ensures offset / DB_SIZE <= (offset + i) / DB_SIZE <= end
  {
    assert offset == DB_SIZE * (offset / DB_SIZE) + offset % DB_SIZE;
  }

  lemma ReadRight(d: Disk, free: set<nat>, own: Owners, live: set<nat>, inum: nat, isz: nat, size: nat, offset: nat,
                  r: int, buf: seq<Byte>, stale: WordBlock)
    requires FsOk(d, free, own, live) && inum in live
    requires 0 < isz == Size(InodeAt(d, inum)) && offset <= isz && ReadOk(isz, size, offset)
    requires ReadResult(d, InodeAt(d, inum), isz, size, offset, r, buf, stale)
    ensures r == Available(isz, size, offset) && buf == Contents(d, inum)[offset..offset + r]
  {
    var end := EndNum(isz, size, offset);
    ReadOkMapped(isz, size, offset);
    ReadExact(isz, size, offset);
    forall k | offset / DB_SIZE <= k <= end
      ensures Reachable(d, inum, k)
    {
      FileBlock(d, free, own, live, inum, k);
    }
    NotRefused(d, free, own, live, inum, offset / DB_SIZE, end);
    DeliveredFile(d, free, own, live, inum, offset, buf, stale);
  }
}
