// The shrinking half of truncate_file (inode.c).

module Cut {
  import opened Blocks
  import opened Store
  import opened Inodes
  import opened Ownership
  import opened BlockMap
  import opened Lifetime
  import opened Growth
  import opened FileView
  import opened Shrink
  import FreeList

  // No block number in [keep, total) is one that gives up the double indirect block too early.
  predicate CleanCut(total: nat, keep: nat)
  {
    total <= FIRST_DOUBLE + 1 || keep >= FIRST_DOUBLE + INDIR_ID_NUM || keep >= total
  }

  lemma CleanCutExact(total: nat, keep: nat)
    ensures CleanCut(total, keep) <==> forall num :: keep <= num < total ==> !Early(num)
  {
    if !CleanCut(total, keep) {
      var num := if keep > FIRST_DOUBLE then keep else FIRST_DOUBLE + 1;
      assert Early(num);
    }
  }

  // From d0 with total0 blocks, down to `total`: what is kept keeps its ids and data, other inodes notice nothing, what
  // was cut off is free.  From an exact shape the shape stays exact and every block is accounted for.
  ghost predicate CutAll(d0: Disk, free0: set<nat>, own0: Owners, d: Disk, free: set<nat>, own: Owners,
                         live: set<nat>, inum: nat, total0: nat, total: nat)
  {
    && SameMeta(InodeAt(d0, inum), InodeAt(d, inum))
    && (forall r {:trigger Id(d, inum, r)} :: Within(r, total) ==> Id(d, inum, r) == Id(d0, inum, r))
    && (forall k {:trigger DataAt(d, inum, k)} :: 0 <= k < total ==> DataAt(d, inum, k) == DataAt(d0, inum, k))
    && (forall k {:trigger Data(k)} :: total <= k < total0 ==> Id(d0, inum, Data(k)) in free)
    && free0 <= free && own.Keys + free <= own0.Keys + free0
    && (Shape(d0, inum, total0) ==> Shape(d, inum, total) && own.Keys + free == own0.Keys + free0)
  }

  // Sealed like Linked.
  ghost predicate CutDown(d0: Disk, free0: set<nat>, own0: Owners, d: Disk, free: set<nat>, own: Owners,
                          live: set<nat>, inum: nat, total0: nat, total: nat)
  {
    forall w {:trigger Opened(w)} :: Opened(w) ==>
      OthersKept(d0, own0, d, live, inum) && CutAll(d0, free0, own0, d, free, own, live, inum, total0, total)
  }

  lemma CutStart(d: Disk, free: set<nat>, own: Owners, live: set<nat>, inum: nat, total: nat)
    ensures CutDown(d, free, own, d, free, own, live, inum, total, total)
  {
  }

  lemma CutKeeps(d0: Disk, d: Disk, free: set<nat>, own: Owners, d': Disk, free': set<nat>, own': Owners,
                 live: set<nat>, inum: nat, total: nat)
    requires Partial(d, free, own, live, inum, total + 1) && total < FIRST_TRIPLE && !Early(total)
    requires Shortened(d, free, own, d', free', own', live, inum, total)
    ensures forall r {:trigger Id(d', inum, r)} :: Within(r, total) ==> Id(d', inum, r) == Id(d, inum, r)
    ensures forall k {:trigger DataAt(d', inum, k)} :: 0 <= k < total ==> DataAt(d', inum, k) == DataAt(d, inum, k)
    ensures OthersKept(d, own, d', live, inum)
  {
    assert FreeList.Unsealed(true);
    OpenPartial(d, free, own, live, inum, total + 1);
    OpenPartial(d', free', own', live, inum, total);
    forall r | Within(r, total)
      ensures Id(d', inum, r) == Id(d, inum, r)
    {
      LastWithin(total, r);
    }
    forall k | 0 <= k < total
      ensures DataAt(d', inum, k) == DataAt(d, inum, k)
    {
      assert Within(Data(k), total) && Id(d', inum, Data(k)) == Id(d, inum, Data(k)) != 0;
      assert own'[Id(d', inum, Data(k))] == Owner(inum, Data(k));
    }
  }

  // One more block off the end.
  lemma CutNext(d0: Disk, free0: set<nat>, own0: Owners, d: Disk, free: set<nat>, own: Owners,
                d': Disk, free': set<nat>, own': Owners, live: set<nat>, inum: nat, total0: nat, total: nat)
    requires FsOk(d0, free0, own0, live) && Partial(d, free, own, live, inum, total + 1) && total < FIRST_TRIPLE
    requires !Early(total)
    requires CutDown(d0, free0, own0, d, free, own, live, inum, total0, total + 1)
    requires Shortened(d, free, own, d', free', own', live, inum, total)
    ensures CutDown(d0, free0, own0, d', free', own', live, inum, total0, total)
    ensures Partial(d', free', own', live, inum, total)
  {
    ShortenedPartial(d, free, own, d', free', own', live, inum, total);
    CutKeeps(d0, d, free, own, d', free', own', live, inum, total);
    assert OthersKept(d0, own0, d', live, inum) by {
      Open(d0, free0, own0, live);
      OpenPartial(d, free, own, live, inum, total + 1);
      OthersInTurn(d0, own0, d, own, d', live, inum);
    }
    assert Opened(true);
    CutFreed(d0, free0, own0, d, free, own, d', free', own', live, inum, total0, total);
    forall r | Within(r, total)
      ensures Id(d', inum, r) == Id(d0, inum, r)
    {
      LastWithin(total, r);
      assert Id(d, inum, r) == Id(d0, inum, r);
    }
    if Shape(d0, inum, total0) {
      assert Shape(d, inum, total + 1);
      DropExact(d, free, own, d', free', own', live, inum, total);
    }
  }

  lemma CutFreed(d0: Disk, free0: set<nat>, own0: Owners, d: Disk, free: set<nat>, own: Owners,
                 d': Disk, free': set<nat>, own': Owners, live: set<nat>, inum: nat, total0: nat, total: nat)
    requires total < FIRST_TRIPLE && CutAll(d0, free0, own0, d, free, own, live, inum, total0, total + 1)
    requires Shortened(d, free, own, d', free', own', live, inum, total)
    ensures forall k {:trigger Data(k)} :: total <= k < total0 ==> Id(d0, inum, Data(k)) in free'
    ensures free0 <= free' && own'.Keys + free' <= own0.Keys + free0 && SameMeta(InodeAt(d0, inum), InodeAt(d', inum))
  {
    assert FreeList.Unsealed(true);
    forall k | total <= k < total0
      ensures Id(d0, inum, Data(k)) in free'
    {
      if k == total { assert Id(d, inum, Data(k)) == Id(d0, inum, Data(k)); }
    }
  }

  // The device during the loop: the blocks from `total` on are gone.  Sealed by Shown.
  ghost predicate Dropping(s: Device, d0: Disk, free0: set<nat>, own0: Owners, inum: nat, total0: nat, total: nat)
    reads s
  {
    forall w {:trigger Shown(w)} :: Shown(w) ==>
      && FreeList.Records(s.blocks, s.chain, s.free) && Partial(s.blocks, s.free, s.own, s.live, inum, total)
      && CutDown(d0, free0, own0, s.blocks, s.free, s.own, s.live, inum, total0, total) && FsOk(d0, free0, own0, s.live)
  }

  lemma ToDropping(s: Device, d0: Disk, free0: set<nat>, own0: Owners, inum: nat, total0: nat, total: nat)
    requires FreeList.Records(s.blocks, s.chain, s.free) && Partial(s.blocks, s.free, s.own, s.live, inum, total)
    requires CutDown(d0, free0, own0, s.blocks, s.free, s.own, s.live, inum, total0, total)
    requires FsOk(d0, free0, own0, s.live)
    ensures Dropping(s, d0, free0, own0, inum, total0, total)
  {
  }

  lemma FromDropping(s: Device, d0: Disk, free0: set<nat>, own0: Owners, inum: nat, total0: nat, total: nat)
    requires Dropping(s, d0, free0, own0, inum, total0, total)
    ensures FreeList.Records(s.blocks, s.chain, s.free) && Partial(s.blocks, s.free, s.own, s.live, inum, total)
    ensures CutDown(d0, free0, own0, s.blocks, s.free, s.own, s.live, inum, total0, total)
    ensures FsOk(d0, free0, own0, s.live)
  {
    assert Shown(true);
  }

  method DropNext(s: Device, inum: nat, num: nat, ghost total: nat,
                  ghost d0: Disk, ghost free0: set<nat>, ghost own0: Owners, ghost total0: nat)
    requires Dropping(s, d0, free0, own0, inum, total0, total) && total == num + 1 && !Early(num)
    modifies s.log, s`blocks, s`chain, s`free, s`own
    ensures Dropping(s, d0, free0, own0, inum, total0, num)
  {
    ghost var d, free, own := s.blocks, s.free, s.own;
    FromDropping(s, d0, free0, own0, inum, total0, num + 1);
    assert num < FIRST_TRIPLE && FsOk(d0, free0, own0, s.live);
    DropLast(s, inum, num);
    DroppingNext(s, d0, free0, own0, d, free, own, inum, total0, num);
  }

  lemma DroppingNext(s: Device, d0: Disk, free0: set<nat>, own0: Owners, d: Disk, free: set<nat>, own: Owners,
                     inum: nat, total0: nat, num: nat)
    requires FreeList.Records(s.blocks, s.chain, s.free) && FsOk(d0, free0, own0, s.live)
    requires Partial(d, free, own, s.live, inum, num + 1) && num < FIRST_TRIPLE && !Early(num)
    requires CutDown(d0, free0, own0, d, free, own, s.live, inum, total0, num + 1)
    requires Shortened(d, free, own, s.blocks, s.free, s.own, s.live, inum, num)
    ensures Dropping(s, d0, free0, own0, inum, total0, num)
  {
    CutNext(d0, free0, own0, d, free, own, s.blocks, s.free, s.own, s.live, inum, total0, num);
    ToDropping(s, d0, free0, own0, inum, total0, num);
  }

  // What the loop makes of inode_size in k turns: a block less each, but never negative.
  function Remaining(inodeSize: nat, k: nat): nat
  {
    if k == 0 then inodeSize
    else if Remaining(inodeSize, k - 1) >= DB_SIZE then Remaining(inodeSize, k - 1) - DB_SIZE else 0
  }

  lemma {:induction false} RemainingIs(inodeSize: nat, k: nat)
    ensures Remaining(inodeSize, k) == if inodeSize >= DB_SIZE * k then inodeSize - DB_SIZE * k else 0
  {
    if k > 0 { RemainingIs(inodeSize, k - 1); }
  }

  // The loop of truncate_file that releases the blocks from `keep` on; size is what it makes of inode_size.
  method DropBlocks(s: Device, inum: nat, total: nat, keep: nat, inode_size: nat) returns (size: nat)
    requires Fs(s) && inum in s.live && total == BlocksOf(InodeAt(s.blocks, inum)) && keep <= total
    requires CleanCut(total, keep)
    modifies s.log, s`blocks, s`chain, s`free, s`own
    ensures Dropping(s, old(s.blocks), old(s.free), old(s.own), inum, total, keep)
    ensures size == Remaining(inode_size, total - keep)
  {
    ghost var d0, free0, own0 := s.blocks, s.free, s.own;
    ToPartial(d0, free0, own0, s.live, inum);
    CutStart(d0, free0, own0, s.live, inum, total);
    ToDropping(s, d0, free0, own0, inum, total, total);
    var num_block_total := total;
    size := inode_size;
    while num_block_total > keep
      invariant keep <= num_block_total <= total
      invariant Dropping(s, d0, free0, own0, inum, total, num_block_total)
      invariant size == Remaining(inode_size, total - num_block_total)
    {
      var num: nat := num_block_total - 1;
      assert !Early(num) by { CleanCutExact(total, keep); }
      DropNext(s, inum, num, num_block_total, d0, free0, own0, total);
      num_block_total := num;
      size := if size >= DB_SIZE then size - DB_SIZE else 0;
    }
  }

  // ---------- cuts that are not clean ----------

  // The first number that the loop releases too early.
  function FirstEarly(total: nat): nat
    requires total > FIRST_DOUBLE + 1
  {
    if total > FIRST_DOUBLE + INDIR_ID_NUM then FIRST_DOUBLE + INDIR_ID_NUM - 1 else total - 1
  }

  lemma FirstEarlyIs(total: nat, keep: nat)
    requires !CleanCut(total, keep)
    ensures keep <= FirstEarly(total) < total && Early(FirstEarly(total)) && CleanCut(total, FirstEarly(total) + 1)
  {
  }

  // An early turn loses the blocks before it in its row: they are neither owned nor free.
  lemma EarlyLoses(d: Disk, free: set<nat>, own: Owners, d': Disk, free': set<nat>, own': Owners,
                   live: set<nat>, inum: nat, num: nat, k: nat)
    requires Partial(d, free, own, live, inum, num + 1) && Early(num) && num < FIRST_TRIPLE && FIRST_DOUBLE <= k < num
    requires Shortened(d, free, own, d', free', own', live, inum, num)
    ensures var b := Id(d, inum, Data(k)); b in own && b !in own' && b !in free'
  {
    assert FreeList.Unsealed(true);
    OpenPartial(d, free, own, live, inum, num + 1);
    Owned(d, free, own, live, inum, num);
    var b := Id(d, inum, Data(k));
    assert b != 0 && own[b] == Owner(inum, Data(k));
  }

  // From an exact shape, a cut that is not clean loses blocks: once the loop has come to the first early number, the
  // blocks of the numbers before it in its row are neither owned nor free, those of the numbers to be kept included.
  method DropUntilEarly(s: Device, inum: nat, total: nat, keep: nat, inode_size: nat)
    requires Fs(s) && inum in s.live && total == BlocksOf(InodeAt(s.blocks, inum)) && !CleanCut(total, keep)
    requires Shape(s.blocks, inum, total)
    modifies s.log, s`blocks, s`chain, s`free, s`own
    ensures FreeList.Records(s.blocks, s.chain, s.free) && s.own.Keys + s.free < old(s.own.Keys + s.free)
    ensures forall k :: FIRST_DOUBLE <= k < FirstEarly(total) ==>
      var b := Id(old(s.blocks), inum, Data(k)); b in old(s.own) && b !in s.own && b !in s.free
  {
    ghost var d0, free0, own0 := s.blocks, s.free, s.own;
    FirstEarlyIs(total, keep);
    var num, last := FirstEarly(total), FirstEarly(total) + 1;
    var _ := DropBlocks(s, inum, total, last, inode_size);
    DropEarly(s, inum, num, last, total, d0, free0, own0);
  }

  method DropEarly(s: Device, inum: nat, num: nat, ghost last: nat, ghost total: nat,
                   ghost d0: Disk, ghost free0: set<nat>, ghost own0: Owners)
    requires Dropping(s, d0, free0, own0, inum, total, last) && last == num + 1 && Early(num) && num < total
    requires total == BlocksOf(InodeAt(d0, inum)) && Shape(d0, inum, total)
    modifies s.log, s`blocks, s`chain, s`free, s`own
    ensures FreeList.Records(s.blocks, s.chain, s.free) && s.own.Keys + s.free < own0.Keys + free0
    ensures forall k :: FIRST_DOUBLE <= k < num ==>
      var b := Id(d0, inum, Data(k)); b in own0 && b !in s.own && b !in s.free
  {
    FromDropping(s, d0, free0, own0, inum, total, last);
    ghost var d, free, own := s.blocks, s.free, s.own;
    DropLast(s, inum, num);
    EarlyAll(d0, free0, own0, d, free, own, s.blocks, s.free, s.own, s.live, inum, total, num, last);
  }

  lemma EarlyAll(d0: Disk, free0: set<nat>, own0: Owners, d: Disk, free: set<nat>, own: Owners,
                 d': Disk, free': set<nat>, own': Owners, live: set<nat>, inum: nat, total: nat, num: nat, last: nat)
    requires FsOk(d0, free0, own0, live) && inum in live && total == BlocksOf(InodeAt(d0, inum)) && num < total
    requires Shape(d0, inum, total) && CutDown(d0, free0, own0, d, free, own, live, inum, total, last)
    requires last == num + 1 && Partial(d, free, own, live, inum, last) && Early(num) && num < FIRST_TRIPLE
    requires Shortened(d, free, own, d', free', own', live, inum, num)
    ensures own'.Keys + free' < own0.Keys + free0
    ensures forall k :: FIRST_DOUBLE <= k < num ==>
      var b := Id(d0, inum, Data(k)); b in own0 && b !in own' && b !in free'
  {
    assert CutAll(d0, free0, own0, d, free, own, live, inum, total, last) by { assert Opened(true); }
    assert own'.Keys + free' <= own.Keys + free by { assert FreeList.Unsealed(true); }
    DropExact(d, free, own, d', free', own', live, inum, num);
    assert OwnOk(d0, own0, live) by { OpenOwn(d0, free0, own0, live); }
    forall k | FIRST_DOUBLE <= k < num
      ensures var b := Id(d0, inum, Data(k)); b in own0 && b !in own' && b !in free'
    {
      EarlyLoses(d, free, own, d', free', own', live, inum, num, k);
      assert Within(Data(k), num + 1) && Id(d, inum, Data(k)) == Id(d0, inum, Data(k));
      assert Id(d0, inum, Data(k)) != 0 <==> Within(Data(k), total);
    }
  }

  // ---------- the tail of the last block ----------

  lemma MappedBlock(d: Disk, free: set<nat>, own: Owners, live: set<nat>, inum: nat, n: nat, num: nat)
    requires Partial(d, free, own, live, inum, n) && Id(d, inum, Data(num)) != 0
    ensures var id := Id(d, inum, Data(num)); id in own && own[id] == Owner(inum, Data(num)) && InData(d, id)
    ensures forall i :: i in live ==> i < NUM_INODE
  {
    OpenPartial(d, free, own, live, inum, n);
    InRange(d, free, own, live, inum, n);
  }

  lemma StillPartial(d: Disk, d': Disk, free: set<nat>, own: Owners, live: set<nat>,
                     inum: nat, n: nat, num: nat, ws: WordBlock)
    requires Partial(d, free, own, live, inum, n)
    requires var id := Id(d, inum, Data(num)); id != 0 && InData(d, id) && id < |d| && d' == d[id := ws]
    requires forall i :: i in live ==> i < NUM_INODE
    ensures Partial(d', free, own, live, inum, n) && NumBlock(d') == NumBlock(d)
    ensures forall i :: i in live ==> InodeAt(d', i) == InodeAt(d, i)
    ensures forall i, r {:trigger Id(d', i, r)} :: i in live ==> Id(d', i, r) == Id(d, i, r)
  {
    OpenPartial(d, free, own, live, inum, n);
    RewriteRecords(d, live, Id(d, inum, Data(num)), ws);
    RewriteIds(d, d', own, live, inum, num, ws);
    MarkedLive(d, d', live - {inum});
  }

  lemma RewritePartial(d: Disk, d': Disk, chain: seq<nat>, free: set<nat>, own: Owners, live: set<nat>,
                       inum: nat, n: nat, num: nat, ws: WordBlock)
    requires FreeList.Records(d, chain, free) && Partial(d, free, own, live, inum, n)
    requires var id := Id(d, inum, Data(num)); id != 0 && id < |d| && d' == d[id := ws]
    ensures FreeList.Records(d', chain, free) && Partial(d', free, own, live, inum, n)
    ensures Rewritten(d, d', own, live, inum, num, ws)
  {
    MappedBlock(d, free, own, live, inum, n, num);
    StillPartial(d, d', free, own, live, inum, n, num, ws);
    FreeList.RecordsFacts(d, chain, free);
    FreeList.RecordsFrame(d, d', chain, free);
    RewriteShown(d, d', own, live, inum, num, ws);
  }

  // Bytes from `from` on set to zero.
  method ZeroBytes(block: Block, from: nat) returns (r: Block)
    requires from <= DB_SIZE
    ensures r == block[..from] + Zeroes(DB_SIZE - from)
  {
    r := block;
    for i := from to DB_SIZE
      invariant forall j :: 0 <= j < DB_SIZE ==> r[j] == if from <= j < i then 0 else block[j]
    {
      r := r[i := 0];
    }
  }

  // truncate_file zeroes the last kept block from byte `from` on.
  method ZeroTail(s: Device, inum: nat, num: nat, from: nat) returns (ghost ws: WordBlock)
    requires FreeList.Records(s.blocks, s.chain, s.free) && Partial(s.blocks, s.free, s.own, s.live, inum, num + 1)
    requires from <= DB_SIZE
    modifies s.log, s`blocks
    ensures FreeList.Records(s.blocks, s.chain, s.free) && Partial(s.blocks, s.free, s.own, s.live, inum, num + 1)
    ensures Rewritten(old(s.blocks), s.blocks, s.own, s.live, inum, num, ws)
    ensures Spliced(DataAt(old(s.blocks), inum, num), ws, from, Zeroes(DB_SIZE - from))
  {
    ghost var d := s.blocks;
    Owned(d, s.free, s.own, s.live, inum, num);
    InRange(d, s.free, s.own, s.live, inum, num + 1);
    var bid := FindBlock(s, inum, num);
    var block := DbRead(s, bid.value);
    var zeroed := ZeroBytes(Bytes(block.value), from);
    var _ := DbWrite(s, Words(zeroed), bid.value);
    ws := Words(zeroed);
    ZeroSpliced(block.value, from, zeroed);
    RewritePartial(d, s.blocks, s.chain, s.free, s.own, s.live, inum, num + 1, num, ws);
  }

  lemma ZeroSpliced(ws: WordBlock, from: nat, zeroed: Block)
    requires from <= DB_SIZE && zeroed == Bytes(ws)[..from] + Zeroes(DB_SIZE - from)
    ensures Spliced(ws, Words(zeroed), from, Zeroes(DB_SIZE - from))
  {
    assert zeroed == SpliceBytes(Bytes(ws), from, Zeroes(DB_SIZE - from));
    BlockSpliced(ws, from, Zeroes(DB_SIZE - from));
  }

  // With the new size, the invariant holds again.
  lemma CutSized(d: Disk, d': Disk, chain: seq<nat>, free: set<nat>, own: Owners, live: set<nat>, inum: nat, n: nat,
                 size: nat)
    requires FreeList.Records(d, chain, free) && Partial(d, free, own, live, inum, n) && BlocksFor(size) <= n
    requires size < 0x1_0000_0000_0000_0000 && Stored(d, d', inum, WithSize(InodeAt(d, inum), size))
    ensures FreeList.Records(d', chain, free) && FsOk(d', free, own, live) && Resized(d, d', live, inum, size)
  {
    OpenPartial(d, free, own, live, inum, n);
    InRange(d, free, own, live, inum, n);
    KeepRecords(d, d', chain, free, inum);
    MarksKept(d, d', inum, WithSize(InodeAt(d, inum), size));
    StoredHead(d, d', inum, WithSize(InodeAt(d, inum), size));
    TableRange(inum);
    KeptIds(d, d', own, live);
    CutLive(d, d', live, inum, n, size);
    Close(d', free, own, live);
  }

  lemma CutLive(d: Disk, d': Disk, live: set<nat>, inum: nat, n: nat, size: nat)
    requires LiveOk(d, live - {inum}) && Head(d, inum, n) && inum in live && inum < NUM_INODE && n <= FIRST_TRIPLE
    requires BlocksFor(size) <= n
    requires size < 0x1_0000_0000_0000_0000 && Resized(d, d', live, inum, size)
    requires forall i :: 0 <= i < NUM_INODE ==> (InUse(d', i) <==> InUse(d, i))
    ensures LiveOk(d', live)
  {
    MarkedLive(d, d', live - {inum});
    assert BlocksOf(InodeAt(d', inum)) == BlocksFor(size);
    forall k | 0 <= k < n
      ensures Id(d', inum, Data(k)) != 0
    {
      assert Id(d, inum, Data(k)) != 0;
    }
    assert Mapped(d', inum);
    forall i | i in live
      ensures i < NUM_INODE && InUse(d', i) && Mapped(d', i)
    {
      if i != inum { assert i in live - {inum}; }
    }
  }

  // ---------- the cut as a whole ----------

  // Bytes below a limit are the same.
  ghost predicate SameBytes(d: Disk, d': Disk, inum: nat, limit: nat)
  {
    forall w {:trigger Opened(w)} :: Opened(w) ==>
      forall p {:trigger Raw(d', inum, p)} :: 0 <= p < limit ==> Raw(d', inum, p) == Raw(d, inum, p)
  }

  lemma DataBytes(d: Disk, d': Disk, inum: nat, n: nat, limit: nat)
    requires SameData(d, d', inum, n) && limit <= DB_SIZE * n
    ensures SameBytes(d, d', inum, limit)
  {
    forall p | 0 <= p < limit
      ensures Raw(d', inum, p) == Raw(d, inum, p)
    {
      assert Opened(true);
      assert p / DB_SIZE < n;
      assert DataAt(d', inum, p / DB_SIZE) == DataAt(d, inum, p / DB_SIZE);
    }
  }

  // Bytes below a limit are the same up to `from` and zero from there on.
  ghost predicate ZeroedFrom(d: Disk, d': Disk, inum: nat, from: nat, limit: nat)
  {
    forall w {:trigger Opened(w)} :: Opened(w) ==>
      forall p {:trigger Raw(d', inum, p)} :: 0 <= p < limit ==>
        Raw(d', inum, p) == if p < from then Raw(d, inum, p) else 0
  }

  lemma PatchedBytes(d: Disk, d': Disk, inum: nat, n: nat, pos: nat)
    requires pos <= DB_SIZE * n && Patched(d, d', inum, n, pos, Zeroes(DB_SIZE * n - pos))
    ensures ZeroedFrom(d, d', inum, pos, DB_SIZE * n)
  {
    forall p | 0 <= p < DB_SIZE * n
      ensures Raw(d', inum, p) == if p < pos then Raw(d, inum, p) else 0
    {
      assert Opened(true);
    }
  }

  lemma BytesInTurn(d: Disk, d1: Disk, d2: Disk, d3: Disk, inum: nat, from: nat, limit: nat)
    requires SameBytes(d, d1, inum, limit) && ZeroedFrom(d1, d2, inum, from, limit) && SameBytes(d2, d3, inum, limit)
    ensures ZeroedFrom(d, d3, inum, from, limit)
  {
    assert Opened(true);
    forall p | 0 <= p < limit
      ensures Raw(d3, inum, p) == if p < from then Raw(d, inum, p) else 0
    {
      assert Raw(d3, inum, p) == Raw(d2, inum, p);
      assert Raw(d1, inum, p) == Raw(d, inum, p);
    }
  }

  // Where the kept blocks are zero from: the new size, or nowhere when the old last block was shorter than the new one.
  function TailFrom(inodeSize: nat, size: nat): nat
    requires size <= inodeSize
  {
    TotalGrows(size, inodeSize);
    if Remaining(inodeSize, BlocksFor(inodeSize) - BlocksFor(size)) > size then size else DB_SIZE * BlocksFor(size)
  }

  lemma TotalGrows(size: nat, inodeSize: nat)
    requires size <= inodeSize
    ensures BlocksFor(size) <= BlocksFor(inodeSize) && size <= DB_SIZE * BlocksFor(size)
  {
  }

  // The effect of truncate_file to a smaller size: the file keeps its first bytes, the tail is zeroed, every block
  // beyond goes back to the free list, and no other file notices.  From an exact shape no block is lost.  Sealed like
  // Linked.
  ghost predicate CutEffect(d0: Disk, free0: set<nat>, own0: Owners, d: Disk, free: set<nat>, own: Owners,
                            live: set<nat>, inum: nat, size: nat)
    requires size <= Size(InodeAt(d0, inum))
  {
    forall w {:trigger Opened(w)} :: Opened(w) ==> CutEffectAll(d0, free0, own0, d, free, own, live, inum, size)
  }

  ghost predicate CutEffectAll(d0: Disk, free0: set<nat>, own0: Owners, d: Disk, free: set<nat>, own: Owners,
                               live: set<nat>, inum: nat, size: nat)
    requires size <= Size(InodeAt(d0, inum))
  {
    var total, keep := BlocksOf(InodeAt(d0, inum)), BlocksFor(size);
    && OthersKept(d0, own0, d, live, inum)
    && Size(InodeAt(d, inum)) == size && Contents(d, inum) == Contents(d0, inum)[..size]
    && ZeroedFrom(d0, d, inum, TailFrom(Size(InodeAt(d0, inum)), size), DB_SIZE * keep)
    && (forall k {:trigger Data(k)} :: keep <= k < total ==> Id(d0, inum, Data(k)) in free)
    && free0 <= free && own.Keys + free <= own0.Keys + free0
    && (Shape(d0, inum, total) ==> Shape(d, inum, keep) && own.Keys + free == own0.Keys + free0)
    && (forall r {:trigger Id(d, inum, r)} :: Within(r, keep) ==> Id(d, inum, r) == Id(d0, inum, r))
  }

  // After the loop: the tail zeroed (or not), then the size.
  lemma CutEnd(d0: Disk, free0: set<nat>, own0: Owners, d1: Disk, d2: Disk, d3: Disk,
               free: set<nat>, own: Owners, live: set<nat>, inum: nat, size: nat)
    requires FsOk(d0, free0, own0, live) && inum in live && size <= Size(InodeAt(d0, inum))
    requires size < 0x1_0000_0000_0000_0000
    requires var total, keep := BlocksOf(InodeAt(d0, inum)), BlocksFor(size);
      && Partial(d2, free, own, live, inum, keep)
      && CutDown(d0, free0, own0, d1, free, own, live, inum, total, keep)
    requires OthersKept(d0, own0, d2, live, inum)
    requires ZeroedFrom(d1, d2, inum, TailFrom(Size(InodeAt(d0, inum)), size), DB_SIZE * BlocksFor(size))
    requires forall r {:trigger Id(d2, inum, r)} :: Id(d2, inum, r) == Id(d1, inum, r)
    requires Resized(d2, d3, live, inum, size)
    ensures CutEffect(d0, free0, own0, d3, free, own, live, inum, size)
  {
    var total, keep := BlocksOf(InodeAt(d0, inum)), BlocksFor(size);
    assert AllMapped(d2, inum, keep) by { OpenPartial(d2, free, own, live, inum, keep); }
    assert SameData(d2, d3, inum, keep) by {
      OpenPartial(d2, free, own, live, inum, keep);
      ResizeData(d2, own, d3, live, inum, size, keep);
    }
    DataBytes(d2, d3, inum, keep, DB_SIZE * keep);
    assert SameData(d0, d1, inum, keep) by { assert Opened(true); }
    DataBytes(d0, d1, inum, keep, DB_SIZE * keep);
    BytesInTurn(d0, d1, d2, d3, inum, TailFrom(Size(InodeAt(d0, inum)), size), DB_SIZE * keep);
    CutContents(d0, d3, inum, size);
    assert OthersKept(d0, own0, d3, live, inum) by {
      OpenOwn(d0, free0, own0, live);
      OthersResized(d0, own0, d2, d3, live, inum, size);
    }
    assert Opened(true);
    if Shape(d0, inum, total) { CutShape(d1, d2, d3, live, inum, size, keep); }
    forall r | Within(r, keep)
      ensures Id(d3, inum, r) == Id(d0, inum, r)
    {
      assert Id(d3, inum, r) == Id(d2, inum, r) == Id(d1, inum, r);
    }
  }

  lemma CutContents(d0: Disk, d: Disk, inum: nat, size: nat)
    requires size <= Size(InodeAt(d0, inum)) && Size(InodeAt(d, inum)) == size
    requires ZeroedFrom(d0, d, inum, TailFrom(Size(InodeAt(d0, inum)), size), DB_SIZE * BlocksFor(size))
    ensures Contents(d, inum) == Contents(d0, inum)[..size]
  {
    assert Opened(true);
    TotalGrows(size, Size(InodeAt(d0, inum)));
    forall p | 0 <= p < size
      ensures Contents(d, inum)[p] == Contents(d0, inum)[p]
    {
      assert Raw(d, inum, p) == Raw(d0, inum, p);
    }
  }

  lemma CutShape(d1: Disk, d2: Disk, d3: Disk, live: set<nat>, inum: nat, size: nat, keep: nat)
    requires inum in live && Shape(d1, inum, keep) && size < 0x1_0000_0000_0000_0000
    requires Resized(d2, d3, live, inum, size)
    requires forall r {:trigger Id(d2, inum, r)} :: Id(d2, inum, r) == Id(d1, inum, r)
    ensures Shape(d3, inum, keep)
  {
    forall r
      ensures Id(d3, inum, r) != 0 <==> Within(r, keep)
    {
      assert Id(d3, inum, r) == Id(d2, inum, r) == Id(d1, inum, r);
    }
  }

  // What the loop makes of inode_size exceeds the new size only when the cut is inside the last kept block.
  lemma TailPlace(inodeSize: nat, offset: nat)
    requires offset < inodeSize
    ensures BlocksFor(offset) <= BlocksFor(inodeSize)
    ensures Remaining(inodeSize, BlocksFor(inodeSize) - BlocksFor(offset)) > offset ==>
      BlocksFor(offset) > 0 && offset == DB_SIZE * (BlocksFor(offset) - 1) + offset % DB_SIZE
  {
    assert BlocksFor(offset) <= BlocksFor(inodeSize);
    RemainingIs(inodeSize, BlocksFor(inodeSize) - BlocksFor(offset));
  }

  lemma TailEffect(d0: Disk, free0: set<nat>, own0: Owners, d1: Disk, d2: Disk, free: set<nat>, own: Owners,
                   live: set<nat>, inum: nat, num: nat, o: nat, ws: WordBlock)
    requires FsOk(d0, free0, own0, live) && Partial(d1, free, own, live, inum, num + 1) && o <= DB_SIZE
    requires OthersKept(d0, own0, d1, live, inum)
    requires Rewritten(d1, d2, own, live, inum, num, ws) && Spliced(DataAt(d1, inum, num), ws, o, Zeroes(DB_SIZE - o))
    ensures OthersKept(d0, own0, d2, live, inum) && ZeroedFrom(d1, d2, inum, DB_SIZE * num + o, DB_SIZE * (num + 1))
    ensures forall r {:trigger Id(d2, inum, r)} :: Id(d2, inum, r) == Id(d1, inum, r)
  {
    assert AllMapped(d1, inum, num + 1) by { OpenPartial(d1, free, own, live, inum, num + 1); }
    MappedAt(d1, inum, num + 1, num);
    assert Patched(d1, d2, inum, num + 1, DB_SIZE * num + o, Zeroes(DB_SIZE - o)) by {
      OpenPartial(d1, free, own, live, inum, num + 1);
      RewritePatched(d1, d2, own, live, inum, num, o, Zeroes(DB_SIZE - o), ws, num + 1, DB_SIZE * num + o);
    }
    PatchedBytes(d1, d2, inum, num + 1, DB_SIZE * num + o);
    assert OthersKept(d0, own0, d2, live, inum) by {
      OpenOwn(d0, free0, own0, live);
      OpenPartial(d1, free, own, live, inum, num + 1);
      RewriteOthers(d1, d2, own, live, inum, num, ws);
      OthersInTurn(d0, own0, d1, own, d2, live, inum);
    }
    assert Opened(true);
  }

  lemma NoTail(d: Disk, inum: nat, limit: nat)
    ensures ZeroedFrom(d, d, inum, limit, limit)
  {
  }

  lemma CutOthers(d0: Disk, free0: set<nat>, own0: Owners, d: Disk, free: set<nat>, own: Owners,
                  live: set<nat>, inum: nat, total0: nat, total: nat)
    requires CutDown(d0, free0, own0, d, free, own, live, inum, total0, total)
    ensures OthersKept(d0, own0, d, live, inum)
  {
    assert Opened(true);
  }

  // The device after the tail is dealt with.  Sealed by Shown.
  ghost predicate Trimmed(s: Device, d0: Disk, free0: set<nat>, own0: Owners, d1: Disk, inum: nat, size: nat)
    requires size <= Size(InodeAt(d0, inum))
    reads s
  {
    forall w {:trigger Shown(w)} :: Shown(w) ==> TrimmedAll(s, d0, free0, own0, d1, inum, size)
  }

  ghost predicate TrimmedAll(s: Device, d0: Disk, free0: set<nat>, own0: Owners, d1: Disk, inum: nat, size: nat)
    requires size <= Size(InodeAt(d0, inum))
    reads s
  {
    var total, keep := BlocksOf(InodeAt(d0, inum)), BlocksFor(size);
    && FsOk(d0, free0, own0, s.live)
    && FreeList.Records(s.blocks, s.chain, s.free) && Partial(s.blocks, s.free, s.own, s.live, inum, keep)
    && CutDown(d0, free0, own0, d1, s.free, s.own, s.live, inum, total, keep)
    && OthersKept(d0, own0, s.blocks, s.live, inum)
    && ZeroedFrom(d1, s.blocks, inum, TailFrom(Size(InodeAt(d0, inum)), size), DB_SIZE * keep)
    && forall r {:trigger Id(s.blocks, inum, r)} :: Id(s.blocks, inum, r) == Id(d1, inum, r)
  }

  // The tail of the last kept block is zeroed when what is left of inode_size exceeds the new size.
  method TrimTail(s: Device, inum: nat, offset: nat, inode_size: int, keep: nat, ghost d0: Disk, ghost free0: set<nat>,
                  ghost own0: Owners)
    requires offset <= Size(InodeAt(d0, inum)) && keep == BlocksFor(offset)
    requires Dropping(s, d0, free0, own0, inum, BlocksOf(InodeAt(d0, inum)), keep)
    requires inode_size > offset ==> keep > 0 && offset == DB_SIZE * (keep - 1) + offset % DB_SIZE
    requires TailFrom(Size(InodeAt(d0, inum)), offset) == if inode_size > offset then offset else DB_SIZE * keep
    modifies s.log, s`blocks
    ensures Trimmed(s, d0, free0, own0, old(s.blocks), inum, offset)
  {
    FromDropping(s, d0, free0, own0, inum, BlocksOf(InodeAt(d0, inum)), keep);
    ghost var d1 := s.blocks;
    CutOthers(d0, free0, own0, d1, s.free, s.own, s.live, inum, BlocksOf(InodeAt(d0, inum)), keep);
    if inode_size > offset {
      ghost var ws := ZeroTail(s, inum, keep - 1, offset % DB_SIZE);
      TailEffect(d0, free0, own0, d1, s.blocks, s.free, s.own, s.live, inum, keep - 1, offset % DB_SIZE, ws);
    } else {
      NoTail(d1, inum, DB_SIZE * keep);
    }
    ToTrimmed(s, d0, free0, own0, d1, inum, offset);
  }

  lemma ToTrimmed(s: Device, d0: Disk, free0: set<nat>, own0: Owners, d1: Disk, inum: nat, size: nat)
    requires size <= Size(InodeAt(d0, inum)) && TrimmedAll(s, d0, free0, own0, d1, inum, size)
    ensures Trimmed(s, d0, free0, own0, d1, inum, size)
  {
  }

  lemma FromTrimmed(s: Device, d0: Disk, free0: set<nat>, own0: Owners, d1: Disk, inum: nat, size: nat)
    requires size <= Size(InodeAt(d0, inum)) && Trimmed(s, d0, free0, own0, d1, inum, size)
    ensures TrimmedAll(s, d0, free0, own0, d1, inum, size)
  {
    assert Shown(true);
  }

  // The new size is stored.
  method StoreSize(s: Device, inum: nat, offset: nat, ghost d0: Disk, ghost free0: set<nat>, ghost own0: Owners,
                   ghost d1: Disk)
    requires offset <= Size(InodeAt(d0, inum)) && offset < 0x1_0000_0000_0000_0000
    requires Trimmed(s, d0, free0, own0, d1, inum, offset)
    modifies s.log, s`blocks
    ensures Fs(s) && CutEffect(d0, free0, own0, s.blocks, s.free, s.own, s.live, inum, offset)
    ensures Size(InodeAt(s.blocks, inum)) == offset
  {
    ghost var d2 := s.blocks;
    FromTrimmed(s, d0, free0, own0, d1, inum, offset);
    InRange(d2, s.free, s.own, s.live, inum, BlocksFor(offset));
    var node := FindInode(s, inum);
    var _ := WriteInode(s, inum, WithSize(node.value, offset));
    CutSized(d2, s.blocks, s.chain, s.free, s.own, s.live, inum, BlocksFor(offset), offset);
    CutEnd(d0, free0, own0, d1, d2, s.blocks, s.free, s.own, s.live, inum, offset);
  }

  // truncate_file to a smaller size, for a cut that the loop survives.
  method CutFile(s: Device, inum: nat, offset: nat, inode_size0: nat)
    requires Fs(s) && inum in s.live && inode_size0 == Size(InodeAt(s.blocks, inum)) && offset < inode_size0
    requires CleanCut(BlocksFor(inode_size0), BlocksFor(offset))
    modifies s.log, s`blocks, s`chain, s`free, s`own
    ensures Fs(s) && CutEffect(old(s.blocks), old(s.free), old(s.own), s.blocks, s.free, s.own, s.live, inum, offset)
    ensures Size(InodeAt(s.blocks, inum)) == offset
  {
    ghost var d0, free0, own0 := s.blocks, s.free, s.own;
    var num_block_total := inode_size0 / DB_SIZE;
    if inode_size0 % DB_SIZE != 0 {
      num_block_total := num_block_total + 1;
    }
    var num_block_keep := offset / DB_SIZE;
    if offset % DB_SIZE != 0 {
      num_block_keep := num_block_keep + 1;
    }
    TailPlace(inode_size0, offset);
    var inode_size := DropBlocks(s, inum, num_block_total, num_block_keep, inode_size0);
    ghost var d1 := s.blocks;
    TrimTail(s, inum, offset, inode_size, num_block_keep, d0, free0, own0);
    assert inode_size0 < 0x1_0000_0000_0000_0000;
    StoreSize(s, inum, offset, d0, free0, own0, d1);
  }
}
