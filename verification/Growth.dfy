// A fresh inode grown block by block (add_block and set_inode_size, inode.c), and given back.

module Growth {
  import opened Blocks
  import opened Store
  import opened Inodes
  import opened Ownership
  import opened BlockMap
  import opened Extend
  import opened Lifetime
  import FreeList

  // d' is d with another size in the record of inum.
  ghost predicate Resized(d: Disk, d': Disk, live: set<nat>, inum: nat, size: nat)
    requires size < 0x1_0000_0000_0000_0000
  {
    && |d'| == |d| && SameHead(d, d') && InodeAt(d', inum) == WithSize(InodeAt(d, inum), size)
    && (forall i :: i in live && i != inum ==> InodeAt(d', i) == InodeAt(d, i))
    && (forall i, r {:trigger Id(d', i, r)} :: i in live ==> Id(d', i, r) == Id(d, i, r))
    && (forall b :: b >= START_DATA_BLOCK ==> W(d', b) == W(d, b))
  }

  // Number of blocks for a size.
  function BlocksFor(size: nat): nat
  {
    size / DB_SIZE + if size % DB_SIZE != 0 then 1 else 0
  }

  // The first n block numbers are mapped.  Sealed like Linked.
  ghost predicate AllMapped(d: Disk, inum: nat, n: nat)
  {
    forall w {:trigger Opened(w)} :: Opened(w) ==>
      n <= FIRST_TRIPLE && forall k {:trigger Data(k)} :: 0 <= k < n ==> Id(d, inum, Data(k)) != 0
  }

  lemma MappedAt(d: Disk, inum: nat, n: nat, k: nat)
    requires AllMapped(d, inum, n) && k < n
    ensures Id(d, inum, Data(k)) != 0 && k < FIRST_TRIPLE
  {
    assert Opened(true);
    assert Data(k) == Data(k);
  }

  lemma MappedLess(d: Disk, inum: nat, n: nat, m: nat)
    requires AllMapped(d, inum, n) && m <= n
    ensures AllMapped(d, inum, m)
  {
    assert Opened(true);
  }

  lemma ResizedLive(d: Disk, d': Disk, live: set<nat>, inum: nat, size: nat)
    requires LiveOk(d, live) && inum in live && size < 0x1_0000_0000_0000_0000 && Resized(d, d', live, inum, size)
    requires AllMapped(d, inum, BlocksFor(size))
    requires forall i :: 0 <= i < NUM_INODE ==> (InUse(d', i) <==> InUse(d, i))
    ensures LiveOk(d', live)
  {
    forall i | i in live
      ensures i < NUM_INODE && InUse(d', i) && Mapped(d', i)
    {
      assert InodeAt(d, i) == InodeAt(d, i);
      if i == inum {
        assert Opened(true);
        assert BlocksOf(InodeAt(d', inum)) == BlocksFor(size);
        assert forall k {:trigger Data(k)} :: 0 <= k < BlocksFor(size) ==> Id(d', inum, Data(k)) != 0;
      } else {
        KeptMapped(d, d', i);
      }
    }
  }

  lemma ResizedFs(d: Disk, d': Disk, chain: seq<nat>, free: set<nat>, own: Owners, live: set<nat>, inum: nat, size: nat)
    requires FreeList.Records(d, chain, free) && FsOk(d, free, own, live) && inum in live
    requires size < 0x1_0000_0000_0000_0000
    requires Stored(d, d', inum, WithSize(InodeAt(d, inum), size)) && AllMapped(d, inum, BlocksFor(size))
    ensures FreeList.Records(d', chain, free) && FsOk(d', free, own, live) && Resized(d, d', live, inum, size)
  {
    LiveInRange(d, free, own, live);
    FreeList.RecordsFacts(d, chain, free);
    TableRange(inum);
    FreeList.RecordsFrame(d, d', chain, free);
    MarksKept(d, d', inum, WithSize(InodeAt(d, inum), size));
    StoredHead(d, d', inum, WithSize(InodeAt(d, inum), size));
    Open(d, free, own, live);
    KeptIds(d, d', own, live);
    ResizedLive(d, d', live, inum, size);
    Close(d', free, own, live);
  }

  // set_inode_size
  method SetInodeSize(s: Device, inum: nat, size: nat) returns (status: int)
    requires Fs(s) && inum in s.live && size < 0x1_0000_0000_0000_0000 && AllMapped(s.blocks, inum, BlocksFor(size))
    modifies s.log, s`blocks
    ensures Fs(s) && status == 0 && Resized(old(s.blocks), s.blocks, s.live, inum, size)
  {
    ghost var d := s.blocks;
    LiveInRange(d, s.free, s.own, s.live);
    var found := FindInode(s, inum);
    status := WriteInode(s, inum, WithSize(found.value, size));
    ResizedFs(d, s.blocks, s.chain, s.free, s.own, s.live, inum, size);
  }

  // get_inode_size
  method GetInodeSize(s: Device, inum: nat) returns (size: nat)
    requires Fs(s) && inum in s.live
    modifies s.log
    ensures size == Size(InodeAt(s.blocks, inum))
  {
    LiveInRange(s.blocks, s.free, s.own, s.live);
    var found := FindInode(s, inum);
    size := Size(found.value);
  }

  // ---------- a fresh inode ----------

  // Blocks taken by n calls of add_block on a fresh inode.
  function Cost(n: nat): nat
  {
    n + (if n > FIRST_SINGLE then 1 else 0)
      + (if n > FIRST_DOUBLE then 1 + (n - FIRST_DOUBLE + INDIR_ID_NUM - 1) / INDIR_ID_NUM else 0)
  }

  // Each call takes what it needs.
  lemma CostStep(n: nat)
    ensures Cost(n + 1) == Cost(n) + Needed(n)
  {
    if n >= FIRST_DOUBLE {
      var m := n - FIRST_DOUBLE;
      assert (m + 1 + INDIR_ID_NUM - 1) / INDIR_ID_NUM == m / INDIR_ID_NUM + 1;
      assert m % INDIR_ID_NUM == 0 ==> (m + INDIR_ID_NUM - 1) / INDIR_ID_NUM == m / INDIR_ID_NUM;
      assert m % INDIR_ID_NUM != 0 ==> (m + INDIR_ID_NUM - 1) / INDIR_ID_NUM == m / INDIR_ID_NUM + 1;
    }
  }

  lemma CostGrows(n: nat, m: nat)
    requires n <= m
    ensures Cost(n) <= Cost(m)
  {
  }

  // The n blocks of a grown inode, and no others.
  ghost predicate GrownSelf(d: Disk, inum: nat, n: nat, ids: seq<nat>)
  {
    && |ids| == n && (forall k {:trigger ids[k]} :: 0 <= k < n ==> Id(d, inum, Data(k)) == ids[k])
    && Shape(d, inum, n) && Size(InodeAt(d, inum)) == DB_SIZE * n && BlocksOf(InodeAt(d, inum)) == n
  }

  // Every other inode and its data are as they were, and so are the attributes of inum itself, the bitmap and what the
  // superblock says beside the free list.  Sealed like Linked.
  ghost predicate OthersKept(d0: Disk, own0: Owners, d: Disk, live: set<nat>, inum: nat)
  {
    forall w {:trigger Opened(w)} :: Opened(w) ==> OthersSame(d0, own0, d, live, inum)
  }

  ghost predicate OthersSame(d0: Disk, own0: Owners, d: Disk, live: set<nat>, inum: nat)
  {
    && SameHead(d0, d) && SameAttributes(InodeAt(d0, inum), InodeAt(d, inum))
    && (forall i :: i in live && i != inum ==> InodeAt(d, i) == InodeAt(d0, i))
    && (forall i, r {:trigger Id(d, i, r)} :: i in live && i != inum ==> Id(d, i, r) == Id(d0, i, r))
    && (forall id {:trigger own0[id]} :: id in own0 && own0[id].inum != inum && own0[id].ref.Data? ==>
         W(d, id) == W(d0, id))
  }

  lemma GrowSelf(d: Disk, d1: Disk, d2: Disk, live: set<nat>, inum: nat, n: nat, next: nat, ids: seq<nat>, x: nat)
    requires inum in live && n < FIRST_TRIPLE && next == n + 1 && GrownSelf(d, inum, n, ids)
    requires AddedIds(d, d1, live, inum, n, x) && Resized(d1, d2, live, inum, DB_SIZE * (n + 1))
    ensures GrownSelf(d2, inum, next, ids + [x])
  {
    var ids' := ids + [x];
    forall k | 0 <= k < n + 1
      ensures Id(d2, inum, Data(k)) == ids'[k]
    {
      assert Id(d2, inum, Data(k)) == Id(d1, inum, Data(k));
      if k < n { assert ids'[k] == ids[k]; }
    }
    assert Shape(d1, inum, n + 1);
    forall r
      ensures Id(d2, inum, r) != 0 <==> Within(r, n + 1)
    {
      assert Id(d2, inum, r) == Id(d1, inum, r);
    }
  }

  lemma OthersResized(d0: Disk, own0: Owners, d1: Disk, d2: Disk, live: set<nat>, inum: nat, size: nat)
    requires OwnOk(d0, own0, live) && OthersKept(d0, own0, d1, live, inum)
    requires size < 0x1_0000_0000_0000_0000 && Resized(d1, d2, live, inum, size)
    ensures OthersKept(d0, own0, d2, live, inum)
  {
    assert Opened(true);
    HeadThen(d0, d1, d2);
    forall i, r | i in live && i != inum
      ensures Id(d2, i, r) == Id(d0, i, r)
    {
      assert Id(d1, i, r) == Id(d0, i, r);
    }
  }

  // Two changes in turn.
  lemma OthersInTurn(d0: Disk, own0: Owners, d: Disk, own: Owners, d2: Disk, live: set<nat>, inum: nat)
    requires OwnOk(d0, own0, live) && OwnOk(d, own, live)
    requires OthersKept(d0, own0, d, live, inum) && OthersKept(d, own, d2, live, inum)
    ensures OthersKept(d0, own0, d2, live, inum)
  {
    assert Opened(true);
    HeadThen(d0, d, d2);
    forall i, r | i in live && i != inum
      ensures Id(d2, i, r) == Id(d0, i, r)
    {
      assert Id(d, i, r) == Id(d0, i, r);
    }
    forall id | id in own0 && own0[id].inum != inum && own0[id].ref.Data?
      ensures W(d2, id) == W(d0, id)
    {
      OwnedStays(d0, own0, d, own, live, inum, id);
    }
  }

  lemma OthersThen(d0: Disk, free0: set<nat>, own0: Owners, d: Disk, free: set<nat>, own: Owners,
                   d2: Disk, live: set<nat>, inum: nat)
    requires FsOk(d0, free0, own0, live) && FsOk(d, free, own, live)
    requires OthersKept(d0, own0, d, live, inum) && OthersKept(d, own, d2, live, inum)
    ensures OthersKept(d0, own0, d2, live, inum)
  {
    Open(d0, free0, own0, live);
    Open(d, free, own, live);
    OthersInTurn(d0, own0, d, own, d2, live, inum);
  }

  // A block of another inode stays that inode's.
  lemma OwnedStays(d0: Disk, own0: Owners, d: Disk, own: Owners, live: set<nat>, inum: nat, id: nat)
    requires OwnOk(d0, own0, live) && OwnOk(d, own, live)
    requires forall i, r {:trigger Id(d, i, r)} :: i in live && i != inum ==> Id(d, i, r) == Id(d0, i, r)
    requires id in own0 && own0[id].inum != inum
    ensures id in own && own[id] == own0[id] && InData(d0, id)
  {
    assert Id(d, own0[id].inum, own0[id].ref) == id && !InData(d0, 0);
  }

  lemma SelfOnce(d: Disk, free: set<nat>, own: Owners, d1: Disk, free1: set<nat>, own1: Owners, d2: Disk,
                 live: set<nat>, inum: nat, n: nat, x: nat)
    requires FsOk(d, free, own, live) && inum in live && n == BlocksOf(InodeAt(d, inum)) && n < FIRST_TRIPLE
    requires Added(d, free, own, d1, free1, own1, live, inum, x) && Resized(d1, d2, live, inum, DB_SIZE * (n + 1))
    ensures SelfKept(d, own, d2, inum, n)
  {
    forall r | Within(r, n)
      ensures Id(d2, inum, r) == Id(d, inum, r)
    {
      assert Id(d2, inum, r) == Id(d1, inum, r);
    }
    assert forall id :: id in own ==> InData(d, id) by { OwnedData(d, free, own, live); }
  }

  lemma SizedBlocks(n: nat, next: nat)
    requires next == n + 1
    ensures BlocksFor(DB_SIZE * (n + 1)) == next
  {
  }

  // add_block, then size += blocksize.
  method GrowOnce(s: Device, inum: nat, n: nat, ghost next: nat, ghost ids: seq<nat>) returns (x: nat)
    requires Fs(s) && inum in s.live && n < FIRST_TRIPLE && next == n + 1 && GrownSelf(s.blocks, inum, n, ids)
    requires |s.free| >= Needed(n)
    modifies s.log, s`blocks, s`chain, s`free, s`own
    ensures Fs(s) && GrownSelf(s.blocks, inum, next, ids + [x])
    ensures OthersKept(old(s.blocks), old(s.own), s.blocks, s.live, inum)
    ensures s.free <= old(s.free) && |s.free| == |old(s.free)| - Needed(n)
    ensures s.own.Keys + s.free == old(s.own.Keys + s.free)
    ensures SelfKept(old(s.blocks), old(s.own), s.blocks, inum, n)
  {
    ghost var d, free, own := s.blocks, s.free, s.own;
    var r := AddBlock(s, inum);
    x := r.value;
    ghost var d1 := s.blocks;
    assert AllMapped(d1, inum, next) by { assert Shape(d1, inum, n + 1); }
    SizedBlocks(n, next);
    var _ := SetInodeSize(s, inum, DB_SIZE * (n + 1));
    GrowSelf(d, d1, s.blocks, s.live, inum, n, next, ids, x);
    SelfOnce(d, free, own, d1, s.free, s.own, s.blocks, s.live, inum, n, x);
    OpenOwn(d, free, own, s.live);
    OthersResized(d, own, d1, s.blocks, s.live, inum, DB_SIZE * (n + 1));
  }

  // What the first m block numbers need, and their data, is as it was.  Sealed like Linked.
  ghost predicate SelfKept(d0: Disk, own0: Owners, d: Disk, inum: nat, m: nat)
  {
    forall w {:trigger Opened(w)} :: Opened(w) ==>
      && (forall r {:trigger Id(d, inum, r)} :: Within(r, m) ==> Id(d, inum, r) == Id(d0, inum, r))
      && (forall id {:trigger own0[id]} ::
           id in own0 && own0[id].inum == inum && own0[id].ref.Data? && own0[id].ref.num < m ==>
            W(d, id) == W(d0, id))
  }

  lemma SelfThen(d0: Disk, free0: set<nat>, own0: Owners, d: Disk, free: set<nat>, own: Owners,
                 d2: Disk, live: set<nat>, inum: nat, m: nat, n: nat)
    requires FsOk(d0, free0, own0, live) && FsOk(d, free, own, live) && inum in live && m <= n
    requires SelfKept(d0, own0, d, inum, m) && SelfKept(d, own, d2, inum, n)
    ensures SelfKept(d0, own0, d2, inum, m)
  {
    assert Opened(true);
    OpenOwn(d0, free0, own0, live);
    OpenOwn(d, free, own, live);
    forall r | Within(r, m)
      ensures Id(d2, inum, r) == Id(d0, inum, r)
    {
      assert Within(r, n) && Id(d, inum, r) == Id(d0, inum, r);
    }
    forall id | id in own0 && own0[id].inum == inum && own0[id].ref.Data? && own0[id].ref.num < m
      ensures W(d2, id) == W(d0, id)
    {
      assert Within(own0[id].ref, m) && Id(d, inum, own0[id].ref) == id && !InData(d0, 0);
    }
  }

  // The device while an inode grows from m blocks at (d0, free0, own0) to i.  Sealed by Shown.
  ghost predicate Growing(s: Device, d0: Disk, free0: set<nat>, own0: Owners, inum: nat, m: nat, i: nat, ids: seq<nat>)
    reads s
  {
    forall w {:trigger Shown(w)} :: Shown(w) ==>
      && Fs(s) && FsOk(d0, free0, own0, s.live) && inum in s.live && GrownSelf(s.blocks, inum, i, ids)
      && OthersKept(d0, own0, s.blocks, s.live, inum) && SelfKept(d0, own0, s.blocks, inum, m)
      && s.free <= free0 && |s.free| == |free0| - (Cost(i) - Cost(m)) && s.own.Keys + s.free == own0.Keys + free0
  }

  lemma ToGrowing(s: Device, d0: Disk, free0: set<nat>, own0: Owners, inum: nat, m: nat, i: nat, ids: seq<nat>)
    requires Fs(s) && FsOk(d0, free0, own0, s.live) && inum in s.live && GrownSelf(s.blocks, inum, i, ids)
    requires OthersKept(d0, own0, s.blocks, s.live, inum) && SelfKept(d0, own0, s.blocks, inum, m)
    requires s.free <= free0 && |s.free| == |free0| - (Cost(i) - Cost(m)) && s.own.Keys + s.free == own0.Keys + free0
    ensures Growing(s, d0, free0, own0, inum, m, i, ids)
  {
  }

  lemma FromGrowing(s: Device, d0: Disk, free0: set<nat>, own0: Owners, inum: nat, m: nat, i: nat, ids: seq<nat>)
    requires Growing(s, d0, free0, own0, inum, m, i, ids)
    ensures Fs(s) && FsOk(d0, free0, own0, s.live) && inum in s.live && GrownSelf(s.blocks, inum, i, ids)
    ensures OthersKept(d0, own0, s.blocks, s.live, inum) && SelfKept(d0, own0, s.blocks, inum, m)
    ensures s.free <= free0 && |s.free| == |free0| - (Cost(i) - Cost(m)) && s.own.Keys + s.free == own0.Keys + free0
  {
    assert Shown(true);
  }

  method GrowNext(s: Device, inum: nat, ghost d0: Disk, ghost free0: set<nat>, ghost own0: Owners, ghost m: nat, i: nat,
                  ghost next: nat, ghost ids: seq<nat>) returns (x: nat, ghost ids': seq<nat>)
    requires Growing(s, d0, free0, own0, inum, m, i, ids) && m <= i < FIRST_TRIPLE && next == i + 1
    requires |free0| >= Cost(next) - Cost(m)
    modifies s.log, s`blocks, s`chain, s`free, s`own
    ensures ids' == ids + [x] && Growing(s, d0, free0, own0, inum, m, next, ids')
  {
    FromGrowing(s, d0, free0, own0, inum, m, i, ids);
    CostStep(i);
    ghost var d, free, own := s.blocks, s.free, s.own;
    x := GrowOnce(s, inum, i, next, ids);
    ids' := ids + [x];
    OthersThen(d0, free0, own0, d, free, own, s.blocks, s.live, inum);
    SelfThen(d0, free0, own0, d, free, own, s.blocks, s.live, inum, m, i);
    ToGrowing(s, d0, free0, own0, inum, m, next, ids');
  }

  lemma GrowStart(s: Device, inum: nat, m: nat, ids: seq<nat>)
    requires Fs(s) && inum in s.live && GrownSelf(s.blocks, inum, m, ids)
    ensures Growing(s, s.blocks, s.free, s.own, inum, m, m, ids)
  {
    ToGrowing(s, s.blocks, s.free, s.own, inum, m, m, ids);
  }

  // add_block, each time followed by set_inode_size, until an inode of m blocks has n: exactly Cost(n) - Cost(m) blocks
  // are taken, the block that each call returns is the next number, and neither the earlier numbers nor other inodes
  // notice.
  method Grow(s: Device, inum: nat, m: nat, n: nat, ghost ids0: seq<nat>) returns (ids: seq<nat>, ghost all: seq<nat>)
    requires Fs(s) && inum in s.live && GrownSelf(s.blocks, inum, m, ids0) && m <= n <= FIRST_TRIPLE
    requires |s.free| >= Cost(n) - Cost(m)
    modifies s.log, s`blocks, s`chain, s`free, s`own
    ensures all == ids0 + ids && Growing(s, old(s.blocks), old(s.free), old(s.own), inum, m, n, all)
  {
    ghost var d0, free0, own0 := s.blocks, s.free, s.own;
    ids := [];
    assert ids0 + ids == ids0;
    GrowStart(s, inum, m, ids0);
    all := ids0;
    var i := m;
    while i < n
      invariant m <= i <= n && all == ids0 + ids && Growing(s, d0, free0, own0, inum, m, i, all)
    {
      var next := i + 1;
      CostGrows(next, n);
      var x;
      x, all := GrowNext(s, inum, d0, free0, own0, m, i, next, all);
      ids := ids + [x];
      i := next;
    }
  }

  // find_block_by_num on a grown inode: number k finds the k-th id.
  method FindGrown(s: Device, inum: nat, n: nat, k: nat, ghost ids: seq<nat>) returns (r: Option<nat>)
    requires Fs(s) && inum in s.live && GrownSelf(s.blocks, inum, n, ids) && k < n <= FIRST_TRIPLE
    modifies s.log
    ensures r == Some(ids[k])
  {
    Open(s.blocks, s.free, s.own, s.live);
    assert Id(s.blocks, inum, Data(k)) != 0 by { assert Within(Data(k), n); }
    MappedReachable(s.blocks, s.own, s.live, inum, k);
    r := FindBlock(s, inum, k);
    assert r.value == Id(s.blocks, inum, Data(k)) == ids[k];
  }

  method FindAll(s: Device, inum: nat, n: nat, ghost ids: seq<nat>) returns (found: seq<nat>)
    requires Fs(s) && inum in s.live && GrownSelf(s.blocks, inum, n, ids) && n <= FIRST_TRIPLE
    modifies s.log
    ensures found == ids
  {
    found := [];
    assert |ids| == n;
    for k := 0 to n
      invariant found == ids[..k]
    {
      var r := FindGrown(s, inum, n, k, ids);
      found := found + [r.value];
    }
  }

  // After Grow, looking the numbers up in order gives back exactly the ids that the calls of add_block returned.
  method GrowAndFind(s: Device, inum: nat, n: nat) returns (ids: seq<nat>, found: seq<nat>)
    requires Fs(s) && inum in s.live && Blank(InodeAt(s.blocks, inum)) && n <= FIRST_TRIPLE && |s.free| >= Cost(n)
    modifies s.log, s`blocks, s`chain, s`free, s`own
    ensures Fs(s) && |ids| == n && found == ids
  {
    ghost var d0, free0, own0 := s.blocks, s.free, s.own;
    BlankIds(s.blocks, inum);
    assert Cost(0) == 0;
    ghost var all;
    ids, all := Grow(s, inum, 0, n, []);
    FromGrowing(s, d0, free0, own0, inum, 0, n, all);
    found := FindAll(s, inum, n, all);
    assert all == ids;
  }

  // inode_free after Grow: the free set, and with it NUM_FREE_BLOCK, is what it was before.
  method GrowAndFree(s: Device, inum: nat, n: nat)
    requires Fs(s) && inum in s.live && Blank(InodeAt(s.blocks, inum)) && n <= FIRST_TRIPLE && |s.free| >= Cost(n)
    requires inum < HALF
    modifies s.log, s`blocks, s`chain, s`free, s`own, s`live
    ensures Fs(s) && s.free == old(s.free) && NumFree(s.blocks) == NumFree(old(s.blocks))
  {
    ghost var d0, free0, own0 := s.blocks, s.free, s.own;
    FreeList.RecordsCount(s.blocks, s.chain, s.free);
    BlankIds(s.blocks, inum);
    assert Cost(0) == 0;
    var ids, all := Grow(s, inum, 0, n, []);
    FreeGrown(s, inum, n, all, d0, free0, own0);
    FreeList.RecordsCount(s.blocks, s.chain, s.free);
  }

  // Its second half.
  method FreeGrown(s: Device, inum: nat, n: nat, ghost ids: seq<nat>,
                   ghost d0: Disk, ghost free0: set<nat>, ghost own0: Owners)
    requires Growing(s, d0, free0, own0, inum, 0, n, ids) && inum < HALF && Shape(d0, inum, 0)
    modifies s.log, s`blocks, s`chain, s`free, s`own, s`live
    ensures Fs(s) && s.free == free0
  {
    FromGrowing(s, d0, free0, own0, inum, 0, n, ids);
    LiveInRange(s.blocks, s.free, s.own, s.live);
    ghost var d, free, own, live := s.blocks, s.free, s.own, s.live;
    var _ := InodeFree(s, inum);
    AllBack(d0, free0, own0, d, free, own, s.free, live, inum, n);
  }

  // The blocks of the other inodes, and those of the grown one, told apart.
  lemma OthersOwn(d0: Disk, free0: set<nat>, own0: Owners, d: Disk, free: set<nat>, own: Owners,
                  live: set<nat>, inum: nat, n: nat)
    requires FsOk(d0, free0, own0, live) && FsOk(d, free, own, live) && inum in live
    requires Shape(d0, inum, 0) && Shape(d, inum, n)
    requires forall i, r {:trigger Id(d, i, r)} :: i in live && i != inum ==> Id(d, i, r) == Id(d0, i, r)
    ensures forall id {:trigger own[id]} {:trigger id in own0} :: id in own0 <==> id in own && own[id].inum != inum
    ensures forall id {:trigger own[id]} :: id in own && own[id].inum == inum ==> Within(own[id].ref, n)
  {
    Open(d0, free0, own0, live);
    Open(d, free, own, live);
    forall id
      ensures id in own0 <==> id in own && own[id].inum != inum
      ensures id in own && own[id].inum == inum ==> Within(own[id].ref, n)
    {
      OthersOwnOne(d0, own0, d, own, live, inum, n, id);
    }
  }

  lemma OthersOwnOne(d0: Disk, own0: Owners, d: Disk, own: Owners, live: set<nat>, inum: nat, n: nat, id: nat)
    requires OwnOk(d0, own0, live) && OwnOk(d, own, live) && inum in live
    requires Shape(d0, inum, 0) && Shape(d, inum, n)
    requires forall i, r {:trigger Id(d, i, r)} :: i in live && i != inum ==> Id(d, i, r) == Id(d0, i, r)
    ensures id in own0 <==> id in own && own[id].inum != inum
    ensures id in own && own[id].inum == inum ==> Within(own[id].ref, n)
  {
    assert !InData(d, 0) && !InData(d0, 0);
    if id in own0 {
      var o := own0[id];
      assert Id(d0, o.inum, o.ref) == id;
      assert o.inum != inum;
      assert Id(d, o.inum, o.ref) == id;
    }
    if id in own {
      var o := own[id];
      assert Id(d, o.inum, o.ref) == id;
    }
  }

  lemma AllBack(d0: Disk, free0: set<nat>, own0: Owners, d: Disk, free: set<nat>, own: Owners, free': set<nat>,
                live: set<nat>, inum: nat, n: nat)
    requires FsOk(d0, free0, own0, live) && FsOk(d, free, own, live) && inum in live
    requires Shape(d0, inum, 0) && Shape(d, inum, n)
    requires OthersKept(d0, own0, d, live, inum)
    requires own.Keys + free == own0.Keys + free0 && GaveFile(own, inum, n, free, free')
    ensures free' == free0
  {
    assert Opened(true);
    OthersOwn(d0, free0, own0, d, free, own, live, inum, n);
    forall id
      ensures id in free' <==> id in free0
    {
      assert id in own.Keys + free <==> id in own0.Keys + free0;
    }
  }
}
