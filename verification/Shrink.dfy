// Shrinking an inode block by block (inode.c): free_block_by_num and the loop of truncate_file around it.

module Shrink {
  import opened Blocks
  import opened Store
  import opened Inodes
  import opened Ownership
  import opened BlockMap
  import FreeList

  // The invariant while truncate_file shrinks inum: as FsOk, but for inum only the numbers below n need be mapped.
  // Sealed like Records.
  ghost predicate Partial(d: Disk, free: set<nat>, own: Owners, live: set<nat>, inum: nat, n: nat)
  {
    && Sized(d) && own.Keys !! free && inum in live && inum < NUM_INODE && n <= FIRST_TRIPLE
    && (forall w {:trigger FreeList.Unsealed(w)} :: FreeList.Unsealed(w) ==>
          OwnOk(d, own, live) && LiveOk(d, live - {inum}) && Head(d, inum, n))
  }

  ghost predicate Head(d: Disk, inum: nat, n: nat)
  {
    InUse(d, inum) && InodeAt(d, inum)[TRIPLE] == 0 &&
    forall k {:trigger Data(k)} :: 0 <= k < n ==> Id(d, inum, Data(k)) != 0
  }

  lemma OpenPartial(d: Disk, free: set<nat>, own: Owners, live: set<nat>, inum: nat, n: nat)
    requires Partial(d, free, own, live, inum, n)
    ensures OwnOk(d, own, live) && LiveOk(d, live - {inum}) && Head(d, inum, n)
  {
    assert FreeList.Unsealed(true);
  }

  lemma ToPartial(d: Disk, free: set<nat>, own: Owners, live: set<nat>, inum: nat)
    requires FsOk(d, free, own, live) && inum in live
    ensures Partial(d, free, own, live, inum, BlocksOf(InodeAt(d, inum)))
  {
    Open(d, free, own, live);
    assert Mapped(d, inum);
  }

  // The reference that free_block_by_num zeroes last, which gives up everything under it.
  function Cleared(num: nat): (q: Ref)
    requires num < FIRST_TRIPLE
    ensures RefOk(q)
  {
    if num < FIRST_SINGLE then Data(num)
    else if num < FIRST_DOUBLE then (if num == FIRST_SINGLE then Single else Data(num))
    else if Outer(num) == 0 then Double
    else if Inner(num) == 0 then Ind(Outer(num))
    else Data(num)
  }

  // It gives up smaller block numbers exactly when num is one of the 1023 after the first of the double indirect
  // region: there the double indirect block goes although its first row is still in use.
  lemma ClearedSafe(num: nat)
    requires num < FIRST_TRIPLE
    ensures (forall k :: 0 <= k < num ==> !Under(Data(k), Cleared(num))) <==>
      !(FIRST_DOUBLE < num < FIRST_DOUBLE + INDIR_ID_NUM)
    ensures Cleared(num) == Data(num) || Under(Data(num), Cleared(num))
  {
    if FIRST_DOUBLE < num < FIRST_DOUBLE + INDIR_ID_NUM {
      assert Under(Data(FIRST_DOUBLE), Cleared(num));
    } else if FIRST_DOUBLE <= num && Outer(num) > 0 && Inner(num) == 0 {
      forall k | 0 <= k < num
        ensures !Under(Data(k), Cleared(num))
      {
        if FIRST_DOUBLE <= k { assert k - FIRST_DOUBLE == INDIR_ID_NUM * Outer(k) + Inner(k); }
      }
    }
  }

  // Setting a reference of inum to zero.
  lemma ClearPartial(d: Disk, d': Disk, free: set<nat>, free': set<nat>, own: Owners, live: set<nat>, inum: nat,
                     n: nat, q: Ref, m: nat)
    requires Partial(d, free, own, live, inum, n) && RefSet(d, d', own, live, inum, q, 0) && m <= n
    requires |d'| == |d| && NumBlock(d') == NumBlock(d) && forall b :: START_BITMAP <= b < START_ILIST ==> d'[b] == d[b]
    requires forall k :: 0 <= k < m ==> !Under(Data(k), q) && q != Data(k)
    requires OwnSet(own, inum, q, 0).Keys !! free'
    ensures Partial(d', free', OwnSet(own, inum, q, 0), live, inum, m)
    ensures IdsAfter(d, d', live, inum, q, 0) && SameMeta(InodeAt(d, inum), InodeAt(d', inum))
    ensures forall i :: i in live && i != inum ==> InodeAt(d', i) == InodeAt(d, i)
  {
    OpenPartial(d, free, own, live, inum, n);
    assert 0 !in own by { assert !InData(d, 0); }
    RefSetAllIds(d, d', own, live, inum, q, 0);
    RefSetOwn(d, d', own, live, inum, q, 0);
    RefSetMeta(d, d', own, live, inum, q, 0);
    LiveAfter(d, d', live - {inum}, inum, q, 0);
    HeadAfter(d, d', live, inum, n, q, m);
  }

  lemma HeadAfter(d: Disk, d': Disk, live: set<nat>, inum: nat, n: nat, q: Ref, m: nat)
    requires inum in live && inum < NUM_INODE && Head(d, inum, n) && m <= n && START_ILIST <= |d| == |d'|
    requires forall b :: START_BITMAP <= b < START_ILIST ==> d'[b] == d[b]
    requires IdsAfter(d, d', live, inum, q, 0) && SameMeta(InodeAt(d, inum), InodeAt(d', inum))
    requires forall k :: 0 <= k < m ==> !Under(Data(k), q) && q != Data(k)
    ensures Head(d', inum, m)
  {
    TableRange(inum);
    forall k | 0 <= k < m
      ensures Id(d', inum, Data(k)) != 0
    {
      assert Id(d, inum, Data(k)) != 0;
    }
  }

  // ---------- free_block_by_num ----------

  // The index blocks that free_block_by_num releases.
  function Emptied(d: Disk, inum: nat, num: nat): set<nat>
    requires num < FIRST_TRIPLE
  {
    (if num == FIRST_SINGLE then {Id(d, inum, Single)} else {})
    + (if FIRST_DOUBLE <= num && Inner(num) == 0 then {Id(d, inum, Ind(Outer(num)))} else {})
    + (if FIRST_DOUBLE <= num && Outer(num) == 0 then {Id(d, inum, Double)} else {})
  }

  // s is d0 after db_free of the block of number num.
  ghost predicate Dropped(d0: Disk, free0: set<nat>, own: Owners, live: set<nat>, inum: nat, num: nat,
                          d: Disk, free: set<nat>)
  {
    && Partial(d0, free0, own, live, inum, num + 1)
    && var b := Id(d0, inum, Data(num));
      free == free0 + {b} && Untouched(d0, d, own - {b})
  }

  // The effect of free_block_by_num.
  ghost predicate Freed(d0: Disk, free0: set<nat>, own: Owners, live: set<nat>, inum: nat, num: nat,
                        d: Disk, free: set<nat>)
    requires num < FIRST_TRIPLE
  {
    && RefSet(d0, d, own, live, inum, Cleared(num), 0)
    && |d| == |d0| && NumBlock(d) == NumBlock(d0) && SameHead(d0, d)
    && (forall b :: START_BITMAP <= b < START_ILIST && b < |d| ==> d[b] == d0[b])
    && free == free0 + {Id(d0, inum, Data(num))} + Emptied(d0, inum, num)
    && (forall id :: id in own && id !in free && own[id].ref.Data? ==> W(d, id) == W(d0, id))
  }

  // Untouched composes with releases and with writes to index blocks.
  lemma ReleaseStep(d0: Disk, d: Disk, d': Disk, own: Owners, gone: set<nat>, free: set<nat>)
    requires Sized(d0) && Untouched(d0, d, own - gone) && FreeList.OnlyFree(d, d', free)
    requires forall c :: c in free ==> InData(d', c)
    requires forall id :: id in own ==> InData(d0, id) && (id in free ==> id in gone)
    ensures Untouched(d0, d', own - gone)
  {
  }

  lemma WriteStep(d0: Disk, d: Disk, d': Disk, own: Owners, gone: set<nat>, b: nat, ws: WordBlock)
    requires Sized(d0) && Untouched(d0, d, own - gone) && InData(d0, b) && d' == d[b := ws] && b in gone
    ensures Untouched(d0, d', own - gone)
  {
  }

  // The record of inum written last, everything else given up: one reference set to zero.
  lemma RecordCleared(d0: Disk, d: Disk, d': Disk, own: Owners, live: set<nat>, inum: nat,
                      q: Ref, gone: set<nat>)
    requires Sized(d0) && Untouched(d0, d, own - gone) && forall i :: i in live ==> i < NUM_INODE
    requires inum in live && (forall id :: id in own ==> InData(d0, id))
    requires forall id :: id in gone && id in own ==> Lost(own[id], inum, q)
    requires q.Single? || q.Double? || (q.Data? && q.num < FIRST_SINGLE)
    requires Stored(d, d', inum, InodeAt(d0, inum)[CellIndex(q) := 0])
    ensures RefSet(d0, d', own, live, inum, q, 0)
    ensures forall id :: id in own && id !in gone ==> W(d', id) == W(d0, id)
    ensures SameHead(d0, d') && forall b :: START_BITMAP <= b < START_ILIST && b < |d0| ==> d'[b] == d0[b]
  {
    UntouchedHead(d0, d, own - gone);
    StoredHead(d, d', inum, InodeAt(d0, inum)[CellIndex(q) := 0]);
    HeadThen(d0, d, d');
    TableRange(inum);
    forall i | i in live && i != inum
      ensures InodeAt(d', i) == InodeAt(d0, i)
    {
      TableRange(i);
      assert InodeAt(d', i) == InodeAt(d, i);
      RecordFrame(d0, d, i);
    }
  }

  // An index block written last, everything else given up.
  lemma EntryCleared(d0: Disk, d: Disk, own: Owners, live: set<nat>, inum: nat, q: Ref, gone: set<nat>)
    requires Sized(d0) && Untouched(d0, d, own - gone) && forall i :: i in live ==> i < NUM_INODE
    requires inum in live && RefOk(q)
    requires var b := CellBlock(d0, InodeAt(d0, inum), q); b != 0 && W(d, b) == W(d0, b)[CellIndex(q) := 0] && b in gone
    requires forall id :: id in gone && id in own ==>
      Lost(own[id], inum, q) || id == CellBlock(d0, InodeAt(d0, inum), q)
    ensures RefSet(d0, d, own, live, inum, q, 0) && SameHead(d0, d)
  {
    UntouchedHead(d0, d, own - gone);
    forall i | i in live
      ensures InodeAt(d, i) == InodeAt(d0, i)
    {
      TableRange(i);
      RecordFrame(d0, d, i);
    }
  }

  method FreeDirect(s: Device, inum: nat, node: Inode, num: nat, ghost d0: Disk, ghost free0: set<nat>)
    requires FreeList.Records(s.blocks, s.chain, s.free) && num < FIRST_SINGLE
    requires Dropped(d0, free0, s.own, s.live, inum, num, s.blocks, s.free) && node == InodeAt(d0, inum)
    modifies s.log, s`blocks, s`chain, s`free
    ensures FreeList.Records(s.blocks, s.chain, s.free)
    ensures Freed(d0, free0, s.own, s.live, inum, num, s.blocks, s.free)
  {
    ghost var d, b := s.blocks, Id(d0, inum, Data(num));
    var _ := WriteInode(s, inum, node[DIRECT + num := 0]);
    Owned(d0, free0, s.own, s.live, inum, num);
    InRange(d0, free0, s.own, s.live, inum, num + 1);
    RecordCleared(d0, d, s.blocks, s.own, s.live, inum, Data(num), {b});
    KeepRecords(d, s.blocks, s.chain, s.free, inum);
  }

  lemma InRange(d: Disk, free: set<nat>, own: Owners, live: set<nat>, inum: nat, n: nat)
    requires Partial(d, free, own, live, inum, n)
    ensures InUse(d, inum) && (forall id :: id in own ==> InData(d, id)) && forall i :: i in live ==> i < NUM_INODE
  {
    OpenPartial(d, free, own, live, inum, n);
    forall i | i in live
      ensures i < NUM_INODE
    {
      assert i == inum || i in live - {inum};
    }
  }

  // What a mapped number owns.
  lemma Owned(d: Disk, free: set<nat>, own: Owners, live: set<nat>, inum: nat, num: nat)
    requires Partial(d, free, own, live, inum, num + 1)
    ensures Reachable(d, inum, num)
    ensures var id := Id(d, inum, Data(num)); id in own && own[id] == Owner(inum, Data(num))
    ensures FIRST_SINGLE <= num < FIRST_DOUBLE ==>
      var id := Id(d, inum, Single); id == InodeAt(d, inum)[SINGLE] && id in own && own[id] == Owner(inum, Single)
    ensures FIRST_DOUBLE <= num ==>
      var id := Id(d, inum, Double); id == InodeAt(d, inum)[DOUBLE] && id in own && own[id] == Owner(inum, Double)
    ensures FIRST_DOUBLE <= num ==>
      var id := Id(d, inum, Ind(Outer(num)));
      id == CellBlock(d, InodeAt(d, inum), Data(num)) && id in own && own[id] == Owner(inum, Ind(Outer(num)))
  {
    OpenPartial(d, free, own, live, inum, num + 1);
    MappedReachable(d, own, live, inum, num);
  }

  lemma KeepRecords(d: Disk, d': Disk, chain: seq<nat>, free: set<nat>, inum: nat)
    requires FreeList.Records(d, chain, free) && inum < NUM_INODE && |d'| == |d|
    requires forall b :: 0 <= b < |d| && b != TableBlock(inum) ==> d'[b] == d[b]
    ensures FreeList.Records(d', chain, free)
  {
    TableRange(inum);
    FreeList.RecordsFacts(d, chain, free);
    FreeList.RecordsFrame(d, d', chain, free);
  }

  // An owned index block that is written is not in the free list.
  lemma WriteRecords(d: Disk, d': Disk, chain: seq<nat>, free: set<nat>, b: nat, ws: WordBlock)
    requires FreeList.Records(d, chain, free) && 0 < b < |d| && b !in free && d' == d[b := ws]
    ensures FreeList.Records(d', chain, free)
  {
    FreeList.RecordsFacts(d, chain, free);
    FreeList.RecordsFrame(d, d', chain, free);
  }

  // Writing an owned index block b that has not been released.
  method WriteOwned(s: Device, ws: WordBlock, b: nat, ghost d0: Disk, ghost gone: set<nat>)
    requires FreeList.Records(s.blocks, s.chain, s.free) && Sized(d0) && InData(d0, b)
    requires Untouched(d0, s.blocks, s.own - gone) && b !in s.free && b in gone && Sized(s.blocks)
    modifies s.log, s`blocks
    ensures FreeList.Records(s.blocks, s.chain, s.free) && Sized(s.blocks)
    ensures s.blocks == old(s.blocks)[b := ws]
    ensures Untouched(d0, s.blocks, s.own - gone)
  {
    ghost var d := s.blocks;
    var _ := DbWrite(s, ws, b);
    WriteStep(d0, d, s.blocks, s.own, gone, b, ws);
    WriteRecords(d, s.blocks, s.chain, s.free, b, ws);
  }

  // Releasing an owned block b that is given up.
  method ReleaseOwned(s: Device, b: nat, ghost d0: Disk, ghost gone: set<nat>)
    requires FreeList.Records(s.blocks, s.chain, s.free) && Sized(d0) && InData(d0, b)
    requires Untouched(d0, s.blocks, s.own - gone) && b !in s.free && b in gone && Sized(s.blocks)
    requires forall id :: id in s.own ==> InData(d0, id) && (id in s.free ==> id in gone)
    modifies s.log, s`blocks, s`chain, s`free
    ensures FreeList.Records(s.blocks, s.chain, s.free) && Sized(s.blocks)
    ensures s.free == old(s.free) + {b}
    ensures Untouched(d0, s.blocks, s.own - gone) && forall id :: id in s.own && id !in s.free ==>
      W(s.blocks, id) == W(old(s.blocks), id)
  {
    ghost var d := s.blocks;
    FreeList.Release(s, b);
    FreeList.RecordsFacts(s.blocks, s.chain, s.free);
    ReleaseStep(d0, d, s.blocks, s.own, gone, s.free);
  }

  // Its first entry zeroed, the single indirect block is released and unlinked.
  method ReleaseSingle(s: Device, inum: nat, node: Inode, ghost d0: Disk, ghost free0: set<nat>)
    requires FreeList.Records(s.blocks, s.chain, s.free) && Sized(s.blocks) && node == InodeAt(d0, inum)
    requires Partial(d0, free0, s.own, s.live, inum, FIRST_SINGLE + 1)
    requires s.free == free0 + {Id(d0, inum, Data(FIRST_SINGLE))}
    requires Untouched(d0, s.blocks, s.own - {Id(d0, inum, Data(FIRST_SINGLE)), node[SINGLE]})
    modifies s.log, s`blocks, s`chain, s`free
    ensures FreeList.Records(s.blocks, s.chain, s.free)
    ensures Freed(d0, free0, s.own, s.live, inum, FIRST_SINGLE, s.blocks, s.free)
  {
    SingleHeld(d0, free0, s.own, s.live, inum, s.free);
    ReleaseOwned(s, node[SINGLE], d0, {Id(d0, inum, Data(FIRST_SINGLE)), node[SINGLE]});
    ghost var d := s.blocks;
    var _ := WriteInode(s, inum, node[SINGLE := 0]);
    KeepRecords(d, s.blocks, s.chain, s.free, inum);
    SingleFreed(d0, free0, s.own, s.live, inum, d, s.blocks, s.free);
  }

  lemma SingleHeld(d0: Disk, free0: set<nat>, own: Owners, live: set<nat>, inum: nat, free: set<nat>)
    requires Partial(d0, free0, own, live, inum, FIRST_SINGLE + 1)
    requires free == free0 + {Id(d0, inum, Data(FIRST_SINGLE))}
    ensures var b := InodeAt(d0, inum)[SINGLE]; InData(d0, b) && b !in free && inum < NUM_INODE && Sized(d0)
    ensures forall id :: id in own ==> InData(d0, id) && (id in free ==> id == Id(d0, inum, Data(FIRST_SINGLE)))
  {
    Owned(d0, free0, own, live, inum, FIRST_SINGLE);
    InRange(d0, free0, own, live, inum, FIRST_SINGLE + 1);
  }

  lemma SingleFreed(d0: Disk, free0: set<nat>, own: Owners, live: set<nat>, inum: nat,
                    d: Disk, d': Disk, free: set<nat>)
    requires Partial(d0, free0, own, live, inum, FIRST_SINGLE + 1)
    requires var gone := {Id(d0, inum, Data(FIRST_SINGLE)), InodeAt(d0, inum)[SINGLE]};
      Untouched(d0, d, own - gone) && free == free0 + gone
    requires Stored(d, d', inum, InodeAt(d0, inum)[SINGLE := 0])
    ensures Freed(d0, free0, own, live, inum, FIRST_SINGLE, d', free)
  {
    Owned(d0, free0, own, live, inum, FIRST_SINGLE);
    InRange(d0, free0, own, live, inum, FIRST_SINGLE + 1);
    TableRange(inum);
    var gone := {Id(d0, inum, Data(FIRST_SINGLE)), InodeAt(d0, inum)[SINGLE]};
    RecordCleared(d0, d, d', own, live, inum, Single, gone);
  }

  method FreeSingle(s: Device, inum: nat, node: Inode, num: nat, ghost d0: Disk, ghost free0: set<nat>)
    requires FreeList.Records(s.blocks, s.chain, s.free) && FIRST_SINGLE <= num < FIRST_DOUBLE
    requires Dropped(d0, free0, s.own, s.live, inum, num, s.blocks, s.free) && node == InodeAt(d0, inum)
    modifies s.log, s`blocks, s`chain, s`free
    ensures FreeList.Records(s.blocks, s.chain, s.free)
    ensures Freed(d0, free0, s.own, s.live, inum, num, s.blocks, s.free)
  {
    ghost var own := s.own;
    SinglePath(d0, free0, own, s.live, inum, num, s.blocks, s.free);
    ghost var gone := {Id(d0, inum, Data(num)), node[SINGLE]};
    var index := num - DIR_ID_NUM;
    var ind_block := DbRead(s, node[SINGLE]);
    WriteOwned(s, ind_block.value[index := 0], node[SINGLE], d0, gone);
    if index == 0 {
      ReleaseSingle(s, inum, node, d0, free0);
    } else {
      SingleCleared(d0, free0, own, s.live, inum, num, s.blocks, s.free);
    }
  }

  lemma SinglePath(d0: Disk, free0: set<nat>, own: Owners, live: set<nat>, inum: nat, num: nat, d: Disk, free: set<nat>)
    requires Dropped(d0, free0, own, live, inum, num, d, free) && FIRST_SINGLE <= num < FIRST_DOUBLE
    ensures var b := InodeAt(d0, inum)[SINGLE];
      Sized(d0) && InData(d0, b) && b !in free && W(d, b) == W(d0, b) && b != Id(d0, inum, Data(num))
    ensures var gone := {Id(d0, inum, Data(num)), InodeAt(d0, inum)[SINGLE]}; Untouched(d0, d, own - gone)
  {
    Owned(d0, free0, own, live, inum, num);
    InRange(d0, free0, own, live, inum, num + 1);
  }

  lemma SingleCleared(d0: Disk, free0: set<nat>, own: Owners, live: set<nat>, inum: nat, num: nat,
                      d: Disk, free: set<nat>)
    requires Partial(d0, free0, own, live, inum, num + 1) && FIRST_SINGLE < num < FIRST_DOUBLE
    requires free == free0 + {Id(d0, inum, Data(num))}
    requires var b := InodeAt(d0, inum)[SINGLE];
      Untouched(d0, d, own - {Id(d0, inum, Data(num)), b}) && W(d, b) == W(d0, b)[num - FIRST_SINGLE := 0]
    ensures Freed(d0, free0, own, live, inum, num, d, free)
  {
    Owned(d0, free0, own, live, inum, num);
    InRange(d0, free0, own, live, inum, num + 1);
    EntryCleared(d0, d, own, live, inum, Data(num), {Id(d0, inum, Data(num)), InodeAt(d0, inum)[SINGLE]});
  }

  // The blocks on the way to a number of the double indirect region.
  function Path(d0: Disk, inum: nat, num: nat): set<nat>
    requires FIRST_DOUBLE <= num < FIRST_TRIPLE
  {
    {Id(d0, inum, Data(num)), Id(d0, inum, Ind(Outer(num))), Id(d0, inum, Double)}
  }

  // The entry of number num is zeroed, and an emptied row is released and unlinked.
  ghost predicate EntryFreed(d0: Disk, free0: set<nat>, own: Owners, inum: nat, num: nat, d: Disk, free: set<nat>)
    requires FIRST_DOUBLE <= num < FIRST_TRIPLE
  {
    var row, root := Id(d0, inum, Ind(Outer(num))), Id(d0, inum, Double);
    && Sized(d) && Untouched(d0, d, own - Path(d0, inum, num))
    && (if Inner(num) == 0
        then free == free0 + {Id(d0, inum, Data(num))} + {row} && W(d, root) == W(d0, root)[Outer(num) := 0]
        else free == free0 + {Id(d0, inum, Data(num))} && W(d, root) == W(d0, root) &&
             W(d, row) == W(d0, row)[Inner(num) := 0])
  }

  lemma EntryPath(d0: Disk, free0: set<nat>, own: Owners, live: set<nat>, inum: nat, num: nat, d: Disk, free: set<nat>)
    requires Dropped(d0, free0, own, live, inum, num, d, free) && FIRST_DOUBLE <= num < FIRST_TRIPLE
    ensures var row, root := Id(d0, inum, Ind(Outer(num))), Id(d0, inum, Double);
      && row != root && row !in free && root !in free && InData(d0, row) && InData(d0, root)
      && root == InodeAt(d0, inum)[DOUBLE] && row == W(d, root)[Outer(num)]
      && W(d, row) == W(d0, row) && W(d, root) == W(d0, root)
    ensures Sized(d0) && Untouched(d0, d, own - Path(d0, inum, num))
    ensures forall id :: id in own ==> InData(d0, id) && (id in free ==> id in Path(d0, inum, num))
  {
    Owned(d0, free0, own, live, inum, num);
    InRange(d0, free0, own, live, inum, num + 1);
  }

  method FreeEntry(s: Device, inum: nat, node: Inode, num: nat, ghost d0: Disk, ghost free0: set<nat>)
    requires FreeList.Records(s.blocks, s.chain, s.free) && FIRST_DOUBLE <= num < FIRST_TRIPLE
    requires Dropped(d0, free0, s.own, s.live, inum, num, s.blocks, s.free) && node == InodeAt(d0, inum)
    modifies s.log, s`blocks, s`chain, s`free
    ensures FreeList.Records(s.blocks, s.chain, s.free) && EntryFreed(d0, free0, s.own, inum, num, s.blocks, s.free)
  {
    ghost var path := Path(d0, inum, num);
    EntryPath(d0, free0, s.own, s.live, inum, num, s.blocks, s.free);
    var d_index := (num - DIR_ID_NUM - INDIR_ID_NUM) / INDIR_ID_NUM;
    var index := (num - DIR_ID_NUM - INDIR_ID_NUM) % INDIR_ID_NUM;
    var dind_block := DbRead(s, node[DOUBLE]);
    var ind_bid := dind_block.value[d_index];
    var ind_block := DbRead(s, ind_bid);
    WriteOwned(s, ind_block.value[index := 0], ind_bid, d0, path);
    if index == 0 {
      ReleaseOwned(s, ind_bid, d0, path);
      WriteOwned(s, dind_block.value[d_index := 0], node[DOUBLE], d0, path);
    }
  }

  // The double indirect block is released...
  method ReleaseRoot(s: Device, inum: nat, bid: nat, num: nat, ghost d0: Disk, ghost free0: set<nat>)
    requires FreeList.Records(s.blocks, s.chain, s.free) && FIRST_DOUBLE <= num < FIRST_TRIPLE && Outer(num) == 0
    requires Partial(d0, free0, s.own, s.live, inum, num + 1) && bid == Id(d0, inum, Double)
    requires EntryFreed(d0, free0, s.own, inum, num, s.blocks, s.free)
    modifies s.log, s`blocks, s`chain, s`free
    ensures FreeList.Records(s.blocks, s.chain, s.free) && Sized(s.blocks)
    ensures Untouched(d0, s.blocks, s.own - Path(d0, inum, num))
    ensures s.free == free0 + {Id(d0, inum, Data(num))} + Emptied(d0, inum, num)
  {
    RootHeld(d0, free0, s.own, s.live, inum, num, s.blocks, s.free);
    ReleaseOwned(s, bid, d0, Path(d0, inum, num));
  }

  lemma RootHeld(d0: Disk, free0: set<nat>, own: Owners, live: set<nat>, inum: nat, num: nat, d: Disk, free: set<nat>)
    requires FIRST_DOUBLE <= num < FIRST_TRIPLE && Outer(num) == 0 && Partial(d0, free0, own, live, inum, num + 1)
    requires EntryFreed(d0, free0, own, inum, num, d, free)
    ensures var bid := Id(d0, inum, Double);
      InData(d0, bid) && bid !in free && bid in Path(d0, inum, num) && Sized(d0) && Sized(d) &&
      Untouched(d0, d, own - Path(d0, inum, num)) &&
      free + {bid} == free0 + {Id(d0, inum, Data(num))} + Emptied(d0, inum, num)
    ensures forall id :: id in own ==> InData(d0, id) && (id in free ==> id in Path(d0, inum, num))
  {
    Owned(d0, free0, own, live, inum, num);
    InRange(d0, free0, own, live, inum, num + 1);
  }

  // ... and unlinked.
  method FreeRoot(s: Device, inum: nat, node: Inode, num: nat, ghost d0: Disk, ghost free0: set<nat>)
    requires FreeList.Records(s.blocks, s.chain, s.free) && FIRST_DOUBLE <= num < FIRST_TRIPLE && Outer(num) == 0
    requires Partial(d0, free0, s.own, s.live, inum, num + 1) && node == InodeAt(d0, inum)
    requires EntryFreed(d0, free0, s.own, inum, num, s.blocks, s.free)
    modifies s.log, s`blocks, s`chain, s`free
    ensures FreeList.Records(s.blocks, s.chain, s.free)
    ensures Freed(d0, free0, s.own, s.live, inum, num, s.blocks, s.free)
  {
    ReleaseRoot(s, inum, node[DOUBLE], num, d0, free0);
    ghost var d := s.blocks;
    var _ := WriteInode(s, inum, node[DOUBLE := 0]);
    KeepRecords(d, s.blocks, s.chain, s.free, inum);
    RootFreed(d0, free0, s.own, s.live, inum, num, d, s.blocks, s.free);
  }

  lemma RootFreed(d0: Disk, free0: set<nat>, own: Owners, live: set<nat>, inum: nat, num: nat,
                  d: Disk, d': Disk, free: set<nat>)
    requires FIRST_DOUBLE <= num < FIRST_TRIPLE && Outer(num) == 0
    requires Partial(d0, free0, own, live, inum, num + 1) && Untouched(d0, d, own - Path(d0, inum, num))
    requires Stored(d, d', inum, InodeAt(d0, inum)[DOUBLE := 0])
    requires free == free0 + {Id(d0, inum, Data(num))} + Emptied(d0, inum, num)
    ensures Freed(d0, free0, own, live, inum, num, d', free)
  {
    Owned(d0, free0, own, live, inum, num);
    InRange(d0, free0, own, live, inum, num + 1);
    TableRange(inum);
    RecordCleared(d0, d, d', own, live, inum, Double, Path(d0, inum, num));
  }

  lemma RowFreed(d0: Disk, free0: set<nat>, own: Owners, live: set<nat>, inum: nat, num: nat, d: Disk, free: set<nat>)
    requires FIRST_DOUBLE <= num < FIRST_TRIPLE && Outer(num) > 0
    requires Partial(d0, free0, own, live, inum, num + 1) && EntryFreed(d0, free0, own, inum, num, d, free)
    ensures Freed(d0, free0, own, live, inum, num, d, free)
  {
    Owned(d0, free0, own, live, inum, num);
    InRange(d0, free0, own, live, inum, num + 1);
    var path, root := Path(d0, inum, num), Id(d0, inum, Double);
    if Inner(num) != 0 {
      assert Untouched(d0, d, own - (path - {root}));
      EntryCleared(d0, d, own, live, inum, Data(num), path - {root});
    } else {
      EntryCleared(d0, d, own, live, inum, Ind(Outer(num)), path);
    }
  }

  method FreeDouble(s: Device, inum: nat, node: Inode, num: nat, ghost d0: Disk, ghost free0: set<nat>)
    requires FreeList.Records(s.blocks, s.chain, s.free) && FIRST_DOUBLE <= num < FIRST_TRIPLE
    requires Dropped(d0, free0, s.own, s.live, inum, num, s.blocks, s.free) && node == InodeAt(d0, inum)
    modifies s.log, s`blocks, s`chain, s`free
    ensures FreeList.Records(s.blocks, s.chain, s.free)
    ensures Freed(d0, free0, s.own, s.live, inum, num, s.blocks, s.free)
  {
    FreeEntry(s, inum, node, num, d0, free0);
    var d_index := (num - DIR_ID_NUM - INDIR_ID_NUM) / INDIR_ID_NUM;
    if d_index == 0 {
      FreeRoot(s, inum, node, num, d0, free0);
    } else {
      RowFreed(d0, free0, s.own, s.live, inum, num, s.blocks, s.free);
    }
  }

  // free_block_by_num, after db_free of the block itself: one reference is zeroed, and index blocks that the code takes
  // to be empty are released.
  method FreeBlockByNum(s: Device, inum: nat, num: int, ghost d0: Disk, ghost free0: set<nat>) returns (status: int)
    requires FreeList.Records(s.blocks, s.chain, s.free) && num < FIRST_TRIPLE
    requires 0 <= num ==> Dropped(d0, free0, s.own, s.live, inum, num, s.blocks, s.free)
    modifies s.log, s`blocks, s`chain, s`free
    ensures FreeList.Records(s.blocks, s.chain, s.free)
    ensures status == if num < 0 then -1 else 0
    ensures status == -1 ==> s.blocks == old(s.blocks) && s.free == old(s.free)
    ensures status == 0 ==> Freed(d0, free0, s.own, s.live, inum, num, s.blocks, s.free)
  {
    if num < 0 {
      return -1;
    }
    InRange(d0, free0, s.own, s.live, inum, num + 1);
    TableRange(inum);
    FreeList.RecordsFacts(s.blocks, s.chain, s.free);
    var node := FindInode(s, inum);
    if num < DIR_ID_NUM {
      FreeDirect(s, inum, node.value, num, d0, free0);
    } else if num < DIR_ID_NUM + INDIR_ID_NUM {
      FreeSingle(s, inum, node.value, num, d0, free0);
    } else {
      FreeDouble(s, inum, node.value, num, d0, free0);
    }
    status := 0;
  }

  // ---------- one step of truncate_file's loop ----------

  // The numbers for which free_block_by_num gives up the double indirect block too early (inode.c:339).
  predicate Early(num: nat)
  {
    FIRST_DOUBLE < num < FIRST_DOUBLE + INDIR_ID_NUM
  }

  // The effect of releasing and unlinking block number num, the last one mapped.  Sealed like Records.
  ghost predicate Shortened(d: Disk, free: set<nat>, own: Owners, d': Disk, free': set<nat>, own': Owners,
                            live: set<nat>, inum: nat, num: nat)
    requires num < FIRST_TRIPLE
  {
    forall w {:trigger FreeList.Unsealed(w)} :: FreeList.Unsealed(w) ==>
      ShortenedAll(d, free, own, d', free', own', live, inum, num)
  }

  ghost predicate ShortenedAll(d: Disk, free: set<nat>, own: Owners, d': Disk, free': set<nat>, own': Owners,
                               live: set<nat>, inum: nat, num: nat)
    requires num < FIRST_TRIPLE
  {
    && Partial(d', free', own', live, inum, if Early(num) then FIRST_DOUBLE else num)
    && IdsAfter(d, d', live, inum, Cleared(num), 0)
    && SameHead(d, d') && SameMeta(InodeAt(d, inum), InodeAt(d', inum))
    && (forall i :: i in live && i != inum ==> InodeAt(d', i) == InodeAt(d, i))
    && (forall id :: id in own' && own'[id].ref.Data? ==> W(d', id) == W(d, id))
    && free' == free + {Id(d, inum, Data(num))} + Emptied(d, inum, num)
    && own' == OwnSet(own, inum, Cleared(num), 0)
    && own'.Keys + free' <= own.Keys + free
  }

  lemma DropStep(d: Disk, free: set<nat>, own: Owners, live: set<nat>, inum: nat, num: nat, d': Disk, free': set<nat>)
    requires Partial(d, free, own, live, inum, num + 1) && Freed(d, free, own, live, inum, num, d', free')
    ensures Shortened(d, free, own, d', free', OwnSet(own, inum, Cleared(num), 0), live, inum, num)
  {
    var q := Cleared(num);
    Owned(d, free, own, live, inum, num);
    InRange(d, free, own, live, inum, num + 1);
    ClearedSafe(num);
    DropAccount(d, free, own, live, inum, num, free');
    var m := if Early(num) then FIRST_DOUBLE else num;
    ClearedBelow(num, m);
    ClearPartial(d, d', free, free', own, live, inum, num + 1, q, m);
  }

  lemma ClearedBelow(num: nat, m: nat)
    requires num < FIRST_TRIPLE && m == if Early(num) then FIRST_DOUBLE else num
    ensures forall k :: 0 <= k < m ==> !Under(Data(k), Cleared(num)) && Cleared(num) != Data(k)
  {
    ClearedSafe(num);
  }

  lemma DropAccount(d: Disk, free: set<nat>, own: Owners, live: set<nat>, inum: nat, num: nat, free': set<nat>)
    requires Partial(d, free, own, live, inum, num + 1)
    requires free' == free + {Id(d, inum, Data(num))} + Emptied(d, inum, num)
    ensures var own' := OwnSet(own, inum, Cleared(num), 0); own'.Keys !! free' && own'.Keys + free' <= own.Keys + free
  {
    Owned(d, free, own, live, inum, num);
    if FIRST_DOUBLE <= num { assert num - FIRST_DOUBLE == INDIR_ID_NUM * Outer(num) + Inner(num); }
  }

  // From an exact shape, the step keeps the shape exact and every block accounted for, unless it comes early: then the
  // blocks before it in its row belong to no one any more.
  lemma DropExact(d: Disk, free: set<nat>, own: Owners, d': Disk, free': set<nat>, own': Owners,
                  live: set<nat>, inum: nat, num: nat)
    requires Partial(d, free, own, live, inum, num + 1) && Shape(d, inum, num + 1)
    requires Shortened(d, free, own, d', free', own', live, inum, num)
    ensures own'.Keys + free' == own.Keys + free <==> !Early(num)
    ensures !Early(num) ==> Shape(d', inum, num)
  {
    assert FreeList.Unsealed(true);
    var q := Cleared(num);
    Owned(d, free, own, live, inum, num);
    OpenPartial(d, free, own, live, inum, num + 1);
    if Early(num) {
      var b := Id(d, inum, Data(FIRST_DOUBLE));
      assert b in own && own[b] == Owner(inum, Data(FIRST_DOUBLE));
      assert b !in own' && b !in free';
    } else {
      forall id | id in own && Lost(own[id], inum, q)
        ensures id in free'
      {
        assert Id(d, inum, own[id].ref) == id && !InData(d, 0);
        LastWithin(num, own[id].ref);
      }
      forall r
        ensures Id(d', inum, r) != 0 <==> Within(r, num)
      {
        assert Id(d, inum, r) != 0 <==> Within(r, num + 1);
        LastWithin(num, r);
      }
    }
  }

  // What the step gives up within an exact shape: number num and the index blocks that only it needs.
  lemma LastWithin(num: nat, r: Ref)
    requires num < FIRST_TRIPLE && !Early(num)
    ensures Within(r, num + 1) && (r == Cleared(num) || Under(r, Cleared(num))) ==>
      || r == Data(num) || (r == Single && num == FIRST_SINGLE) || (r == Double && num == FIRST_DOUBLE)
      || (FIRST_DOUBLE <= num && r == Ind(Outer(num)) && Inner(num) == 0)
    ensures Within(r, num) <==> Within(r, num + 1) && !(r == Cleared(num) || Under(r, Cleared(num)))
  {
    if FIRST_DOUBLE <= num { assert num - FIRST_DOUBLE == INDIR_ID_NUM * Outer(num) + Inner(num); }
    match r
    case Ind(j) =>
    case Data(k) => if FIRST_DOUBLE <= k < FIRST_TRIPLE { assert k - FIRST_DOUBLE
      == INDIR_ID_NUM * Outer(k) + Inner(k); }
    case _ =>
  }

  // db_free of the block of number num, the last one mapped.
  method ReleaseLast(s: Device, inum: nat, num: nat)
    requires FreeList.Records(s.blocks, s.chain, s.free) && Partial(s.blocks, s.free, s.own, s.live, inum, num + 1)
    modifies s.log, s`blocks, s`chain, s`free
    ensures FreeList.Records(s.blocks, s.chain, s.free)
    ensures Dropped(old(s.blocks), old(s.free), s.own, s.live, inum, num, s.blocks, s.free)
  {
    ghost var d := s.blocks;
    Owned(d, s.free, s.own, s.live, inum, num);
    InRange(d, s.free, s.own, s.live, inum, num + 1);
    var bid := FindBlock(s, inum, num);
    ReleaseOwned(s, bid.value, d, {bid.value});
  }

  // One turn of the loop of truncate_file: number num, the last one mapped, is released and unlinked.
  method DropLast(s: Device, inum: nat, num: nat)
    requires FreeList.Records(s.blocks, s.chain, s.free) && Partial(s.blocks, s.free, s.own, s.live, inum, num + 1)
    modifies s.log, s`blocks, s`chain, s`free, s`own
    ensures FreeList.Records(s.blocks, s.chain, s.free)
    ensures Shortened(old(s.blocks), old(s.free), old(s.own), s.blocks, s.free, s.own, s.live, inum, num)
  {
    ghost var d, free, own := s.blocks, s.free, s.own;
    ReleaseLast(s, inum, num);
    var _ := FreeBlockByNum(s, inum, num, d, free);
    DropStep(d, free, own, s.live, inum, num, s.blocks, s.free);
    s.own := OwnSet(own, inum, Cleared(num), 0);
  }

  lemma ShortenedPartial(d: Disk, free: set<nat>, own: Owners, d': Disk, free': set<nat>, own': Owners,
                         live: set<nat>, inum: nat, num: nat)
    requires num < FIRST_TRIPLE && Shortened(d, free, own, d', free', own', live, inum, num)
    ensures Partial(d', free', own', live, inum, if Early(num) then FIRST_DOUBLE else num)
  {
    assert FreeList.Unsealed(true);
  }
}
