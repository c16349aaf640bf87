// Taking up and giving up inodes: inode_allocate and inode_free (inode.c).

module Lifetime {
  import opened Blocks
  import opened Store
  import opened Inodes
  import opened Ownership
  import opened BlockMap
  import FreeList

  // The inode d0 is being emptied: only blocks released since have changed.
  ghost predicate Emptying(s: Device, d0: Disk, inum: nat, n: nat)
    reads s
  {
    && FreeList.Records(s.blocks, s.chain, s.free) && Sized(d0) && FreeList.OnlyFree(d0, s.blocks, s.free)
    && OwnOk(d0, s.own, s.live) && inum in s.live
    && forall k {:trigger Data(k)} :: 0 <= k < n ==> Id(d0, inum, Data(k)) != 0
  }

  // The block number of the first entry of the index block at p.
  function First(p: Ref): nat
    requires p.Single? || (p.Ind? && p.j < INDIR_ID_NUM)
  {
    if p.Single? then FIRST_SINGLE else FIRST_DOUBLE + INDIR_ID_NUM * p.j
  }

  // Going from free to free' releases only what p gives up, and all of that which a file of n blocks needs.
  ghost predicate Gave(own: Owners, inum: nat, p: Ref, n: nat, free: set<nat>, free': set<nat>)
  {
    && free <= free'
    && (forall id :: id in free' && id !in free ==> id in own && Lost(own[id], inum, p))
    && (forall id {:trigger own[id]} :: id in own && Lost(own[id], inum, p) && Within(own[id].ref, n) ==> id in free')
  }

  // Nothing that p gives up is free.
  ghost predicate Held(own: Owners, inum: nat, p: Ref, free: set<nat>)
  {
    forall id {:trigger own[id]} :: id in own && Lost(own[id], inum, p) ==> id !in free
  }

  lemma EntryId(d: Disk, own: Owners, live: set<nat>, inum: nat, p: Ref, i: nat)
    requires OwnOk(d, own, live) && inum in live && (p.Single? || (p.Ind? && p.j < INDIR_ID_NUM)) && i < ENTRIES
    requires Id(d, inum, p) != 0
    ensures Id(d, inum, Data(First(p) + i)) == W(d, Id(d, inum, p))[i] && Under(Data(First(p) + i), p)
    ensures var id := W(d, Id(d, inum, p))[i]; id != 0 ==>
      id in own && own[id] == Owner(inum, Data(First(p) + i)) && InData(d, id)
  {
    EntryPlace(p, i);
    if p.Ind? { assert Id(d, inum, p) == Entry(d, InodeAt(d, inum)[DOUBLE], p.j); }
  }

  lemma EntryPlace(p: Ref, i: nat)
    requires (p.Single? || (p.Ind? && p.j < INDIR_ID_NUM)) && i < ENTRIES
    ensures p.Ind? ==> Outer(First(p) + i) == p.j && Inner(First(p) + i) == i
    ensures Under(Data(First(p) + i), p)
  {
    if p.Ind? { assert First(p) + i - FIRST_DOUBLE == INDIR_ID_NUM * p.j + i; }
  }

  // db_free of an owned block.
  method GiveBack(s: Device, b: nat, ghost d0: Disk, ghost inum: nat, ghost n: nat)
    requires Emptying(s, d0, inum, n) && b in s.own && b !in s.free
    modifies s.log, s`blocks, s`chain, s`free
    ensures Emptying(s, d0, inum, n) && s.free == old(s.free) + {b}
  {
    assert InData(d0, b);
    FreeList.RecordsFacts(s.blocks, s.chain, s.free);
    FreeList.Release(s, b);
  }

  // The first i entries of the index block at p have been released.
  ghost predicate GaveEntries(own: Owners, inum: nat, p: Ref, i: nat, free: set<nat>, free': set<nat>)
    requires p.Single? || (p.Ind? && p.j < INDIR_ID_NUM)
  {
    && free <= free'
    && (forall id :: id in free' && id !in free ==>
          id in own && own[id].inum == inum && Under(own[id].ref, p) && own[id].ref.num < First(p) + i)
    && (forall id {:trigger own[id]} ::
         id in own && own[id].inum == inum && Under(own[id].ref, p) && own[id].ref.num < First(p) + i ==>
          id in free')
  }

  lemma GaveEntry(own: Owners, d: Disk, live: set<nat>, inum: nat, p: Ref, i: nat, free: set<nat>, free': set<nat>)
    requires OwnOk(d, own, live) && inum in live && (p.Single? || (p.Ind? && p.j < INDIR_ID_NUM)) && i < ENTRIES
    requires GaveEntries(own, inum, p, i, free, free') && Id(d, inum, p) != 0 && W(d, Id(d, inum, p))[i] != 0
    ensures GaveEntries(own, inum, p, i + 1, free, free' + {W(d, Id(d, inum, p))[i]})
  {
    EntryId(d, own, live, inum, p, i);
    forall id | id in own && own[id].inum == inum && own[id].ref == Data(First(p) + i)
      ensures id == W(d, Id(d, inum, p))[i]
    {
      assert Id(d, inum, own[id].ref) == id;
    }
  }

  // At the first unused entry, or after the last, the block itself goes.
  lemma GaveAll(own: Owners, d: Disk, live: set<nat>, inum: nat, p: Ref, n: nat, i: nat, free: set<nat>,
                free': set<nat>)
    requires OwnOk(d, own, live) && inum in live && (p.Single? || (p.Ind? && p.j < INDIR_ID_NUM)) && i <= ENTRIES
    requires forall k {:trigger Data(k)} :: 0 <= k < n ==> Id(d, inum, Data(k)) != 0
    requires GaveEntries(own, inum, p, i, free, free') && Id(d, inum, p) != 0
    requires i < ENTRIES ==> W(d, Id(d, inum, p))[i] == 0
    ensures Gave(own, inum, p, n, free, free' + {Id(d, inum, p)})
  {
    assert own[Id(d, inum, p)] == Owner(inum, p);
    if i < ENTRIES { EntryId(d, own, live, inum, p, i); }
    forall id | id in own && Lost(own[id], inum, p) && Within(own[id].ref, n)
      ensures id in free' + {Id(d, inum, p)}
    {
      assert Id(d, inum, own[id].ref) == id;
      if Under(own[id].ref, p) { UnderFirst(own[id].ref, p); }
    }
  }

  lemma UnderFirst(r: Ref, p: Ref)
    requires (p.Single? || (p.Ind? && p.j < INDIR_ID_NUM)) && Under(r, p)
    ensures First(p) <= r.num < First(p) + INDIR_ID_NUM
  {
    if p.Ind? { assert r.num - FIRST_DOUBLE == INDIR_ID_NUM * Outer(r.num) + Inner(r.num); }
  }

  // free_indblo_by_bid on the index block at p.
  method FreeIndirect(s: Device, bid: nat, ghost d0: Disk, ghost inum: nat, ghost p: Ref, ghost n: nat)
    requires Emptying(s, d0, inum, n) && (p.Single? || (p.Ind? && p.j < INDIR_ID_NUM))
    requires bid == Id(d0, inum, p) && Held(s.own, inum, p, s.free)
    modifies s.log, s`blocks, s`chain, s`free
    ensures Emptying(s, d0, inum, n) && Gave(s.own, inum, p, n, old(s.free), s.free)
  {
    if bid == 0 {
      NothingUnder(s.own, d0, s.live, inum, p, n, s.free);
      return;
    }
    ghost var free := s.free;
    var bids := DbRead(s, bid);
    assert bids.value == W(d0, bid);
    var i := 0;
    while i < INDIR_ID_NUM && bids.value[i] != 0
      invariant i <= INDIR_ID_NUM && Emptying(s, d0, inum, n) && GaveEntries(s.own, inum, p, i, free, s.free)
    {
      EntryId(d0, s.own, s.live, inum, p, i);
      GaveEntry(s.own, d0, s.live, inum, p, i, free, s.free);
      GiveBack(s, bids.value[i], d0, inum, n);
      i := i + 1;
    }
    GaveAll(s.own, d0, s.live, inum, p, n, i, free, s.free);
    GiveBack(s, bid, d0, inum, n);
  }

  // A missing index block has nothing under it.
  lemma NothingUnder(own: Owners, d: Disk, live: set<nat>, inum: nat, p: Ref, n: nat, free: set<nat>)
    requires OwnOk(d, own, live) && inum in live && IsIndex(p) && Id(d, inum, p) == 0
    ensures Gave(own, inum, p, n, free, free)
  {
    forall id | id in own
      ensures !Lost(own[id], inum, p)
    {
      assert Id(d, own[id].inum, own[id].ref) == id && !InData(d, 0);
    }
  }

  // The first j rows of the double indirect block have been released.
  ghost predicate GaveRows(own: Owners, inum: nat, j: nat, n: nat, free: set<nat>, free': set<nat>)
  {
    && free <= free'
    && (forall id :: id in free' && id !in free ==> id in own && InRows(own[id], inum, j))
    && (forall id {:trigger own[id]} :: id in own && InRows(own[id], inum, j) && Within(own[id].ref, n) ==> id in free')
  }

  predicate InRows(o: Owner, inum: nat, j: nat)
  {
    o.inum == inum && match o.ref
    case Ind(k) => k < j
    case Data(k) => FIRST_DOUBLE <= k < FIRST_TRIPLE && Outer(k) < j
    case _ => false
  }

  lemma GaveRow(own: Owners, inum: nat, j: nat, n: nat, free: set<nat>, free': set<nat>, free2: set<nat>)
    requires GaveRows(own, inum, j, n, free, free') && Gave(own, inum, Ind(j), n, free', free2)
    ensures GaveRows(own, inum, j + 1, n, free, free2)
  {
    forall id | id in own
      ensures InRows(own[id], inum, j + 1) <==> InRows(own[id], inum, j) || Lost(own[id], inum, Ind(j))
    {
    }
  }

  lemma RowHeld(own: Owners, inum: nat, j: nat, n: nat, free: set<nat>, free': set<nat>)
    requires GaveRows(own, inum, j, n, free, free') && Held(own, inum, Double, free)
    ensures Held(own, inum, Ind(j), free')
  {
  }

  lemma GaveDouble(own: Owners, d: Disk, live: set<nat>, inum: nat, n: nat, j: nat, free: set<nat>, free': set<nat>)
    requires OwnOk(d, own, live) && inum in live && j <= INDIR_ID_NUM
    requires forall k {:trigger Data(k)} :: 0 <= k < n ==> Id(d, inum, Data(k)) != 0
    requires GaveRows(own, inum, j, n, free, free') && Id(d, inum, Double) != 0
    requires j < INDIR_ID_NUM ==> Id(d, inum, Ind(j)) == 0
    ensures Gave(own, inum, Double, n, free, free' + {Id(d, inum, Double)})
  {
    assert own[Id(d, inum, Double)] == Owner(inum, Double);
    if j < INDIR_ID_NUM { RowMissing(d, inum, n, j); }
    forall id | id in own && Lost(own[id], inum, Double) && Within(own[id].ref, n)
      ensures id in free' + {Id(d, inum, Double)}
    {
      assert Id(d, inum, own[id].ref) == id && !InData(d, 0);
      if own[id].ref.Data? {
        var k := own[id].ref.num;
        assert k - FIRST_DOUBLE == INDIR_ID_NUM * Outer(k) + Inner(k);
      }
    }
  }

  // Without row j there are no block numbers from there on.
  lemma RowMissing(d: Disk, inum: nat, n: nat, j: nat)
    requires forall k {:trigger Data(k)} :: 0 <= k < n ==> Id(d, inum, Data(k)) != 0
    requires j < INDIR_ID_NUM && Id(d, inum, Ind(j)) == 0
    ensures n <= FIRST_DOUBLE + INDIR_ID_NUM * j
  {
    var k := FIRST_DOUBLE + INDIR_ID_NUM * j;
    assert Outer(k) == j && Inner(k) == 0;
    assert Id(d, inum, Data(k)) == 0;
  }

  // free_dindblo_by_bid on the double indirect block.
  method FreeDoubleIndirect(s: Device, bid: nat, ghost d0: Disk, ghost inum: nat, ghost n: nat)
    requires Emptying(s, d0, inum, n) && bid == Id(d0, inum, Double) && Held(s.own, inum, Double, s.free)
    modifies s.log, s`blocks, s`chain, s`free
    ensures Emptying(s, d0, inum, n) && Gave(s.own, inum, Double, n, old(s.free), s.free)
  {
    if bid == 0 {
      NothingUnder(s.own, d0, s.live, inum, Double, n, s.free);
      return;
    }
    ghost var free := s.free;
    var bids := DbRead(s, bid);
    assert bids.value == W(d0, bid) && s.own[bid] == Owner(inum, Double);
    ghost var j := FreeRows(s, bids.value, d0, inum, n);
    GaveDouble(s.own, d0, s.live, inum, n, j, free, s.free);
    GiveBack(s, bid, d0, inum, n);
  }

  // Its rows up to the first empty one.
  method FreeRows(s: Device, bids: WordBlock, ghost d0: Disk, ghost inum: nat, ghost n: nat) returns (j: nat)
    requires Emptying(s, d0, inum, n) && Id(d0, inum, Double) != 0 && bids == W(d0, Id(d0, inum, Double))
    requires Held(s.own, inum, Double, s.free)
    modifies s.log, s`blocks, s`chain, s`free
    ensures Emptying(s, d0, inum, n) && j <= INDIR_ID_NUM && (j < INDIR_ID_NUM ==> Id(d0, inum, Ind(j)) == 0)
    ensures GaveRows(s.own, inum, j, n, old(s.free), s.free)
  {
    ghost var free := s.free;
    j := 0;
    while j < INDIR_ID_NUM && bids[j] != 0
      invariant j <= INDIR_ID_NUM && Emptying(s, d0, inum, n) && GaveRows(s.own, inum, j, n, free, s.free)
    {
      var next := j + 1;
      FreeRow(s, bids[j], d0, inum, j, next, n, free);
      j := next;
    }
  }

  // One row of it.
  method FreeRow(s: Device, bid: nat, ghost d0: Disk, ghost inum: nat, ghost j: nat, ghost next: nat, ghost n: nat,
                 ghost free: set<nat>)
    requires Emptying(s, d0, inum, n) && j < INDIR_ID_NUM && next == j + 1 && Id(d0, inum, Double) != 0
    requires bid == W(d0, Id(d0, inum, Double))[j] && GaveRows(s.own, inum, j, n, free, s.free)
    requires Held(s.own, inum, Double, free)
    modifies s.log, s`blocks, s`chain, s`free
    ensures Emptying(s, d0, inum, n) && GaveRows(s.own, inum, next, n, free, s.free)
  {
    assert bid == Id(d0, inum, Ind(j));
    RowHeld(s.own, inum, j, n, free, s.free);
    ghost var before := s.free;
    FreeIndirect(s, bid, d0, inum, Ind(j), n);
    GaveRow(s.own, inum, j, n, free, before, s.free);
  }

  // ---------- the bitmap ----------

  // The block of the bitmap with byte k set to v.
  function WithByte(ws: WordBlock, k: nat, v: Byte): WordBlock
    requires k < DB_SIZE
  {
    Words(Bytes(ws)[k := v])
  }

  lemma WithByteBytes(ws: WordBlock, k: nat, v: Byte)
    requires k < DB_SIZE
    ensures Bytes(WithByte(ws, k, v)) == Bytes(ws)[k := v]
  {
    BytesRoundTrip(Bytes(ws)[k := v]);
  }

  // Only the inode of the byte written changes its mark.
  lemma ByteMarks(d: Disk, d': Disk, inum: nat, v: Byte, i: nat)
    requires inum < NUM_INODE && i < NUM_INODE && START_DATA_BLOCK <= |d|
    requires var b := START_BITMAP + inum / DB_SIZE; d' == d[b := WithByte(W(d, b), inum % DB_SIZE, v)]
    ensures InUse(d', i) <==> if i == inum then v != 0 else InUse(d, i)
    ensures InodeAt(d', i) == InodeAt(d, i)
  {
    var b := START_BITMAP + inum / DB_SIZE;
    WithByteBytes(W(d, b), inum % DB_SIZE, v);
    TableRange(i);
    TableRange(inum);
    assert inum == DB_SIZE * (inum / DB_SIZE) + inum % DB_SIZE && i == DB_SIZE * (i / DB_SIZE) + i % DB_SIZE;
  }

  // Marking an inode that is not live.
  lemma MarkFs(d: Disk, d': Disk, chain: seq<nat>, free: set<nat>, own: Owners, live: set<nat>, inum: nat, v: Byte)
    requires FreeList.Records(d, chain, free) && FsOk(d, free, own, live) && inum < NUM_INODE && inum !in live
    requires var b := START_BITMAP + inum / DB_SIZE; b < |d| && d' == d[b := WithByte(W(d, b), inum % DB_SIZE, v)]
    ensures FreeList.Records(d', chain, free) && FsOk(d', free, own, live)
    ensures InUse(d', inum) <==> v != 0
    ensures forall i :: 0 <= i < NUM_INODE && i != inum ==> (InUse(d', i) <==> InUse(d, i))
    ensures forall i :: 0 <= i < NUM_INODE ==> InodeAt(d', i) == InodeAt(d, i)
    ensures forall i, r {:trigger Id(d', i, r)} :: i in live ==> Id(d', i, r) == Id(d, i, r)
    ensures forall b :: b == 0 || b >= START_DATA_BLOCK ==> W(d', b) == W(d, b)
  {
    TableRange(inum);
    forall i | 0 <= i < NUM_INODE
      ensures InUse(d', i) <==> if i == inum then v != 0 else InUse(d, i)
      ensures InodeAt(d', i) == InodeAt(d, i)
    {
      ByteMarks(d, d', inum, v, i);
    }
    FreeList.RecordsFacts(d, chain, free);
    FreeList.RecordsFrame(d, d', chain, free);
    LiveInRange(d, free, own, live);
    MarkedFs(d, d', free, own, live);
  }

  lemma LiveInRange(d: Disk, free: set<nat>, own: Owners, live: set<nat>)
    requires FsOk(d, free, own, live)
    ensures forall i :: i in live ==> i < NUM_INODE && InUse(d, i)
  {
    Open(d, free, own, live);
  }

  lemma MarkedFs(d: Disk, d': Disk, free: set<nat>, own: Owners, live: set<nat>)
    requires FsOk(d, free, own, live) && Sized(d') && NumBlock(d') == NumBlock(d)
    requires forall i :: i in live ==>
      i < NUM_INODE && InodeAt(d', i) == InodeAt(d, i) && (InUse(d', i) <==> InUse(d, i))
    requires forall b :: b >= START_DATA_BLOCK ==> W(d', b) == W(d, b)
    ensures FsOk(d', free, own, live)
    ensures forall i, r {:trigger Id(d', i, r)} :: i in live ==> Id(d', i, r) == Id(d, i, r)
  {
    Open(d, free, own, live);
    KeptIds(d, d', own, live);
    MarkedLive(d, d', live);
    Close(d', free, own, live);
  }

  lemma MarkedLive(d: Disk, d': Disk, live: set<nat>)
    requires LiveOk(d, live)
    requires forall i :: i in live ==>
      i < NUM_INODE && InodeAt(d', i) == InodeAt(d, i) && (InUse(d', i) <==> InUse(d, i))
    requires forall i, r {:trigger Id(d', i, r)} :: i in live ==> Id(d', i, r) == Id(d, i, r)
    ensures LiveOk(d', live)
  {
    forall i | i in live
      ensures i < NUM_INODE && InUse(d', i) && Mapped(d', i)
    {
      assert InodeAt(d, i) == InodeAt(d, i);
      KeptMapped(d, d', i);
    }
  }

  lemma KeptMapped(d: Disk, d': Disk, i: nat)
    requires Mapped(d, i) && InodeAt(d', i) == InodeAt(d, i) && forall r :: Id(d', i, r) == Id(d, i, r)
    ensures Mapped(d', i)
  {
    forall k | 0 <= k < BlocksOf(InodeAt(d', i))
      ensures Id(d', i, Data(k)) != 0
    {
      assert Id(d, i, Data(k)) != 0;
    }
  }

  // ---------- inode_free ----------

  // Direct entries below k have been released.
  ghost predicate GaveDirect(own: Owners, inum: nat, k: nat, free: set<nat>, free': set<nat>)
  {
    && free <= free'
    && (forall id :: id in free' && id !in free ==> id in own && InDirect(own[id], inum, k))
    && (forall id {:trigger own[id]} :: id in own && InDirect(own[id], inum, k) ==> id in free')
  }

  predicate InDirect(o: Owner, inum: nat, k: nat)
  {
    o.inum == inum && o.ref.Data? && o.ref.num < k
  }

  // The first k direct blocks.
  method FreeDirect(s: Device, node: Inode, k: nat, ghost d0: Disk, ghost inum: nat, ghost n: nat)
    requires Emptying(s, d0, inum, n) && node == InodeAt(d0, inum) && k <= n && k <= FIRST_SINGLE
    requires s.own.Keys !! s.free
    modifies s.log, s`blocks, s`chain, s`free
    ensures Emptying(s, d0, inum, n) && GaveDirect(s.own, inum, k, old(s.free), s.free)
  {
    for i := 0 to k
      invariant Emptying(s, d0, inum, n) && GaveDirect(s.own, inum, i, old(s.free), s.free)
    {
      GaveOne(s.own, d0, s.live, inum, i, old(s.free), s.free);
      GiveBack(s, node[DIRECT + i], d0, inum, n);
    }
  }

  lemma GaveOne(own: Owners, d: Disk, live: set<nat>, inum: nat, i: nat, free: set<nat>, free': set<nat>)
    requires OwnOk(d, own, live) && inum in live && i < FIRST_SINGLE && Id(d, inum, Data(i)) != 0
    requires GaveDirect(own, inum, i, free, free') && own.Keys !! free
    ensures var b := InodeAt(d, inum)[DIRECT + i];
      b == Id(d, inum, Data(i)) && b in own && b !in free' && GaveDirect(own, inum, i + 1, free, free' + {b})
  {
    assert forall id :: id in own && own[id] == Owner(inum, Data(i)) ==> id == Id(d, inum, Data(i));
  }

  // The blocks released are the inode's own, and include all that n mapped blocks need.
  ghost predicate GaveFile(own: Owners, inum: nat, n: nat, free: set<nat>, free': set<nat>)
  {
    && free <= free'
    && (forall id :: id in free' && id !in free ==> id in own && own[id].inum == inum)
    && (forall id {:trigger own[id]} :: id in own && own[id].inum == inum && Within(own[id].ref, n) ==> id in free')
  }

  // The blocks of an inode whose size covers n of them, released as inode_free does.
  method FreeBlocks(s: Device, node: Inode, n: nat, ghost inum: nat)
    requires Fs(s) && inum in s.live && node == InodeAt(s.blocks, inum) && n == BlocksOf(node)
    modifies s.log, s`blocks, s`chain, s`free
    ensures FreeList.Records(s.blocks, s.chain, s.free) && FreeList.OnlyFree(old(s.blocks), s.blocks, s.free)
    ensures GaveFile(s.own, inum, n, old(s.free), s.free)
  {
    ghost var d0, free, own := s.blocks, s.free, s.own;
    Open(d0, s.free, s.own, s.live);
    assert Mapped(d0, inum);
    if n < DIR_ID_NUM {
      FreeDirect(s, node, n, d0, inum, n);
      GaveOnlyDirect(own, inum, n, free, s.free);
      return;
    }
    FreeDirect(s, node, DIR_ID_NUM, d0, inum, n);
    ghost var free1 := s.free;
    HeldAfterDirect(own, inum, free, free1);
    FreeIndirect(s, node[SINGLE], d0, inum, Single, n);
    if n < DIR_ID_NUM + INDIR_ID_NUM {
      GaveSingle(own, inum, n, free, free1, s.free);
    } else {
      ghost var free2 := s.free;
      HeldAfterSingle(own, inum, n, free1, free2);
      // At the end of the double indirect region free_tindblo_by_bid is called too; without a triple indirect block it
      // does nothing.
      FreeDoubleIndirect(s, node[DOUBLE], d0, inum, n);
      GaveAllParts(own, inum, n, free, free1, free2, s.free);
    }
  }

  lemma HeldAfterDirect(own: Owners, inum: nat, free: set<nat>, free1: set<nat>)
    requires own.Keys !! free && GaveDirect(own, inum, DIR_ID_NUM, free, free1)
    ensures Held(own, inum, Single, free1) && Held(own, inum, Double, free1)
  {
  }

  lemma HeldAfterSingle(own: Owners, inum: nat, n: nat, free1: set<nat>, free2: set<nat>)
    requires Held(own, inum, Double, free1) && Gave(own, inum, Single, n, free1, free2)
    ensures Held(own, inum, Double, free2)
  {
  }

  lemma GaveOnlyDirect(own: Owners, inum: nat, n: nat, free: set<nat>, free1: set<nat>)
    requires n < FIRST_SINGLE && GaveDirect(own, inum, n, free, free1)
    ensures GaveFile(own, inum, n, free, free1)
  {
  }

  lemma GaveSingle(own: Owners, inum: nat, n: nat, free: set<nat>, free1: set<nat>, free2: set<nat>)
    requires n < FIRST_DOUBLE
    requires GaveDirect(own, inum, DIR_ID_NUM, free, free1) && Gave(own, inum, Single, n, free1, free2)
    ensures GaveFile(own, inum, n, free, free2)
  {
  }

  lemma GaveAllParts(own: Owners, inum: nat, n: nat, free: set<nat>, free1: set<nat>, free2: set<nat>, free3: set<nat>)
    requires n <= FIRST_TRIPLE && GaveDirect(own, inum, DIR_ID_NUM, free, free1)
    requires Gave(own, inum, Single, n, free1, free2) && Gave(own, inum, Double, n, free2, free3)
    ensures GaveFile(own, inum, n, free, free3)
  {
    forall id | id in own && own[id].inum == inum && Within(own[id].ref, n)
      ensures id in free3
    {
      assert InDirect(own[id], inum, DIR_ID_NUM) || Lost(own[id], inum, Single) || Lost(own[id], inum, Double);
    }
  }

  // inode_free indexes the bitmap block by inum plus the offset of inum in it (inode.c:773).  That is inside the block
  // exactly for the first HALF inodes, and marks inode 2 * inum unused.
  const HALF := 2048

  lemma MarkIndex(inum: nat)
    ensures inum + inum % DB_SIZE < DB_SIZE <==> inum < HALF
    ensures inum < HALF ==>
      inum / DB_SIZE == 0 && inum % DB_SIZE == inum && 2 * inum / DB_SIZE == 0 && 2 * inum % DB_SIZE == 2 * inum
  {
  }

  // Ownership by the inodes that are left.
  function OwnOf(own: Owners, live: set<nat>): Owners
  {
    map id | id in own && own[id].inum in live :: own[id]
  }

  // inode_free.  Every block that the size covers goes back to the free list; but the inode marked unused is 2 * inum.
  method InodeFree(s: Device, inum: nat) returns (status: int)
    requires Fs(s)
    requires inum < NUM_INODE && InUse(s.blocks, inum) ==> inum in s.live && inum < HALF
    modifies s.log, s`blocks, s`chain, s`free, s`own, s`live
    ensures Fs(s) && status == if inum in old(s.live) then 0 else -1
    ensures status == -1 ==>
      s.blocks == old(s.blocks) && s.free == old(s.free) && s.own == old(s.own) && s.live == old(s.live)
    ensures status == 0 ==>
      FreedInode(old(s.blocks), old(s.free), old(s.own), old(s.live), s.blocks, s.free, s.own, s.live, inum)
  {
    ghost var d, free, own, live := s.blocks, s.free, s.own, s.live;
    LiveInRange(d, free, own, live);
    var found := FindInode(s, inum);
    if found.None? {
      return -1;
    }
    var node := found.value;
    var num_blo := Size(node) / DB_SIZE;
    if Size(node) % DB_SIZE != 0 {
      num_blo := num_blo + 1;
    }
    FreeBlocks(s, node, num_blo, inum);
    ghost var d1 := s.blocks;
    s.live := live - {inum, 2 * inum};
    s.own := OwnOf(own, s.live);
    RestFs(d, d1, s.chain, free, s.free, own, live, inum, s.live);
    Unmark(s, inum);
    FreedFrom(d, d1, s.blocks, s.chain, free, s.free, own, live, inum);
    status := 0;
  }

  // The end of inode_free.
  method Unmark(s: Device, inum: nat)
    requires FreeList.Records(s.blocks, s.chain, s.free) && FsOk(s.blocks, s.free, s.own, s.live)
    requires inum < HALF && 2 * inum !in s.live
    modifies s.log, s`blocks
    ensures Fs(s)
    ensures Unmarks(old(s.blocks), s.blocks, inum, s.live)
  {
    ghost var d := s.blocks;
    MarkIndex(inum);
    var bitmap_num := inum / DB_SIZE;
    var bitmap_off := inum % DB_SIZE;
    var bitmap := DbRead(s, START_BITMAP + bitmap_num);
    var _ := DbWrite(s, WithByte(bitmap.value, inum + bitmap_off, 0), START_BITMAP + bitmap_num);
    MarkFs(d, s.blocks, s.chain, s.free, s.own, s.live, 2 * inum, 0);
  }

  ghost predicate FreedInode(d: Disk, free: set<nat>, own: Owners, live: set<nat>,
                             d': Disk, free': set<nat>, own': Owners, live': set<nat>, inum: nat)
  {
    && live' == live - {inum, 2 * inum} && own' == OwnOf(own, live')
    && GaveFile(own, inum, BlocksOf(InodeAt(d, inum)), free, free')
    && (forall i :: 0 <= i < NUM_INODE ==> (InUse(d', i) <==> InUse(d, i) && i != 2 * inum))
    && (forall i :: 0 <= i < NUM_INODE ==> InodeAt(d', i) == InodeAt(d, i))
    && (forall i, r {:trigger Id(d', i, r)} :: i in live' ==> Id(d', i, r) == Id(d, i, r))
    && (forall id :: id in own' ==> W(d', id) == W(d, id))
    && (forall k :: 0 <= k < 24 && k != 1 && k != 17 ==> W(d', 0)[k] == W(d, 0)[k])
  }

  // The inodes that are left are untouched.
  lemma RestSame(d: Disk, d': Disk, free: set<nat>, free': set<nat>, own: Owners, live: set<nat>, inum: nat,
                 live': set<nat>)
    requires FsOk(d, free, own, live) && FreeList.OnlyFree(d, d', free') && (forall c :: c in free' ==> InData(d, c))
    requires live' <= live - {inum} && GaveFile(own, inum, BlocksOf(InodeAt(d, inum)), free, free')
    ensures FsOk(d', free', OwnOf(own, live'), live')
    ensures forall i, r {:trigger Id(d', i, r)} :: i in live' ==> Id(d', i, r) == Id(d, i, r)
    ensures forall id :: id in OwnOf(own, live') ==> W(d', id) == W(d, id)
    ensures forall i :: 0 <= i < NUM_INODE ==> InodeAt(d', i) == InodeAt(d, i) && (InUse(d', i) <==> InUse(d, i))
  {
    Open(d, free, own, live);
    var own' := OwnOf(own, live');
    assert OwnOk(d, own', live');
    assert LiveOk(d, live');
    UntouchedIds(d, d', own', live');
    MarkedLive(d, d', live');
    forall i | 0 <= i < NUM_INODE
      ensures InodeAt(d', i) == InodeAt(d, i) && (InUse(d', i) <==> InUse(d, i))
    {
      TableRange(i);
    }
    Close(d', free', own', live');
  }

  lemma RestFs(d: Disk, d': Disk, chain: seq<nat>, free: set<nat>, free': set<nat>, own: Owners, live: set<nat>,
               inum: nat, live': set<nat>)
    requires FsOk(d, free, own, live) && FreeList.OnlyFree(d, d', free') && FreeList.Records(d', chain, free')
    requires live' <= live - {inum} && GaveFile(own, inum, BlocksOf(InodeAt(d, inum)), free, free')
    ensures FsOk(d', free', OwnOf(own, live'), live')
  {
    FreeList.RecordsFacts(d', chain, free');
    RestSame(d, d', free, free', own, live, inum, live');
  }

  // From the state d1 where the blocks are released, only one mark changes.
  ghost predicate Unmarks(d1: Disk, d': Disk, inum: nat, live': set<nat>)
  {
    && (forall i :: 0 <= i < NUM_INODE ==> (InUse(d', i) <==> InUse(d1, i) && i != 2 * inum))
    && (forall i :: 0 <= i < NUM_INODE ==> InodeAt(d', i) == InodeAt(d1, i))
    && (forall i, r {:trigger Id(d', i, r)} :: i in live' ==> Id(d', i, r) == Id(d1, i, r))
    && (forall b :: b == 0 || b >= START_DATA_BLOCK ==> W(d', b) == W(d1, b))
  }

  lemma FreedFrom(d: Disk, d1: Disk, d': Disk, chain: seq<nat>, free: set<nat>, free': set<nat>,
                  own: Owners, live: set<nat>, inum: nat)
    requires FsOk(d, free, own, live) && FreeList.OnlyFree(d, d1, free') && FreeList.Records(d1, chain, free')
    requires GaveFile(own, inum, BlocksOf(InodeAt(d, inum)), free, free')
    requires Unmarks(d1, d', inum, live - {inum, 2 * inum})
    ensures var live' := live - {inum, 2 * inum};
      FreedInode(d, free, own, live, d', free', OwnOf(own, live'), live', inum)
  {
    var live' := live - {inum, 2 * inum};
    assert forall c :: c in free' ==> InData(d1, c) by { FreeList.RecordsFacts(d1, chain, free'); }
    LiveInRange(d, free, own, live);
    assert forall id :: id in own ==> InData(d, id) by { Open(d, free, own, live); }
    RestSame(d, d1, free, free', own, live, inum, live');
    forall i, r | i in live'
      ensures Id(d', i, r) == Id(d, i, r)
    {
      assert Id(d1, i, r) == Id(d, i, r);
    }
  }

  // ---------- inode_allocate ----------

  lemma MarkPlace(inum: nat, curr: nat, i: nat)
    requires i < DB_SIZE && inum == i + curr * DB_SIZE
    ensures inum / DB_SIZE == curr && inum % DB_SIZE == i
  {
  }

  // Marks of the first i inodes of bitmap block curr.
  lemma BlockMarks(d: Disk, curr: nat, bitmap: Block, i: nat)
    requires bitmap == Bytes(W(d, START_BITMAP + curr)) && i <= DB_SIZE && forall k :: 0 <= k < i ==> bitmap[k] != 0
    ensures forall k :: curr * DB_SIZE <= k < curr * DB_SIZE + i ==> InUse(d, k)
  {
    forall k | curr * DB_SIZE <= k < curr * DB_SIZE + i
      ensures InUse(d, k)
    {
      MarkPlace(k, curr, k - curr * DB_SIZE);
    }
  }

  // The first empty byte of a bitmap block.
  method FirstEmpty(bitmap: Block) returns (i: nat)
    ensures i <= DB_SIZE && (i < DB_SIZE ==> bitmap[i] == 0) && forall k :: 0 <= k < i ==> bitmap[k] != 0
  {
    i := 0;
    while i < DB_SIZE && bitmap[i] != 0
      invariant i <= DB_SIZE && forall k :: 0 <= k < i ==> bitmap[k] != 0
    {
      i := i + 1;
    }
  }

  // find_free_inode: the first unmarked inode, which gets marked.
  method FindFreeInode(s: Device) returns (r: Option<nat>)
    requires Sized(s.blocks)
    modifies s.log, s`blocks
    ensures r.None? ==> s.blocks == old(s.blocks) && forall i :: 0 <= i < NUM_INODE ==> InUse(s.blocks, i)
    ensures r.Some? ==> r.value < NUM_INODE && !InUse(old(s.blocks), r.value)
    ensures r.Some? ==> forall i :: 0 <= i < r.value ==> InUse(old(s.blocks), i)
    ensures r.Some? ==>
      var b, k := START_BITMAP + r.value / DB_SIZE, r.value % DB_SIZE;
      s.blocks == old(s.blocks)[b := WithByte(W(old(s.blocks), b), k, 1)]
  {
    for curr := 0 to START_ILIST - START_BITMAP
      invariant s.blocks == old(s.blocks) && forall k :: 0 <= k < curr * DB_SIZE ==> InUse(s.blocks, k)
    {
      var bitmap := DbRead(s, START_BITMAP + curr);
      var i := FirstEmpty(Bytes(bitmap.value));
      BlockMarks(s.blocks, curr, Bytes(bitmap.value), i);
      if i < DB_SIZE {
        MarkPlace(i + curr * DB_SIZE, curr, i);
        var _ := DbWrite(s, WithByte(bitmap.value, i, 1), START_BITMAP + curr);
        return Some(i + curr * DB_SIZE);
      }
    }
    r := None;
  }

  // The record of a new, empty inode.
  predicate Blank(n: Inode)
  {
    Size(n) == 0 && forall w :: DIRECT <= w <= TRIPLE ==> n[w] == 0
  }

  lemma BlankIds(d: Disk, inum: nat)
    requires Blank(InodeAt(d, inum))
    ensures forall r {:trigger Id(d, inum, r)} :: Id(d, inum, r) == 0
    ensures Shape(d, inum, 0)
  {
    var n := InodeAt(d, inum);
    assert n[SINGLE] == 0 && n[DOUBLE] == 0;
    forall r
      ensures Id(d, inum, r) == 0
    {
      if r.Data? && r.num < FIRST_SINGLE { assert n[DIRECT + r.num] == 0; }
    }
  }

  // A new inode joins the live ones.
  lemma BlankFs(d: Disk, d': Disk, chain: seq<nat>, free: set<nat>, own: Owners, live: set<nat>, inum: nat, n: Inode)
    requires FreeList.Records(d, chain, free) && FsOk(d, free, own, live) && inum < NUM_INODE && inum !in live
    requires InUse(d, inum) && Stored(d, d', inum, n) && Blank(n)
    ensures FreeList.Records(d', chain, free) && FsOk(d', free, own, live + {inum})
    ensures forall i, r {:trigger Id(d', i, r)} :: i in live ==> Id(d', i, r) == Id(d, i, r)
    ensures forall b :: b == 0 || b >= START_DATA_BLOCK ==> W(d', b) == W(d, b)
    ensures forall i :: 0 <= i < NUM_INODE ==> (InUse(d', i) <==> InUse(d, i))
  {
    FreeList.RecordsFacts(d, chain, free);
    TableRange(inum);
    FreeList.RecordsFrame(d, d', chain, free);
    LiveInRange(d, free, own, live);
    MarksKept(d, d', inum, n);
    MarkedFs(d, d', free, own, live);
    BlankIds(d', inum);
    BlankJoins(d', free, own, live, inum);
  }

  lemma MarksKept(d: Disk, d': Disk, inum: nat, n: Inode)
    requires inum < NUM_INODE && Stored(d, d', inum, n) && START_DATA_BLOCK <= |d|
    ensures forall i :: 0 <= i < NUM_INODE ==> (InUse(d', i) <==> InUse(d, i))
  {
    TableRange(inum);
    forall i | 0 <= i < NUM_INODE
      ensures InUse(d', i) <==> InUse(d, i)
    {
      TableRange(i);
    }
  }

  lemma BlankJoins(d: Disk, free: set<nat>, own: Owners, live: set<nat>, inum: nat)
    requires FsOk(d, free, own, live) && inum < NUM_INODE && InUse(d, inum) && Blank(InodeAt(d, inum))
    requires forall r {:trigger Id(d, inum, r)} :: Id(d, inum, r) == 0
    ensures FsOk(d, free, own, live + {inum})
  {
    Open(d, free, own, live);
    assert Mapped(d, inum);
    Close(d, free, own, live + {inum});
  }

  // The record that inode_allocate stores; owner and time are read from the environment.
  predicate NewRecord(n: Inode, uid: Word, gid: Word, now: (Word, Word))
  {
    && Blank(n) && n[LINK_COUNT] == 1 && n[MODE] == 0x1B6 && n[UID] == uid && n[GID] == gid
    && n[ACCESSED] == n[MODIFIED] == now.0 && n[ACCESSED + 1] == n[MODIFIED + 1] == now.1
  }

  // Its block references are zeroed.
  method ClearRefs(node: Inode) returns (n: Inode)
    ensures forall w :: 0 <= w < INODE_WORDS ==> n[w] == if DIRECT <= w <= TRIPLE then 0 else node[w]
  {
    n := node;
    for i := 0 to DIR_ID_NUM
      invariant forall w :: 0 <= w < INODE_WORDS ==> n[w] == if DIRECT <= w < DIRECT + i then 0 else node[w]
    {
      n := n[DIRECT + i := 0];
    }
    n := n[SINGLE := 0][DOUBLE := 0][TRIPLE := 0];
  }

  // Its other fields are set.
  function Stamped(n: Inode, now: (Word, Word)): (n': Inode)
    ensures n'[MODE] == 0x1B6 && n'[LINK_COUNT] == 1
    ensures n'[ACCESSED] == n'[MODIFIED] == now.0 && n'[ACCESSED + 1] == n'[MODIFIED + 1] == now.1
  {
    n[MODE := 0x1B6][LINK_COUNT := 1]
      [ACCESSED := now.0][ACCESSED + 1 := now.1][MODIFIED := now.0][MODIFIED + 1 := now.1]
  }

  method Reset(node: Inode, uid: Word, gid: Word, now: (Word, Word)) returns (n: Inode)
    ensures NewRecord(n, uid, gid, now)
  {
    n := Stamped(node, now);
    n := WithSize(n, 0);
    n := n[UID := uid][GID := gid];
    ghost var was := n;
    n := ClearRefs(n);
    assert Size(n) == Size(was);
  }

  // The marked inode with its new record joins the live ones.
  lemma AllocatedInode(d: Disk, d1: Disk, d': Disk, chain: seq<nat>, free: set<nat>, own: Owners,
                       live: set<nat>, inum: nat, n: Inode)
    requires FreeList.Records(d, chain, free) && FsOk(d, free, own, live) && inum < NUM_INODE && !InUse(d, inum)
    requires forall i :: 0 <= i < inum ==> InUse(d, i)
    requires var b := START_BITMAP + inum / DB_SIZE; b < |d| && d1 == d[b := WithByte(W(d, b), inum % DB_SIZE, 1)]
    requires Stored(d1, d', inum, n) && Blank(n)
    ensures FreeList.Records(d', chain, free) && FsOk(d', free, own, live + {inum})
    ensures NewInode(d, live, d', live + {inum}, inum)
  {
    LiveInRange(d, free, own, live);
    MarkFs(d, d1, chain, free, own, live, inum, 1);
    BlankFs(d1, d', chain, free, own, live, inum, n);
    NewInodeFrom(d, d1, d', free, own, live, inum, n);
  }

  lemma NewInodeFrom(d: Disk, d1: Disk, d': Disk, free: set<nat>, own: Owners, live: set<nat>,
                     inum: nat, n: Inode)
    requires FsOk(d, free, own, live) && inum < NUM_INODE && inum !in live && !InUse(d, inum) && Stored(d1, d', inum, n)
    requires Blank(n)
    requires forall i :: 0 <= i < inum ==> InUse(d, i)
    requires forall i :: 0 <= i < NUM_INODE ==> (InUse(d1, i) <==> InUse(d, i) || i == inum)
    requires forall i :: 0 <= i < NUM_INODE ==> InodeAt(d1, i) == InodeAt(d, i)
    requires forall i :: 0 <= i < NUM_INODE ==> (InUse(d', i) <==> InUse(d1, i))
    requires forall i, r {:trigger Id(d1, i, r)} :: i in live ==> Id(d1, i, r) == Id(d, i, r)
    requires forall i, r {:trigger Id(d', i, r)} :: i in live ==> Id(d', i, r) == Id(d1, i, r)
    requires forall b :: b == 0 || b >= START_DATA_BLOCK ==> W(d1, b) == W(d, b)
    requires forall b :: b == 0 || b >= START_DATA_BLOCK ==> W(d', b) == W(d1, b)
    ensures NewInode(d, live, d', live + {inum}, inum)
  {
    LiveInRange(d, free, own, live);
    forall i, r | i in live
      ensures Id(d', i, r) == Id(d, i, r)
    {
      assert Id(d1, i, r) == Id(d, i, r);
    }
  }

  // inode_allocate
  method InodeAllocate(s: Device, uid: Word, gid: Word, now: (Word, Word)) returns (r: Option<nat>)
    requires Fs(s)
    modifies s.log, s`blocks, s`live
    ensures Fs(s) && (r.None? <==> forall i :: 0 <= i < NUM_INODE ==> InUse(old(s.blocks), i))
    ensures r.None? ==> s.blocks == old(s.blocks) && s.live == old(s.live)
    ensures r.Some? ==> NewInode(old(s.blocks), old(s.live), s.blocks, s.live, r.value)
    ensures r.Some? ==> NewRecord(InodeAt(s.blocks, r.value), uid, gid, now)
  {
    ghost var d, live := s.blocks, s.live;
    r := FindFreeInode(s);
    if r.None? {
      return;
    }
    var inum := r.value;
    ghost var d1 := s.blocks;
    ByteMarks(d, d1, inum, 1, inum);
    var found := FindInode(s, inum);
    var node := Reset(found.value, uid, gid, now);
    Install(s, inum, node, d);
  }

  // Its end: the record is written.
  method Install(s: Device, inum: nat, node: Inode, ghost d: Disk)
    requires FreeList.Records(d, s.chain, s.free) && FsOk(d, s.free, s.own, s.live) && inum < NUM_INODE
    requires !InUse(d, inum)
    requires forall i :: 0 <= i < inum ==> InUse(d, i)
    requires var b := START_BITMAP + inum / DB_SIZE; b < |d| && s.blocks == d[b := WithByte(W(d, b), inum % DB_SIZE, 1)]
    requires Blank(node)
    modifies s.log, s`blocks, s`live
    ensures Fs(s) && NewInode(d, old(s.live), s.blocks, s.live, inum) && InodeAt(s.blocks, inum) == node
  {
    ghost var d1, live := s.blocks, s.live;
    var _ := WriteInode(s, inum, node);
    AllocatedInode(d, d1, s.blocks, s.chain, s.free, s.own, live, inum, node);
    s.live := live + {inum};
  }

  // inum is new, live and empty; all else is as before.
  ghost predicate NewInode(d: Disk, live: set<nat>, d': Disk, live': set<nat>, inum: nat)
  {
    && inum < NUM_INODE && !InUse(d, inum) && (forall i :: 0 <= i < inum ==> InUse(d, i))
    && inum !in live && live' == live + {inum} && Blank(InodeAt(d', inum))
    && (forall i :: 0 <= i < NUM_INODE ==> (InUse(d', i) <==> InUse(d, i) || i == inum))
    && (forall i :: 0 <= i < NUM_INODE && i != inum ==> InodeAt(d', i) == InodeAt(d, i))
    && (forall i, r {:trigger Id(d', i, r)} :: i in live ==> Id(d', i, r) == Id(d, i, r))
    && (forall b :: b == 0 || b >= START_DATA_BLOCK ==> W(d', b) == W(d, b))
  }
}
