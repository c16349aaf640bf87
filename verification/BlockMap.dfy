// Growing and shrinking the block map of an inode (inode.c), and the invariant of the whole file system.

module BlockMap {
  import opened Blocks
  import opened Store
  import opened Inodes
  import opened Ownership
  import FreeList

  // Every block number below ceil(size / blocksize) has a block, none of them in the triple indirect region.
  ghost predicate Mapped(d: Disk, inum: nat)
  {
    var n := BlocksOf(InodeAt(d, inum));
    n <= FIRST_TRIPLE && InodeAt(d, inum)[TRIPLE] == 0 && forall k {:trigger Data(k)} :: 0 <= k < n ==>
      Id(d, inum, Data(k)) != 0
  }

  // The invariant of the block maps: exact ownership, disjoint from the free blocks, and every size covered.
  ghost predicate FsOk(d: Disk, free: set<nat>, own: Owners, live: set<nat>)
  {
    && Sized(d)
    && own.Keys !! free
    && (forall w {:trigger FreeList.Unsealed(w)} :: FreeList.Unsealed(w) ==> OwnOk(d, own, live) && LiveOk(d, live))
  }

  // The definition is sealed; these two open and close it.
  lemma Open(d: Disk, free: set<nat>, own: Owners, live: set<nat>)
    requires FsOk(d, free, own, live)
    ensures OwnOk(d, own, live) && LiveOk(d, live)
  {
    assert FreeList.Unsealed(true);
  }

  lemma OpenOwn(d: Disk, free: set<nat>, own: Owners, live: set<nat>)
    requires FsOk(d, free, own, live)
    ensures OwnOk(d, own, live)
  {
    assert FreeList.Unsealed(true);
  }

  lemma Close(d: Disk, free: set<nat>, own: Owners, live: set<nat>)
    requires Sized(d) && OwnOk(d, own, live) && own.Keys !! free && LiveOk(d, live)
    ensures FsOk(d, free, own, live)
  {
  }

  // The invariant of a device: that, and a well-formed free list.
  ghost predicate Fs(s: Device)
    reads s
  {
    FreeList.Records(s.blocks, s.chain, s.free) && FsOk(s.blocks, s.free, s.own, s.live)
  }

  // Live inodes are marked in the bitmap and their sizes are covered.
  ghost predicate LiveOk(d: Disk, live: set<nat>)
  {
    forall i {:trigger InodeAt(d, i)} {:trigger i in live} :: i in live ==> i < NUM_INODE && InUse(d, i) && Mapped(d, i)
  }

  // The references of an inode with exactly n mapped blocks and no others.
  predicate Within(r: Ref, n: nat)
  {
    match r
    case Data(k) => k < n
    case Single => FIRST_SINGLE < n
    case Double => FIRST_DOUBLE < n
    case Ind(j) => j < INDIR_ID_NUM && FIRST_DOUBLE + INDIR_ID_NUM * j < n
  }

  ghost predicate Shape(d: Disk, inum: nat, n: nat)
  {
    forall r {:trigger Id(d, inum, r)} :: Id(d, inum, r) != 0 <==> Within(r, n)
  }

  // Blocks that mapping block number n takes: itself, and the index blocks it is the first to need.
  function Needed(n: nat): nat
  {
    1 + (if n == FIRST_SINGLE then 1 else 0) + (if n == FIRST_DOUBLE then 1 else 0)
      + (if FIRST_DOUBLE <= n && (n - FIRST_DOUBLE) % INDIR_ID_NUM == 0 then 1 else 0)
  }

  // d' agrees with d on every owned block and on the bitmap and inode table.
  ghost predicate Untouched(d: Disk, d': Disk, own: Owners)
  {
    && |d'| == |d| && FreeList.SameSuper(d, d')
    && (forall b :: 0 < b < START_DATA_BLOCK && b < |d| ==> d'[b] == d[b])
    && (forall id :: id in own ==> W(d', id) == W(d, id))
  }

  lemma UntouchedIds(d: Disk, d': Disk, own: Owners, live: set<nat>)
    requires OwnOk(d, own, live) && Untouched(d, d', own) && Sized(d) && forall i :: i in live ==> i < NUM_INODE
    ensures OwnOk(d', own, live)
    ensures forall i :: i in live ==> InodeAt(d', i) == InodeAt(d, i) && (InUse(d', i) <==> InUse(d, i))
    ensures forall i, r {:trigger Id(d', i, r)} :: i in live ==> Id(d', i, r) == Id(d, i, r)
  {
    forall i | i in live
      ensures InodeAt(d', i) == InodeAt(d, i) && (InUse(d', i) <==> InUse(d, i))
      ensures forall r :: Id(d', i, r) == Id(d, i, r)
    {
      TableRange(i);
      SameIds(d, d', own, live, i);
    }
  }

  // Allocating and releasing free blocks leaves every inode alone.
  lemma OnlyFreeFs(d: Disk, d': Disk, free: set<nat>, free': set<nat>, own: Owners, live: set<nat>)
    requires FsOk(d, free, own, live) && FreeList.OnlyFree(d, d', free) && free' <= free
    requires forall c :: c in free ==> InData(d, c)
    ensures FsOk(d', free', own, live) && Untouched(d, d', own)
    ensures forall i :: i in live ==> InodeAt(d', i) == InodeAt(d, i)
    ensures forall i, r {:trigger Id(d', i, r)} :: i in live ==> Id(d', i, r) == Id(d, i, r)
  {
    Open(d, free, own, live);
    UntouchedIds(d, d', own, live);
  }

  // ---------- one reference, whole invariant ----------

  // d' keeps the superblock and the bitmap of d.
  ghost predicate KeepsHead(d: Disk, d': Disk)
  {
    |d'| == |d| && forall b :: 0 <= b < START_ILIST && b < |d| ==> d'[b] == d[b]
  }

  // The bitmap is the same, and so is the superblock but for the two fields of the free list.  Sealed by Headed.
  ghost predicate SameHead(d: Disk, d': Disk)
  {
    forall w {:trigger Headed(w)} :: Headed(w) ==>
      && |d'| == |d| && (forall i :: 0 <= i < 24 && i != 1 && i != 17 ==> W(d', 0)[i] == W(d, 0)[i])
      && forall b :: 1 <= b < 11 ==> W(d', b) == W(d, b)
  }

  ghost predicate Headed(w: bool)
  {
    true
  }

  lemma HeadThen(d: Disk, d1: Disk, d2: Disk)
    requires SameHead(d, d1) && SameHead(d1, d2)
    ensures SameHead(d, d2)
  {
    assert Headed(true);
  }

  lemma KeptHead(d: Disk, d': Disk)
    requires KeepsHead(d, d')
    ensures SameHead(d, d')
  {
  }

  lemma UntouchedHead(d: Disk, d': Disk, own: Owners)
    requires Untouched(d, d', own)
    ensures SameHead(d, d')
  {
  }

  lemma StoredHead(d: Disk, d': Disk, inum: nat, n: Inode)
    requires Stored(d, d', inum, n) && inum < NUM_INODE
    ensures SameHead(d, d')
  {
    TableRange(inum);
  }

  // Mode, owner, group, times, triple indirect pointer and link count of a record.
  predicate SameAttributes(n: Inode, n': Inode)
  {
    forall w :: 0 <= w < 26 && w != 4 && w != 5 && !(10 <= w < 24) ==> n'[w] == n[w]
  }

  // The effect of setting reference q of inum to x on every reference.
  ghost predicate IdsAfter(d: Disk, d': Disk, live: set<nat>, inum: nat, q: Ref, x: nat)
  {
    forall i, r {:trigger Id(d', i, r)} :: i in live ==>
      Id(d', i, r) == if i != inum then Id(d, i, r) else if r == q then x else if Under(r, q) then 0 else Id(d, i, r)
  }

  // The record keeps everything but its block references.
  predicate SameMeta(n: Inode, n': Inode)
  {
    forall w :: 0 <= w < INODE_WORDS && !(DIRECT <= w < TRIPLE) ==> n'[w] == n[w]
  }

  lemma SameMetaSize(n: Inode, n': Inode)
    requires SameMeta(n, n')
    ensures Size(n') == Size(n) && BlocksOf(n') == BlocksOf(n)
  {
  }

  lemma MappedAfter(d: Disk, d': Disk, live: set<nat>, inum: nat, q: Ref, x: nat, i: nat)
    requires i in live && Mapped(d, i) && IdsAfter(d, d', live, inum, q, x)
    requires SameMeta(InodeAt(d, i), InodeAt(d', i))
    requires i == inum ==> forall k :: 0 <= k < BlocksOf(InodeAt(d, inum)) ==>
      !Under(Data(k), q) && (x == 0 ==> q != Data(k))
    ensures Mapped(d', i)
  {
    SameMetaSize(InodeAt(d, i), InodeAt(d', i));
    forall k | 0 <= k < BlocksOf(InodeAt(d, i))
      ensures Id(d', i, Data(k)) != 0
    {
      assert Id(d, i, Data(k)) != 0;
    }
  }

  lemma RefSetMeta(d: Disk, d': Disk, own: Owners, live: set<nat>, inum: nat, q: Ref, x: nat)
    requires RefSet(d, d', own, live, inum, q, x)
    ensures SameMeta(InodeAt(d, inum), InodeAt(d', inum))
    ensures forall i :: i in live ==> SameMeta(InodeAt(d, i), InodeAt(d', i))
  {
  }

  lemma LiveAfter(d: Disk, d': Disk, live: set<nat>, inum: nat, q: Ref, x: nat)
    requires LiveOk(d, live) && IdsAfter(d, d', live, inum, q, x)
    requires START_ILIST <= |d| == |d'| && forall b :: START_BITMAP <= b < START_ILIST ==> d'[b] == d[b]
    requires forall i :: i in live ==> SameMeta(InodeAt(d, i), InodeAt(d', i))
    requires inum in live ==> forall k :: 0 <= k < BlocksOf(InodeAt(d, inum)) ==>
      !Under(Data(k), q) && (x == 0 ==> q != Data(k))
    ensures LiveOk(d', live)
  {
    forall i | i in live
      ensures InUse(d', i) && Mapped(d', i)
    {
      TableRange(i);
      MappedAfter(d, d', live, inum, q, x, i);
    }
  }

  // Setting one reference keeps the invariant as long as no mapped block is lost.
  lemma RefSetFs(d: Disk, d': Disk, free: set<nat>, own: Owners, live: set<nat>, inum: nat, q: Ref, x: nat)
    requires FsOk(d, free, own, live) && inum in live && RefSet(d, d', own, live, inum, q, x)
    requires KeepsHead(d, d') && x !in own && (x != 0 ==> InData(d, x) && x !in free)
    requires forall k :: 0 <= k < BlocksOf(InodeAt(d, inum)) ==> !Under(Data(k), q) && (x == 0 ==> q != Data(k))
    ensures FsOk(d', free, OwnSet(own, inum, q, x), live) && IdsAfter(d, d', live, inum, q, x)
    ensures SameMeta(InodeAt(d, inum), InodeAt(d', inum))
  {
    Open(d, free, own, live);
    RefSetOpen(d, d', own, live, inum, q, x);
    OwnSetFree(own, inum, q, x, free);
    Close(d', free, OwnSet(own, inum, q, x), live);
  }

  lemma OwnSetFree(own: Owners, inum: nat, q: Ref, x: nat, free: set<nat>)
    requires own.Keys !! free && (x != 0 ==> x !in free)
    ensures OwnSet(own, inum, q, x).Keys !! free
  {
  }

  // The same with the definition opened.
  lemma RefSetOpen(d: Disk, d': Disk, own: Owners, live: set<nat>, inum: nat, q: Ref, x: nat)
    requires Sized(d) && OwnOk(d, own, live) && LiveOk(d, live) && inum in live && RefSet(d, d', own, live, inum, q, x)
    requires KeepsHead(d, d') && x !in own && (x != 0 ==> InData(d, x))
    requires forall k :: 0 <= k < BlocksOf(InodeAt(d, inum)) ==> !Under(Data(k), q) && (x == 0 ==> q != Data(k))
    ensures Sized(d') && OwnOk(d', OwnSet(own, inum, q, x), live) && LiveOk(d', live)
    ensures IdsAfter(d, d', live, inum, q, x) && SameMeta(InodeAt(d, inum), InodeAt(d', inum))
  {
    assert Sized(d') && NumBlock(d') == NumBlock(d);
    RefSetAllIds(d, d', own, live, inum, q, x);
    RefSetOwn(d, d', own, live, inum, q, x);
    RefSetMeta(d, d', own, live, inum, q, x);
    LiveAfter(d, d', live, inum, q, x);
  }

  // ---------- lookup ----------

  // The index blocks on the way to block number num exist.
  predicate Reachable(d: Disk, inum: nat, num: nat)
  {
    ReachableFrom(d, InodeAt(d, inum), num)
  }

  predicate ReachableFrom(d: Disk, n: Inode, num: nat)
  {
    && (FIRST_SINGLE <= num < FIRST_DOUBLE ==> InData(d, n[SINGLE]))
    && (FIRST_DOUBLE <= num < FIRST_TRIPLE ==> InData(d, n[DOUBLE]) && InData(d, Entry(d, n[DOUBLE], Outer(num))))
  }

  lemma MappedReachable(d: Disk, own: Owners, live: set<nat>, inum: nat, num: nat)
    requires OwnOk(d, own, live) && inum in live && Id(d, inum, Data(num)) != 0
    ensures Reachable(d, inum, num) && num < FIRST_TRIPLE
    ensures var id := Id(d, inum, Data(num)); id in own && own[id] == Owner(inum, Data(num)) && InData(d, id)
    ensures FIRST_SINGLE <= num < FIRST_DOUBLE ==>
      var id := Id(d, inum, Single); id == InodeAt(d, inum)[SINGLE] && id in own && own[id] == Owner(inum, Single)
    ensures FIRST_DOUBLE <= num ==>
      var id := Id(d, inum, Double); id == InodeAt(d, inum)[DOUBLE] && id in own && own[id] == Owner(inum, Double)
    ensures FIRST_DOUBLE <= num ==>
      var id := Id(d, inum, Ind(Outer(num)));
      id == CellBlock(d, InodeAt(d, inum), Data(num)) && id in own && own[id] == Owner(inum, Ind(Outer(num)))
  {
    var n := InodeAt(d, inum);
    assert Id(d, inum, Single) == n[SINGLE] && Id(d, inum, Double) == n[DOUBLE];
    if FIRST_DOUBLE <= num {
      assert Id(d, inum, Ind(Outer(num))) == Entry(d, n[DOUBLE], Outer(num));
    }
  }

  // db_read into a buffer that keeps what it held if the id is refused, as callers that ignore the status do.
  method ReadInto(s: Device, b: nat, block: WordBlock) returns (r: WordBlock)
    requires Sized(s.blocks)
    modifies s.log
    ensures r == if b <= NumBlock(s.blocks) then s.blocks[b] else block
  {
    var data := DbRead(s, b);
    r := if data.Some? then data.value else block;
  }

  // The word that a lookup comes up with, mapped or not.  In place of an index block that is missing block 0 is read;
  // one that db_read refuses leaves the double indirect block in the buffer.
  function Looked(d: Disk, n: Inode, num: nat): Word
    requires num < FIRST_TRIPLE
  {
    if num < FIRST_SINGLE then n[DIRECT + num]
    else if num < FIRST_DOUBLE then W(d, n[SINGLE])[num - FIRST_SINGLE]
    else
      var row := W(d, n[DOUBLE])[Outer(num)];
      W(d, if row <= NumBlock(d) then row else n[DOUBLE])[Inner(num)]
  }

  // Numbers below 12 are in the record, the next 1024 in the single indirect block, and the rest in 1024 rows of 1024.
  lemma LookedAt(d: Disk, n: Inode, num: nat)
    requires num < 12 + 1024 + 1024 * 1024
    ensures num < 12 ==> Looked(d, n, num) == n[10 + num]
    ensures 12 <= num < 1036 ==> Looked(d, n, num) == W(d, n[22])[num - 12]
    ensures num >= 1036 && W(d, n[23])[(num - 1036) / 1024] <= NumBlock(d) ==>
      Looked(d, n, num) == W(d, W(d, n[23])[(num - 1036) / 1024])[(num - 1036) % 1024]
  {
  }

  // The first index block on the way, or block 0 in its place, can be read.
  predicate Readable(d: Disk, n: Inode)
  {
    n[SINGLE] <= NumBlock(d) && n[DOUBLE] <= NumBlock(d)
  }

  // For a number whose index blocks exist it is the reference.
  lemma LookedId(d: Disk, inum: nat, num: nat)
    requires Reachable(d, inum, num) && num < FIRST_TRIPLE
    ensures Looked(d, InodeAt(d, inum), num) == Id(d, inum, Data(num))
  {
  }

  // find_block_by_num, up to the end of the double indirect region.
  method FindBlock(s: Device, inum: nat, num: int) returns (r: Option<nat>)
    requires Sized(s.blocks) && inum < NUM_INODE && InUse(s.blocks, inum) && num < FIRST_TRIPLE
    modifies s.log
    ensures r.None? <==> num < 0
    ensures r.Some? ==>
      r.value <= UINT_MAX && (Reachable(s.blocks, inum, num) ==> r.value == Id(s.blocks, inum, Data(num)))
    ensures var n := InodeAt(s.blocks, inum); r.Some? && Readable(s.blocks, n) ==> r.value == Looked(s.blocks, n, num)
  {
    if num < 0 {
      return None;
    }
    var node := FindInode(s, inum);
    var bid := Lookup(s, node.value, num);
    r := Some(bid);
  }

  // Its branches.
  method Lookup(s: Device, node: Inode, num: nat) returns (bid: Word)
    requires Sized(s.blocks) && num < FIRST_TRIPLE
    modifies s.log
    ensures ReachableFrom(s.blocks, node, num) ==> bid == IdAt(s.blocks, node, Data(num))
    ensures Readable(s.blocks, node) ==> bid == Looked(s.blocks, node, num)
  {
    var block: WordBlock :| true;
    if num < DIR_ID_NUM {
      bid := node[DIRECT + num];
    } else if num < DIR_ID_NUM + INDIR_ID_NUM {
      var index := num - DIR_ID_NUM;
      block := ReadInto(s, node[SINGLE], block);
      bid := block[index];
    } else {
      var d_index := (num - DIR_ID_NUM - INDIR_ID_NUM) / INDIR_ID_NUM;
      var index := (num - DIR_ID_NUM - INDIR_ID_NUM) % INDIR_ID_NUM;
      block := ReadTwo(s, node[DOUBLE], d_index, block);
      bid := block[index];
    }
  }

  // The index block that entry d_index of block b points to, read in the same way.
  method ReadTwo(s: Device, b: nat, d_index: nat, block: WordBlock) returns (r: WordBlock)
    requires Sized(s.blocks) && d_index < ENTRIES
    modifies s.log
    ensures InData(s.blocks, b) && InData(s.blocks, Entry(s.blocks, b, d_index)) ==>
      r == W(s.blocks, Entry(s.blocks, b, d_index))
    ensures b <= NumBlock(s.blocks) ==>
      var row := W(s.blocks, b)[d_index]; r == W(s.blocks, if row <= NumBlock(s.blocks) then row else b)
  {
    var outer := ReadInto(s, b, block);
    r := ReadInto(s, outer[d_index], outer);
  }

  // ---------- growing ----------

  function Zeros(): WordBlock
  {
    seq(ENTRIES, _ => 0)
  }

  // A new index block with one entry.
  function OneEntry(x: Word): WordBlock
  {
    Zeros()[0 := x]
  }

  // The reference stored first in the index block that q points to.
  function FirstUnder(q: Ref): Ref
    requires IsIndex(q) && RefOk(q)
  {
    match q
    case Single => Data(FIRST_SINGLE)
    case Double => Ind(0)
    case Ind(j) => Data(FIRST_DOUBLE + INDIR_ID_NUM * j)
  }

  lemma FirstUnderFacts(q: Ref)
    requires IsIndex(q) && RefOk(q)
    ensures var f := FirstUnder(q);
      RefOk(f) && CellIndex(f) == 0 && Under(f, q) && f != q &&
      (f.Data? ==> FIRST_SINGLE <= f.num) && !f.Single? && !f.Double?
    ensures Parent(FirstUnder(q)) == q
    ensures forall r :: Under(r, FirstUnder(q)) ==> Under(r, q)
  {
    if q.Ind? { assert (INDIR_ID_NUM * q.j) / INDIR_ID_NUM == q.j && (INDIR_ID_NUM * q.j) % INDIR_ID_NUM == 0; }
  }

  // Every reference after q gets a new index block x whose first entry is y.
  ghost predicate IdsAfterNew(d: Disk, d': Disk, live: set<nat>, inum: nat, q: Ref, x: nat, y: nat)
    requires IsIndex(q) && RefOk(q)
  {
    forall i, r {:trigger Id(d', i, r)} :: i in live ==>
      Id(d', i, r) == if i != inum then Id(d, i, r) else if r == q then x else if r == FirstUnder(q) then y
                      else if Under(r, q) then 0 else Id(d, i, r)
  }

  function OwnNew(own: Owners, inum: nat, q: Ref, x: nat, y: nat): Owners
    requires IsIndex(q) && RefOk(q)
  {
    OwnSet(OwnSet(own, inum, q, x), inum, FirstUnder(q), y)
  }

  // Ownership after the double indirect block b, its first row c and the first block x in it.
  function OwnDouble(own: Owners, inum: nat, b: nat, c: nat, x: nat): Owners
  {
    OwnSet(OwnNew(own, inum, Double, b, c), inum, Data(FIRST_DOUBLE), x)
  }

  ghost predicate Fresh(d: Disk, free: set<nat>, own: Owners, x: nat)
  {
    InData(d, x) && x !in own && x !in free
  }

  // A new index block x at q that holds y and nothing else.
  lemma NewIndex(d: Disk, d': Disk, free: set<nat>, own: Owners, live: set<nat>, inum: nat, q: Ref, x: nat, y: nat)
    requires FsOk(d, free, own, live) && inum in live && IsIndex(q) && RefOk(q)
    requires Fresh(d, free, own, x) && Fresh(d, free, own, y) && x != y && x < |d'|
    requires RefSet(d, d'[x := Zeros()], own, live, inum, q, x) && KeepsHead(d, d')
    requires W(d', x) == OneEntry(y) && (q.Double? ==> W(d', y) == Zeros())
    requires forall k :: 0 <= k < BlocksOf(InodeAt(d, inum)) ==> !Under(Data(k), q)
    ensures FsOk(d', free, OwnNew(own, inum, q, x, y), live) && IdsAfterNew(d, d', live, inum, q, x, y)
    ensures SameMeta(InodeAt(d, inum), InodeAt(d', inum))
  {
    var da := d'[x := Zeros()];
    Open(d, free, own, live);
    NewIndexFirst(d, d', free, own, live, inum, q, x, y);
    RefSetFs(d, da, free, own, live, inum, q, x);
    NotUnder(d, da, inum, q);
    assert Id(da, inum, q) == x;
    assert forall i :: i in live ==> i < NUM_INODE;
    NewIndexSecond(d, d', own, live, inum, q, x, y);
    RefSetFs(da, d', free, OwnSet(own, inum, q, x), live, inum, FirstUnder(q), y);
    IdsCompose(d, da, d', live, inum, q, x, y);
  }

  lemma IdsCompose(d: Disk, da: Disk, d': Disk, live: set<nat>, inum: nat, q: Ref, x: nat, y: nat)
    requires IsIndex(q) && RefOk(q)
    requires IdsAfter(d, da, live, inum, q, x) && IdsAfter(da, d', live, inum, FirstUnder(q), y)
    ensures IdsAfterNew(d, d', live, inum, q, x, y)
  {
    FirstUnderFacts(q);
    forall i, r | i in live
      ensures Id(d', i, r) == if i != inum then Id(d, i, r) else if r == q then x else if r == FirstUnder(q) then y
                      else if Under(r, q) then 0 else Id(d, i, r)
    {
      assert Id(da, i, r) == Id(da, i, r);
    }
  }

  lemma NewIndexFirst(d: Disk, d': Disk, free: set<nat>, own: Owners, live: set<nat>, inum: nat, q: Ref, x: nat, y: nat)
    requires IsIndex(q) && RefOk(q)
    requires Fresh(d, free, own, x) && Fresh(d, free, own, y) && x != y && x < |d'| && KeepsHead(d, d')
    ensures var da := d'[x := Zeros()];
      KeepsHead(d, da) && Fresh(da, free, OwnSet(own, inum, q, x), y) && KeepsHead(da, d')
  {
  }

  lemma NotUnder(d: Disk, da: Disk, inum: nat, q: Ref)
    requires IsIndex(q) && RefOk(q) && SameMeta(InodeAt(d, inum), InodeAt(da, inum))
    requires forall k :: 0 <= k < BlocksOf(InodeAt(d, inum)) ==> !Under(Data(k), q)
    ensures forall k :: 0 <= k < BlocksOf(InodeAt(da, inum)) ==> !Under(Data(k), FirstUnder(q))
  {
    FirstUnderFacts(q);
    SameMetaSize(InodeAt(d, inum), InodeAt(da, inum));
  }

  // Writing a data block leaves the inode table alone.
  lemma DataRecords(d: Disk, x: nat, ws: WordBlock, live: set<nat>)
    requires START_DATA_BLOCK <= x < |d| && forall i :: i in live ==> i < NUM_INODE
    ensures forall i {:trigger InodeAt(d[x := ws], i)} :: i in live ==> InodeAt(d[x := ws], i) == InodeAt(d, i)
  {
    forall i | i in live
      ensures InodeAt(d[x := ws], i) == InodeAt(d, i)
    {
      TableRange(i);
    }
  }

  lemma NewIndexSecond(d: Disk, d': Disk, own: Owners, live: set<nat>, inum: nat, q: Ref, x: nat, y: nat)
    requires inum in live && (forall i :: i in live ==> i < NUM_INODE) && IsIndex(q) && RefOk(q) && InData(d, x)
    requires x < |d'|
    requires Id(d'[x := Zeros()], inum, q) == x && y <= UINT_MAX && x != y
    requires W(d', x) == OneEntry(y) && (q.Double? ==> W(d', y) == Zeros())
    ensures RefSet(d'[x := Zeros()], d', OwnSet(own, inum, q, x), live, inum, FirstUnder(q), y)
  {
    FirstUnderFacts(q);
    DataRecords(d', x, Zeros(), live);
    assert CellBlock(d'[x := Zeros()], InodeAt(d'[x := Zeros()], inum), FirstUnder(q)) == x;
  }

  // Block number n is now x; what smaller numbers need and other inodes are as before; an exact shape stays exact.
  ghost predicate AddedIds(d: Disk, d': Disk, live: set<nat>, inum: nat, n: nat, x: nat)
  {
    && Id(d', inum, Data(n)) == x
    && (forall r {:trigger Id(d', inum, r)} :: Within(r, n) ==> Id(d', inum, r) == Id(d, inum, r))
    && (forall i, r {:trigger Id(d', i, r)} :: i in live && i != inum ==> Id(d', i, r) == Id(d, i, r))
    && (Shape(d, inum, n) ==> Shape(d', inum, n + 1))
  }

  // The reference to the index block that block number n is the first to need.
  function NewFor(n: nat): Ref
    requires n == FIRST_SINGLE || FIRST_DOUBLE <= n < FIRST_TRIPLE
  {
    if n == FIRST_SINGLE then Single else Ind(Outer(n))
  }

  lemma AddedCell(d: Disk, d': Disk, live: set<nat>, inum: nat, n: nat, x: nat)
    requires inum in live && n < FIRST_TRIPLE && Needed(n) == 1 && x != 0 && IdsAfter(d, d', live, inum, Data(n), x)
    ensures AddedIds(d, d', live, inum, n, x)
  {
    if Shape(d, inum, n) {
      forall r
        ensures Id(d', inum, r) != 0 <==> Within(r, n + 1)
      {
        assert Id(d, inum, r) != 0 <==> Within(r, n);
      }
    }
  }

  lemma AddedNew(d: Disk, d': Disk, live: set<nat>, inum: nat, n: nat, b: nat, x: nat)
    requires inum in live && n < FIRST_TRIPLE && Needed(n) == 2 && x != 0 && b != 0
    requires IdsAfterNew(d, d', live, inum, NewFor(n), b, x)
    ensures FirstUnder(NewFor(n)) == Data(n) && AddedIds(d, d', live, inum, n, x)
  {
    FirstUnderFacts(NewFor(n));
    if Shape(d, inum, n) {
      forall r
        ensures Id(d', inum, r) != 0 <==> Within(r, n + 1)
      {
        assert Id(d, inum, r) != 0 <==> Within(r, n);
      }
    }
  }

  // The first block of the double indirect region: double and single index blocks come with it.
  lemma AddedDouble(d: Disk, da: Disk, d': Disk, live: set<nat>, inum: nat, b: nat, c: nat, x: nat)
    requires inum in live && x != 0 && b != 0 && c != 0
    requires IdsAfterNew(d, da, live, inum, Double, b, c) && IdsAfter(da, d', live, inum, Data(FIRST_DOUBLE), x)
    ensures AddedIds(d, d', live, inum, FIRST_DOUBLE, x)
  {
    forall i, r | i in live
      ensures Id(d', i, r) == if i != inum then Id(d, i, r) else if r == Double then b else if r == Ind(0) then c
        else if r == Data(FIRST_DOUBLE) then x else if Under(r, Double) then 0 else Id(d, i, r)
    {
      assert Id(da, i, r) == Id(da, i, r);
    }
    if Shape(d, inum, FIRST_DOUBLE) {
      forall r
        ensures Id(d', inum, r) != 0 <==> Within(r, FIRST_DOUBLE + 1)
      {
        assert Id(d, inum, r) != 0 <==> Within(r, FIRST_DOUBLE);
      }
    }
  }

  // No block is recorded at q or under it.
  predicate Vacant(own: Owners, inum: nat, q: Ref)
  {
    forall id {:trigger own[id]} :: id in own ==> !Lost(own[id], inum, q)
  }

  // An exact shape records nothing at references outside it.
  lemma ShapeVacant(d: Disk, own: Owners, live: set<nat>, inum: nat, n: nat, q: Ref)
    requires OwnOk(d, own, live) && inum in live && Shape(d, inum, n)
    requires forall r :: r == q || Under(r, q) ==> !Within(r, n)
    ensures Vacant(own, inum, q)
  {
    assert !InData(d, 0);
    forall id | id in own && own[id].inum == inum
      ensures Within(own[id].ref, n)
    {
      assert Id(d, inum, own[id].ref) == id;
    }
  }

  // Setting a reference gives up only what it held and what lay under it.
  lemma OwnSetKeys(own: Owners, inum: nat, q: Ref, x: nat)
    requires x != 0
    ensures OwnSet(own, inum, q, x).Keys <= own.Keys + {x}
    ensures Vacant(own, inum, q) ==> OwnSet(own, inum, q, x).Keys == own.Keys + {x}
  {
  }

  lemma OwnNewKeys(own: Owners, inum: nat, q: Ref, b: nat, x: nat)
    requires IsIndex(q) && RefOk(q) && b != 0 && x != 0
    ensures OwnNew(own, inum, q, b, x).Keys <= own.Keys + {b, x}
    ensures Vacant(own, inum, q) ==> OwnNew(own, inum, q, b, x).Keys == own.Keys + {b, x}
  {
    FirstUnderFacts(q);
    var own1 := OwnSet(own, inum, q, b);
    OwnSetKeys(own, inum, q, b);
    OwnSetKeys(own1, inum, FirstUnder(q), x);
    if Vacant(own, inum, q) {
      forall id | id in own1
        ensures !Lost(own1[id], inum, FirstUnder(q))
      {
        assert id == b || own1[id] == own[id];
      }
    }
  }

  // From the state where x is allocated but unlinked: x becomes block number n of inum, at the cost of `extra` more
  // blocks.  Data blocks and other inodes are untouched.
  ghost predicate LinkedAll(d: Disk, free: set<nat>, own: Owners, d': Disk, free': set<nat>, own': Owners,
                            live: set<nat>, inum: nat, n: nat, x: nat, extra: nat)
  {
    var used := free - free';
    && FsOk(d', free', own', live) && AddedIds(d, d', live, inum, n, x)
    && SameHead(d, d') && SameMeta(InodeAt(d, inum), InodeAt(d', inum))
    && (forall i :: i in live && i != inum ==> InodeAt(d', i) == InodeAt(d, i))
    && (forall id {:trigger own[id]} :: id in own && own[id].ref.Data? ==> W(d', id) == W(d, id))
    && free' <= free && |used| == extra
    && own'.Keys <= own.Keys + {x} + used
    && (Shape(d, inum, n) ==> own'.Keys == own.Keys + {x} + used)
    && (Id(d, inum, Data(n)) != 0 ==> Id(d, inum, Data(n)) !in own')
  }

  ghost predicate Opened(w: bool)
  {
    true
  }

  // The same for predicates on the state of a device.
  ghost predicate Shown(w: bool)
  {
    true
  }

  // LinkedAll, sealed: it is used only where Opened is mentioned.
  ghost predicate Linked(d: Disk, free: set<nat>, own: Owners, d': Disk, free': set<nat>, own': Owners,
                         live: set<nat>, inum: nat, n: nat, x: nat, extra: nat)
  {
    forall w {:trigger Opened(w)} :: Opened(w) ==> LinkedAll(d, free, own, d', free', own', live, inum, n, x, extra)
  }

  lemma LinkedCell(d: Disk, d': Disk, free: set<nat>, own: Owners, live: set<nat>, inum: nat, n: nat, x: nat)
    requires FsOk(d, free, own, live) && inum in live && n == BlocksOf(InodeAt(d, inum)) < FIRST_TRIPLE
    requires Needed(n) == 1
    requires Fresh(d, free, own, x) && RefSet(d, d', own, live, inum, Data(n), x) && KeepsHead(d, d')
    requires forall id {:trigger own[id]} :: id in own && own[id].ref.Data? ==> W(d', id) == W(d, id)
    ensures Linked(d, free, own, d', free, OwnSet(own, inum, Data(n), x), live, inum, n, x, 0)
  {
    RefSetFs(d, d', free, own, live, inum, Data(n), x);
    AddedCell(d, d', live, inum, n, x);
    KeptHead(d, d');
    CellAccount(d, free, own, live, inum, n, x);
  }

  lemma CellAccount(d: Disk, free: set<nat>, own: Owners, live: set<nat>, inum: nat, n: nat, x: nat)
    requires FsOk(d, free, own, live) && inum in live && x != 0 && x !in own
    ensures var own' := OwnSet(own, inum, Data(n), x);
      && free - free == {} && own'.Keys <= own.Keys + {x} + (free - free)
      && (Shape(d, inum, n) ==> own'.Keys == own.Keys + {x} + (free - free))
      && (Id(d, inum, Data(n)) != 0 ==> Id(d, inum, Data(n)) !in own')
  {
    OwnSetKeys(own, inum, Data(n), x);
    Overwritten(d, free, own, live, inum, Data(n), x, n);
    if Shape(d, inum, n) {
      Open(d, free, own, live);
      ShapeVacant(d, own, live, inum, n, Data(n));
    }
  }

  // A block whose reference is overwritten is no one's any more.
  lemma Overwritten(d: Disk, free: set<nat>, own: Owners, live: set<nat>, inum: nat, q: Ref, x: nat, n: nat)
    requires FsOk(d, free, own, live) && inum in live && x !in own && (q == Data(n) || Under(Data(n), q))
    ensures var y := Id(d, inum, Data(n)); y != 0 ==> y in own && y !in OwnSet(own, inum, q, x)
  {
    OpenOwn(d, free, own, live);
  }

  lemma LinkedNew(d: Disk, d': Disk, free: set<nat>, own: Owners, live: set<nat>, inum: nat, n: nat, b: nat, x: nat)
    requires FsOk(d, free, own, live) && inum in live && n == BlocksOf(InodeAt(d, inum)) < FIRST_TRIPLE
    requires Needed(n) == 2
    requires Fresh(d, free, own, b) && Fresh(d, free, own, x) && b != x && b < |d'|
    requires RefSet(d, d'[b := Zeros()], own, live, inum, NewFor(n), b) && KeepsHead(d, d') && W(d', b) == OneEntry(x)
    requires forall id {:trigger own[id]} :: id in own && own[id].ref.Data? ==> W(d', id) == W(d, id)
    requires forall i :: i in live && i != inum ==> InodeAt(d', i) == InodeAt(d, i)
    ensures Linked(d, free + {b}, own, d', free, OwnNew(own, inum, NewFor(n), b, x), live, inum, n, x, 1)
  {
    NewIds(d, d', free, own, live, inum, n, b, x);
    KeptHead(d, d');
    NewAccount(d, free, own, live, inum, n, b, x);
  }

  lemma NewIds(d: Disk, d': Disk, free: set<nat>, own: Owners, live: set<nat>, inum: nat, n: nat, b: nat, x: nat)
    requires FsOk(d, free, own, live) && inum in live && n == BlocksOf(InodeAt(d, inum)) < FIRST_TRIPLE
    requires Needed(n) == 2
    requires Fresh(d, free, own, b) && Fresh(d, free, own, x) && b != x && b < |d'|
    requires RefSet(d, d'[b := Zeros()], own, live, inum, NewFor(n), b) && KeepsHead(d, d') && W(d', b) == OneEntry(x)
    ensures FsOk(d', free, OwnNew(own, inum, NewFor(n), b, x), live)
    ensures AddedIds(d, d', live, inum, n, x) && SameMeta(InodeAt(d, inum), InodeAt(d', inum))
  {
    assert forall k :: 0 <= k < n ==> !Under(Data(k), NewFor(n));
    NewIndex(d, d', free, own, live, inum, NewFor(n), b, x);
    AddedNew(d, d', live, inum, n, b, x);
  }

  lemma NewAccount(d: Disk, free: set<nat>, own: Owners, live: set<nat>, inum: nat, n: nat, b: nat, x: nat)
    requires FsOk(d, free, own, live) && inum in live && n < FIRST_TRIPLE && Needed(n) == 2
    requires b !in free && b != 0 && x != 0 && b !in own && x !in own
    ensures var own' := OwnNew(own, inum, NewFor(n), b, x);
      && free + {b} - free == {b} && own'.Keys <= own.Keys + {x} + {b}
      && (Shape(d, inum, n) ==> own'.Keys == own.Keys + {x} + {b})
      && (Id(d, inum, Data(n)) != 0 ==> Id(d, inum, Data(n)) !in own')
  {
    OwnNewKeys(own, inum, NewFor(n), b, x);
    Overwritten(d, free, own, live, inum, NewFor(n), b, n);
    if Shape(d, inum, n) {
      Open(d, free, own, live);
      ShapeVacant(d, own, live, inum, n, NewFor(n));
    }
  }

  lemma LinkedDouble(d: Disk, d': Disk, free: set<nat>, own: Owners, live: set<nat>, inum: nat, b: nat, c: nat, x: nat)
    requires FsOk(d, free, own, live) && inum in live && FIRST_DOUBLE == BlocksOf(InodeAt(d, inum))
    requires Fresh(d, free, own, b) && Fresh(d, free, own, c) && Fresh(d, free, own, x) && b != c && b != x && c != x
    requires b < |d'| && c < |d'| && KeepsHead(d, d')
    requires RefSet(d, d'[c := Zeros()][b := Zeros()], own, live, inum, Double, b)
    requires W(d', b) == OneEntry(c) && W(d', c) == OneEntry(x)
    requires forall id {:trigger own[id]} :: id in own && own[id].ref.Data? ==> W(d', id) == W(d, id)
    requires forall i :: i in live && i != inum ==> InodeAt(d', i) == InodeAt(d, i)
    ensures var own' := OwnDouble(own, inum, b, c, x);
      Linked(d, free + {b, c}, own, d', free, own', live, inum, FIRST_DOUBLE, x, 2)
  {
    DoubleIds(d, d', free, own, live, inum, b, c, x);
    KeptHead(d, d');
    DoubleAccount(d, free, own, live, inum, b, c, x);
    ToLinked(d, free + {b, c}, own, d', free, OwnDouble(own, inum, b, c, x), live, inum, FIRST_DOUBLE, x, 2, {b, c});
  }

  lemma ToLinked(d: Disk, free: set<nat>, own: Owners, d': Disk, free': set<nat>, own': Owners,
                 live: set<nat>, inum: nat, n: nat, x: nat, extra: nat, used: set<nat>)
    requires FsOk(d', free', own', live) && AddedIds(d, d', live, inum, n, x)
    requires SameHead(d, d') && SameMeta(InodeAt(d, inum), InodeAt(d', inum))
    requires forall i :: i in live && i != inum ==> InodeAt(d', i) == InodeAt(d, i)
    requires forall id {:trigger own[id]} :: id in own && own[id].ref.Data? ==> W(d', id) == W(d, id)
    requires free' <= free && used == free - free' && |used| == extra
    requires own'.Keys <= own.Keys + {x} + used && (Shape(d, inum, n) ==> own'.Keys == own.Keys + {x} + used)
    requires Id(d, inum, Data(n)) != 0 ==> Id(d, inum, Data(n)) !in own'
    ensures Linked(d, free, own, d', free', own', live, inum, n, x, extra)
  {
  }

  lemma DoubleIds(d: Disk, d': Disk, free: set<nat>, own: Owners, live: set<nat>, inum: nat, b: nat, c: nat, x: nat)
    requires FsOk(d, free, own, live) && inum in live && FIRST_DOUBLE == BlocksOf(InodeAt(d, inum))
    requires Fresh(d, free, own, b) && Fresh(d, free, own, c) && Fresh(d, free, own, x) && b != c && b != x && c != x
    requires b < |d'| && c < |d'| && KeepsHead(d, d')
    requires RefSet(d, d'[c := Zeros()][b := Zeros()], own, live, inum, Double, b)
    requires W(d', b) == OneEntry(c) && W(d', c) == OneEntry(x)
    ensures FsOk(d', free, OwnDouble(own, inum, b, c, x), live)
    ensures AddedIds(d, d', live, inum, FIRST_DOUBLE, x) && SameMeta(InodeAt(d, inum), InodeAt(d', inum))
  {
    var da := d'[c := Zeros()];
    var own1 := OwnNew(own, inum, Double, b, c);
    assert forall k :: 0 <= k < FIRST_DOUBLE ==> !Under(Data(k), Double);
    NewIndex(d, da, free, own, live, inum, Double, b, c);
    OwnNewKeys(own, inum, Double, b, c);
    assert LiveOk(da, live) by { Open(da, free, own1, live); }
    DoubleEntry(d, da, d', own1, live, inum, c, x);
    SameMetaSize(InodeAt(d, inum), InodeAt(da, inum));
    RefSetFs(da, d', free, own1, live, inum, Data(FIRST_DOUBLE), x);
    AddedDouble(d, da, d', live, inum, b, c, x);
  }

  lemma DoubleAccount(d: Disk, free: set<nat>, own: Owners, live: set<nat>, inum: nat, b: nat, c: nat, x: nat)
    requires FsOk(d, free, own, live) && inum in live
    requires b !in free && c !in free && b != c && b != 0 && c != 0 && x != 0
    requires b !in own && c !in own && x !in own
    ensures var own' := OwnDouble(own, inum, b, c, x);
      && free + {b, c} - free == {b, c} && own'.Keys <= own.Keys + {x} + {b, c}
      && (Shape(d, inum, FIRST_DOUBLE) ==> own'.Keys == own.Keys + {x} + {b, c})
      && (Id(d, inum, Data(FIRST_DOUBLE)) != 0 ==> Id(d, inum, Data(FIRST_DOUBLE)) !in own')
  {
    OwnNewKeys(own, inum, Double, b, c);
    DoubleOverwritten(d, free, own, live, inum, b, c, x);
    OwnSetKeys(OwnNew(own, inum, Double, b, c), inum, Data(FIRST_DOUBLE), x);
    assert free + {b, c} - free == {b, c};
    if Shape(d, inum, FIRST_DOUBLE) {
      Open(d, free, own, live);
      ShapeVacant(d, own, live, inum, FIRST_DOUBLE, Double);
      DoubleVacant(own, inum, b, c);
    }
  }

  lemma DoubleOverwritten(d: Disk, free: set<nat>, own: Owners, live: set<nat>, inum: nat, b: nat, c: nat, x: nat)
    requires FsOk(d, free, own, live) && inum in live && b != 0 && c != 0 && x != 0
    requires b !in own && c !in own && x !in own
    ensures Id(d, inum, Data(FIRST_DOUBLE)) != 0 ==> Id(d, inum, Data(FIRST_DOUBLE)) !in OwnDouble(own, inum, b, c, x)
  {
    Overwritten(d, free, own, live, inum, Double, b, FIRST_DOUBLE);
  }

  lemma DoubleVacant(own: Owners, inum: nat, b: nat, c: nat)
    requires Vacant(own, inum, Double)
    ensures Vacant(OwnNew(own, inum, Double, b, c), inum, Data(FIRST_DOUBLE))
  {
  }

  lemma DoubleEntry(d: Disk, da: Disk, d': Disk, own1: Owners, live: set<nat>, inum: nat, c: nat, x: nat)
    requires LiveOk(da, live) && inum in live && InData(d, c) && c < |d'| && x <= UINT_MAX
    requires da == d'[c := Zeros()] && Id(da, inum, Ind(0)) == c && W(d', c) == OneEntry(x)
    ensures RefSet(da, d', own1, live, inum, Data(FIRST_DOUBLE), x)
  {
    forall i | i in live
      ensures InodeAt(d', i) == InodeAt(da, i)
    {
      assert InodeAt(da, i) == InodeAt(da, i);
      TableRange(i);
    }
  }
}
