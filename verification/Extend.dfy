// add_block (inode.c): allocates a block and links it as the next block of an inode, with the index blocks it needs.

module Extend {
  import opened Blocks
  import opened Store
  import opened Inodes
  import opened Ownership
  import opened BlockMap
  import FreeList

  // Rewriting the record of inum touches no owned block, no free block and no other live record.
  lemma StoredFacts(d: Disk, d': Disk, free: set<nat>, own: Owners, live: set<nat>, inum: nat, n: Inode)
    requires FsOk(d, free, own, live) && inum in live && Stored(d, d', inum, n)
    requires forall c :: c in free ==> InData(d, c)
    ensures KeepsHead(d, d') && (forall b :: START_DATA_BLOCK <= b < |d| ==> d'[b] == d[b])
    ensures forall id :: id in own ==> W(d', id) == W(d, id)
    ensures forall i :: i in live && i != inum ==> InodeAt(d', i) == InodeAt(d, i)
  {
    Open(d, free, own, live);
    TableRange(inum);
    forall i | i in live && i != inum
      ensures InodeAt(d', i) == InodeAt(d, i)
    {
      assert InodeAt(d, i) == InodeAt(d, i);
    }
  }

  lemma OwnedData(d: Disk, free: set<nat>, own: Owners, live: set<nat>)
    requires FsOk(d, free, own, live)
    ensures forall id :: id in own ==> InData(d, id)
  {
    Open(d, free, own, live);
  }

  lemma LiveRecords(d: Disk, d': Disk, free: set<nat>, own: Owners, live: set<nat>)
    requires FsOk(d, free, own, live) && |d'| == |d|
    requires forall b :: START_ILIST <= b < START_DATA_BLOCK && b < |d| ==> d'[b] == d[b]
    ensures forall i {:trigger InodeAt(d', i)} :: i in live ==> InodeAt(d', i) == InodeAt(d, i)
  {
    Open(d, free, own, live);
    forall i | i in live
      ensures InodeAt(d', i) == InodeAt(d, i)
    {
      TableRange(i);
      RecordFrame(d, d', i);
    }
  }

  // Writing an index block that inum owns touches no other owned block, no free block and no record.
  lemma WrittenFacts(d: Disk, d': Disk, free: set<nat>, own: Owners, live: set<nat>, b: nat, ws: WordBlock)
    requires FsOk(d, free, own, live) && InData(d, b) && b !in free && d' == d[b := ws]
    ensures KeepsHead(d, d') && (forall c :: c in free && c < |d| ==> d'[c] == d[c])
    ensures forall id :: id in own && id != b ==> W(d', id) == W(d, id)
    ensures forall i :: i in live ==> InodeAt(d', i) == InodeAt(d, i)
  {
    OwnedData(d, free, own, live);
    LiveRecords(d, d', free, own, live);
  }

  // The branch for a direct block.
  method SetDirect(s: Device, inum: nat, node: Inode, num: nat, x: nat)
    requires Fs(s) && inum in s.live && node == InodeAt(s.blocks, inum) && num == BlocksOf(node) < FIRST_SINGLE
    requires Fresh(s.blocks, s.free, s.own, x)
    modifies s.log, s`blocks, s`own
    ensures FreeList.Records(s.blocks, s.chain, s.free)
    ensures Linked(old(s.blocks), s.free, old(s.own), s.blocks, s.free, s.own, s.live, inum, num, x, 0)
  {
    ghost var d := s.blocks;
    assert inum < NUM_INODE by { Open(d, s.free, s.own, s.live); }
    FreeList.RecordsFacts(d, s.chain, s.free);
    var _ := WriteInode(s, inum, node[DIRECT + num := x]);
    StoredFacts(d, s.blocks, s.free, s.own, s.live, inum, node[DIRECT + num := x]);
    FreeList.RecordsFrame(d, s.blocks, s.chain, s.free);
    LinkedCell(d, s.blocks, s.free, s.own, s.live, inum, num, x);
    s.own := OwnSet(s.own, inum, Data(num), x);
  }

  // The branches that fill an entry of an existing index block b.
  method SetEntry(s: Device, inum: nat, b: nat, index: nat, ghost num: nat, x: nat)
    requires Fs(s) && inum in s.live && num == BlocksOf(InodeAt(s.blocks, inum)) && FIRST_SINGLE <= num < FIRST_TRIPLE
    requires Needed(num) == 1 && b == CellBlock(s.blocks, InodeAt(s.blocks, inum), Data(num))
    requires index == CellIndex(Data(num))
    requires Fresh(s.blocks, s.free, s.own, x)
    modifies s.log, s`blocks, s`own
    ensures FreeList.Records(s.blocks, s.chain, s.free)
    ensures Linked(old(s.blocks), s.free, old(s.own), s.blocks, s.free, s.own, s.live, inum, num, x, 0)
  {
    ghost var d := s.blocks;
    IndexMapped(d, s.free, s.own, s.live, inum, num);
    var block := DbRead(s, b);
    var _ := DbWrite(s, block.value[index := x], b);
    EntryLinked(d, s.blocks, s.chain, s.free, s.own, s.live, inum, num, x);
    s.own := OwnSet(s.own, inum, Data(num), x);
  }

  lemma EntryLinked(d: Disk, d': Disk, chain: seq<nat>, free: set<nat>, own: Owners, live: set<nat>, inum: nat,
                    num: nat, x: nat)
    requires FreeList.Records(d, chain, free) && FsOk(d, free, own, live) && inum in live
    requires num == BlocksOf(InodeAt(d, inum)) && FIRST_SINGLE <= num < FIRST_TRIPLE && Needed(num) == 1
    requires Fresh(d, free, own, x)
    requires var b := CellBlock(d, InodeAt(d, inum), Data(num));
      InData(d, b) && b !in free && d' == d[b := W(d, b)[CellIndex(Data(num)) := x]]
    ensures FreeList.Records(d', chain, free)
    ensures Linked(d, free, own, d', free, OwnSet(own, inum, Data(num), x), live, inum, num, x, 0)
  {
    var b := CellBlock(d, InodeAt(d, inum), Data(num));
    IndexMapped(d, free, own, live, inum, num);
    WrittenFacts(d, d', free, own, live, b, W(d, b)[CellIndex(Data(num)) := x]);
    FreeList.RecordsFrame(d, d', chain, free);
    LinkedCell(d, d', free, own, live, inum, num, x);
  }

  // The index block for block number num exists as soon as a smaller number needed it.
  lemma IndexMapped(d: Disk, free: set<nat>, own: Owners, live: set<nat>, inum: nat, num: nat)
    requires FsOk(d, free, own, live) && inum in live && num == BlocksOf(InodeAt(d, inum))
    requires FIRST_SINGLE <= num < FIRST_TRIPLE && Needed(num) == 1
    ensures var b := CellBlock(d, InodeAt(d, inum), Data(num));
      && b != 0 && b in own && InData(d, b) && b !in free && own[b] == Owner(inum, Parent(Data(num)))
  {
    Open(d, free, own, live);
    assert Mapped(d, inum);
    assert Id(d, inum, Data(num - 1)) != 0;
    CellOwned(d, own, live, inum, Data(num));
    SameCell(d, InodeAt(d, inum), num);
  }

  lemma SameCell(d: Disk, n: Inode, num: nat)
    requires FIRST_SINGLE <= num < FIRST_TRIPLE && Needed(num) == 1
    ensures CellBlock(d, n, Data(num)) == CellBlock(d, n, Data(num - 1))
    ensures IdAt(d, n, Data(num - 1)) != 0 ==> CellBlock(d, n, Data(num)) != 0
  {
    if FIRST_DOUBLE <= num {
      var m := num - FIRST_DOUBLE;
      assert m / INDIR_ID_NUM == (m - 1) / INDIR_ID_NUM;
    }
  }

  // A block fresh from the allocator is read, given x as its only entry, and written back.
  method WriteIndex(s: Device, b: nat, x: nat)
    requires Sized(s.blocks) && InData(s.blocks, b) && x <= UINT_MAX
    modifies s.log, s`blocks
    ensures s.blocks == old(s.blocks)[b := OneEntry(x)]
  {
    var block := DbRead(s, b);
    var ws := block.value[0 := x];
    for i := 1 to ENTRIES
      invariant |ws| == ENTRIES && ws[0] == x && forall j :: 1 <= j < i ==> ws[j] == 0
    {
      ws := ws[i := 0];
    }
    assert ws == OneEntry(x);
    var _ := DbWrite(s, ws, b);
  }

  // A new index block b holding x, then the record of inum pointing to it.
  lemma NewBlockFacts(d: Disk, dw: Disk, d': Disk, free: set<nat>, own: Owners, live: set<nat>, inum: nat,
                      b: nat, x: nat, n: Inode)
    requires FsOk(d, free, own, live) && inum in live && Fresh(d, free, own, b) && x <= UINT_MAX
    requires forall c :: c in free ==> InData(d, c)
    requires dw == d[b := OneEntry(x)] && Stored(dw, d', inum, n)
    ensures KeepsHead(d, d') && (forall c :: c in free && c < |d| ==> d'[c] == d[c]) && W(d', b) == OneEntry(x)
    ensures forall id :: id in own ==> W(d', id) == W(d, id)
    ensures forall i :: i in live ==> InodeAt(d', i) == if i == inum then n else InodeAt(d, i)
  {
    WrittenFacts(d, dw, free, own, live, b, OneEntry(x));
    OwnedData(d, free, own, live);
    StoredRecords(d, dw, d', free, own, live, inum, n);
  }

  lemma StoredRecords(d: Disk, dw: Disk, d': Disk, free: set<nat>, own: Owners, live: set<nat>, inum: nat, n: Inode)
    requires FsOk(d, free, own, live) && inum in live && Stored(dw, d', inum, n)
    requires forall i :: i in live ==> InodeAt(dw, i) == InodeAt(d, i)
    ensures START_ILIST <= TableBlock(inum) < START_DATA_BLOCK
    ensures forall i :: i in live ==> InodeAt(d', i) == if i == inum then n else InodeAt(d, i)
  {
    Open(d, free, own, live);
    TableRange(inum);
    forall i | i in live
      ensures InodeAt(d', i) == if i == inum then n else InodeAt(d, i)
    {
      assert InodeAt(d, i) == InodeAt(dw, i);
    }
  }

  lemma BlankRecords(d: Disk, d': Disk, free: set<nat>, own: Owners, live: set<nat>, b: nat)
    requires FsOk(d, free, own, live) && |d'| == |d| && InData(d, b) && b < |d|
    ensures forall i {:trigger InodeAt(d'[b := Zeros()], i)} :: i in live ==>
      InodeAt(d'[b := Zeros()], i) == InodeAt(d', i)
  {
    Open(d, free, own, live);
    forall i | i in live
      ensures InodeAt(d'[b := Zeros()], i) == InodeAt(d', i)
    {
      assert i < NUM_INODE by { assert InodeAt(d, i) == InodeAt(d, i); }
      TableRange(i);
      RecordFrame(d', d'[b := Zeros()], i);
    }
  }

  lemma NewPointer(d: Disk, d': Disk, free: set<nat>, own: Owners, live: set<nat>, inum: nat, q: Ref, b: nat)
    requires FsOk(d, free, own, live) && inum in live && Fresh(d, free, own, b) && (q.Single? || q.Double?)
    requires |d'| == |d|
    requires forall id :: id in own ==> W(d', id) == W(d, id)
    requires forall i :: i in live ==>
      InodeAt(d', i) == if i == inum then InodeAt(d, inum)[CellIndex(q) := b] else InodeAt(d, i)
    ensures RefSet(d, d'[b := Zeros()], own, live, inum, q, b)
  {
    BlankRecords(d, d', free, own, live, b);
  }

  // The branch for the first block of the single indirect region.
  method NewSingle(s: Device, inum: nat, node: Inode, x: nat) returns (ok: bool)
    requires Fs(s) && inum in s.live && node == InodeAt(s.blocks, inum) && BlocksOf(node) == FIRST_SINGLE
    requires Fresh(s.blocks, s.free, s.own, x)
    modifies s.log, s`blocks, s`chain, s`free, s`own
    ensures ok <==> old(s.free) != {}
    ensures FreeList.Records(s.blocks, s.chain, s.free)
    ensures ok ==>
      Linked(old(s.blocks), old(s.free), old(s.own), s.blocks, s.free, s.own, s.live, inum, FIRST_SINGLE, x, 1)
    ensures !ok ==> Stuck(old(s.blocks), s.blocks, s.free, s.own, s.live) && s.own == old(s.own)
  {
    FreeList.RecordsFacts(s.blocks, s.chain, s.free);
    var ind := FreeList.Allocate(s);
    if ind.None? {
      NoneLeft(old(s.blocks), s.blocks, old(s.free), s.own, s.live);
      return false;
    }
    AllocatedIn(old(s.blocks), s.blocks, old(s.free), s.free, s.own, s.live, ind.value, x);
    ghost var d := s.blocks;
    AttachSingle(s, inum, node, ind.value, x);
    LinkedFrom(old(s.blocks), d, s.blocks, old(s.free), s.free, old(s.own), s.own, s.live, inum, FIRST_SINGLE, x, 1);
    ok := true;
  }

  lemma SingleLinked(d: Disk, dw: Disk, d': Disk, chain: seq<nat>, free: set<nat>, own: Owners,
                     live: set<nat>, inum: nat, b: nat, x: nat)
    requires FreeList.Records(d, chain, free) && FsOk(d, free, own, live) && inum in live
    requires FIRST_SINGLE == BlocksOf(InodeAt(d, inum))
    requires Fresh(d, free, own, b) && Fresh(d, free, own, x) && b != x
    requires dw == d[b := OneEntry(x)] && Stored(dw, d', inum, InodeAt(d, inum)[SINGLE := b])
    ensures FreeList.Records(d', chain, free)
    ensures Linked(d, free + {b}, own, d', free, OwnNew(own, inum, Single, b, x), live, inum, FIRST_SINGLE, x, 1)
  {
    FreeList.RecordsFacts(d, chain, free);
    NewBlockFacts(d, dw, d', free, own, live, inum, b, x, InodeAt(d, inum)[SINGLE := b]);
    NewPointer(d, d', free, own, live, inum, Single, b);
    LinkedNew(d, d', free, own, live, inum, FIRST_SINGLE, b, x);
    FreeList.RecordsFrame(d, d', chain, free);
  }

  // The writes of that branch: the new index block, then the record.
  method PutSingle(s: Device, inum: nat, node: Inode, b: nat, x: nat)
    requires Sized(s.blocks) && inum < NUM_INODE && InData(s.blocks, b) && b < |s.blocks| && x <= UINT_MAX
    modifies s.log, s`blocks
    ensures Stored(old(s.blocks)[b := OneEntry(x)], s.blocks, inum, node[SINGLE := b])
  {
    WriteIndex(s, b, x);
    var _ := WriteInode(s, inum, node[SINGLE := b]);
  }

  method AttachSingle(s: Device, inum: nat, node: Inode, b: nat, x: nat)
    requires Fs(s) && inum in s.live && node == InodeAt(s.blocks, inum) && BlocksOf(node) == FIRST_SINGLE
    requires Fresh(s.blocks, s.free, s.own, x) && Fresh(s.blocks, s.free, s.own, b) && b != x && b < |s.blocks|
    modifies s.log, s`blocks, s`own
    ensures FreeList.Records(s.blocks, s.chain, s.free)
    ensures Linked(old(s.blocks), s.free + {b}, old(s.own), s.blocks, s.free, s.own, s.live, inum, FIRST_SINGLE, x, 1)
  {
    ghost var d := s.blocks;
    assert inum < NUM_INODE by { Open(d, s.free, s.own, s.live); }
    PutSingle(s, inum, node, b, x);
    SingleLinked(d, d[b := OneEntry(x)], s.blocks, s.chain, s.free, s.own, s.live, inum, b, x);
    s.own := OwnNew(s.own, inum, Single, b, x);
  }

  // What an allocation leaves for the caller: everything live unchanged, and the new block fresh beside x.
  lemma AllocatedIn(d: Disk, d': Disk, free: set<nat>, free': set<nat>, own: Owners, live: set<nat>, b: nat, x: nat)
    requires FsOk(d, free, own, live) && FreeList.OnlyFree(d, d', free) && (forall c :: c in free ==> InData(d, c))
    requires b in free && free' == free - {b} && Fresh(d, free, own, x)
    ensures FsOk(d', free', own, live) && SameState(d, d', own, live)
    ensures Fresh(d', free', own, b) && Fresh(d', free', own, x) && b != x && b < |d'| && free == free' + {b}
  {
    OnlyFreeFs(d, d', free, free', own, live);
    UntouchedHead(d, d', own);
  }

  // Owned blocks, records, references, superblock and bitmap are the same.
  ghost predicate SameState(d: Disk, d': Disk, own: Owners, live: set<nat>)
  {
    && SameHead(d, d')
    && (forall id :: id in own ==> W(d', id) == W(d, id))
    && (forall i :: i in live ==> InodeAt(d', i) == InodeAt(d, i))
    && (forall i, r {:trigger Id(d', i, r)} {:trigger Id(d, i, r)} :: i in live ==> Id(d', i, r) == Id(d, i, r))
  }

  lemma LinkedFrom(d: Disk, d1: Disk, d': Disk, free: set<nat>, free': set<nat>, own: Owners, own': Owners,
                   live: set<nat>, inum: nat, n: nat, x: nat, extra: nat)
    requires inum in live && SameState(d, d1, own, live)
    requires Linked(d1, free, own, d', free', own', live, inum, n, x, extra)
    ensures Linked(d, free, own, d', free', own', live, inum, n, x, extra)
  {
    assert Opened(true);
    HeadThen(d, d1, d');
    if Shape(d, inum, n) {
      assert forall r :: Id(d1, inum, r) == Id(d, inum, r);
      assert Shape(d1, inum, n);
    }
    forall r | Within(r, n)
      ensures Id(d', inum, r) == Id(d, inum, r)
    {
      assert Id(d1, inum, r) == Id(d, inum, r);
    }
  }

  // The double indirect block exists once the double indirect region does.
  lemma DoubleMapped(d: Disk, free: set<nat>, own: Owners, live: set<nat>, inum: nat)
    requires FsOk(d, free, own, live) && inum in live && FIRST_DOUBLE < BlocksOf(InodeAt(d, inum))
    ensures var b := InodeAt(d, inum)[DOUBLE];
      b != 0 && b in own && InData(d, b) && b !in free && own[b] == Owner(inum, Double)
  {
    Open(d, free, own, live);
    assert Mapped(d, inum);
    assert Id(d, inum, Data(FIRST_DOUBLE)) != 0;
    assert Id(d, inum, Double) == InodeAt(d, inum)[DOUBLE];
  }

  // Two index blocks written in turn: b holding x, then entry j of the double indirect block pointing to b.
  lemma NewEntryFacts(d: Disk, d': Disk, free: set<nat>, own: Owners, live: set<nat>, inum: nat, j: nat, b: nat, x: nat)
    requires FsOk(d, free, own, live) && inum in live && Fresh(d, free, own, b) && j < INDIR_ID_NUM && x <= UINT_MAX
    requires var D := InodeAt(d, inum)[DOUBLE];
      && InData(d, D) && D in own && D !in free && own[D] == Owner(inum, Double)
      && d' == d[b := OneEntry(x)][D := W(d, D)[j := b]]
    ensures KeepsHead(d, d') && (forall c :: c in free && c < |d| ==> d'[c] == d[c]) && W(d', b) == OneEntry(x)
    ensures forall id :: id in own && id != InodeAt(d, inum)[DOUBLE] ==> W(d', id) == W(d, id)
    ensures forall i :: i in live ==> InodeAt(d', i) == InodeAt(d, i)
  {
    OwnedData(d, free, own, live);
    LiveRecords(d, d', free, own, live);
  }

  lemma NewEntryPointer(d: Disk, d': Disk, free: set<nat>, own: Owners, live: set<nat>, inum: nat, j: nat, b: nat)
    requires FsOk(d, free, own, live) && inum in live && Fresh(d, free, own, b) && j < INDIR_ID_NUM && |d'| == |d|
    requires var D := InodeAt(d, inum)[DOUBLE]; D != 0 && D != b && W(d', D) == W(d, D)[j := b]
    requires forall id :: id in own && id != InodeAt(d, inum)[DOUBLE] ==> W(d', id) == W(d, id)
    requires forall i :: i in live ==> InodeAt(d', i) == InodeAt(d, i)
    ensures RefSet(d, d'[b := Zeros()], own, live, inum, Ind(j), b)
  {
    BlankRecords(d, d', free, own, live, b);
  }

  // The branch for the first block of a later row of the double indirect region.
  method NewRow(s: Device, inum: nat, node: Inode, ghost num: nat, j: nat, x: nat) returns (ok: bool)
    requires Fs(s) && inum in s.live && node == InodeAt(s.blocks, inum) && num == BlocksOf(node)
    requires FIRST_DOUBLE < num < FIRST_TRIPLE && Needed(num) == 2 && j == Outer(num)
    requires Fresh(s.blocks, s.free, s.own, x)
    modifies s.log, s`blocks, s`chain, s`free, s`own
    ensures ok <==> old(s.free) != {}
    ensures FreeList.Records(s.blocks, s.chain, s.free)
    ensures ok ==> Linked(old(s.blocks), old(s.free), old(s.own), s.blocks, s.free, s.own, s.live, inum, num, x, 1)
    ensures !ok ==> Stuck(old(s.blocks), s.blocks, s.free, s.own, s.live) && s.own == old(s.own)
  {
    DoubleMapped(s.blocks, s.free, s.own, s.live, inum);
    var dind := DbRead(s, node[DOUBLE]);
    FreeList.RecordsFacts(s.blocks, s.chain, s.free);
    var ind := FreeList.Allocate(s);
    if ind.None? {
      NoneLeft(old(s.blocks), s.blocks, old(s.free), s.own, s.live);
      return false;
    }
    AllocatedIn(old(s.blocks), s.blocks, old(s.free), s.free, s.own, s.live, ind.value, x);
    ghost var d := s.blocks;
    AttachRow(s, inum, node, dind.value, num, j, ind.value, x);
    LinkedFrom(old(s.blocks), d, s.blocks, old(s.free), s.free, old(s.own), s.own, s.live, inum, num, x, 1);
    ok := true;
  }

  method WriteIndexAndRow(s: Device, b: nat, x: nat, c: nat, row: WordBlock)
    requires Sized(s.blocks) && InData(s.blocks, b) && InData(s.blocks, c) && x <= UINT_MAX
    modifies s.log, s`blocks
    ensures s.blocks == WithTwo(old(s.blocks), b, OneEntry(x), c, row)
  {
    WriteIndex(s, b, x);
    var _ := DbWrite(s, row, c);
  }

  function WithTwo(d: Disk, b: nat, ws: WordBlock, c: nat, vs: WordBlock): Disk
    requires b < |d| && c < |d|
  {
    var d1 := d[b := ws];
    d1[c := vs]
  }

  lemma RowLinked(d: Disk, d': Disk, chain: seq<nat>, free: set<nat>, own: Owners, live: set<nat>, inum: nat,
                  num: nat, b: nat, x: nat)
    requires FreeList.Records(d, chain, free) && FsOk(d, free, own, live) && inum in live
    requires num == BlocksOf(InodeAt(d, inum))
    requires FIRST_DOUBLE < num < FIRST_TRIPLE && Needed(num) == 2
    requires Fresh(d, free, own, b) && Fresh(d, free, own, x) && b != x && b < |d|
    requires var c := InodeAt(d, inum)[DOUBLE];
      c < |d| && d' == WithTwo(d, b, OneEntry(x), c, W(d, c)[Outer(num) := b])
    ensures FreeList.Records(d', chain, free)
    ensures Linked(d, free + {b}, own, d', free, OwnNew(own, inum, NewFor(num), b, x), live, inum, num, x, 1)
  {
    DoubleMapped(d, free, own, live, inum);
    NewEntryFacts(d, d', free, own, live, inum, Outer(num), b, x);
    NewEntryPointer(d, d', free, own, live, inum, Outer(num), b);
    LinkedNew(d, d', free, own, live, inum, num, b, x);
    FreeList.RecordsFrame(d, d', chain, free);
  }

  method AttachRow(s: Device, inum: nat, node: Inode, dind: WordBlock, ghost num: nat, j: nat, b: nat, x: nat)
    requires Fs(s) && inum in s.live && node == InodeAt(s.blocks, inum) && num == BlocksOf(node)
    requires FIRST_DOUBLE < num < FIRST_TRIPLE && Needed(num) == 2 && j == Outer(num)
    requires dind == W(s.blocks, node[DOUBLE])
    requires Fresh(s.blocks, s.free, s.own, x) && Fresh(s.blocks, s.free, s.own, b) && b != x && b < |s.blocks|
    modifies s.log, s`blocks, s`own
    ensures FreeList.Records(s.blocks, s.chain, s.free)
    ensures Linked(old(s.blocks), s.free + {b}, old(s.own), s.blocks, s.free, s.own, s.live, inum, num, x, 1)
  {
    ghost var d := s.blocks;
    DoubleMapped(d, s.free, s.own, s.live, inum);
    FreeList.RecordsFacts(d, s.chain, s.free);
    WriteIndexAndRow(s, b, x, node[DOUBLE], dind[j := b]);
    RowLinked(d, s.blocks, s.chain, s.free, s.own, s.live, inum, num, b, x);
    s.own := OwnNew(s.own, inum, NewFor(num), b, x);
  }

  // Both index blocks of the double indirect region, then the record pointing to the outer one.
  lemma NewDoubleFacts(d: Disk, dw: Disk, d': Disk, free: set<nat>, own: Owners, live: set<nat>, inum: nat,
                       b: nat, c: nat, x: nat, n: Inode)
    requires FsOk(d, free, own, live) && inum in live && Fresh(d, free, own, b) && Fresh(d, free, own, c) && b != c
    requires b < |d| && c < |d| && x <= UINT_MAX && forall c :: c in free ==> InData(d, c)
    requires dw == WithTwo(d, c, OneEntry(x), b, OneEntry(c)) && Stored(dw, d', inum, n)
    ensures KeepsHead(d, d') && (forall c :: c in free && c < |d| ==> d'[c] == d[c])
    ensures W(d', c) == OneEntry(x) && W(d', b) == OneEntry(c)
    ensures forall id :: id in own ==> W(d', id) == W(d, id)
    ensures forall i :: i in live ==> InodeAt(d', i) == if i == inum then n else InodeAt(d, i)
  {
    OwnedData(d, free, own, live);
    LiveRecords(d, dw, free, own, live);
    StoredRecords(d, dw, d', free, own, live, inum, n);
  }

  lemma NewDoublePointer(d: Disk, d': Disk, free: set<nat>, own: Owners, live: set<nat>, inum: nat, b: nat, c: nat)
    requires FsOk(d, free, own, live) && inum in live && Fresh(d, free, own, b) && Fresh(d, free, own, c) && b != c
    requires |d'| == |d|
    requires b < |d| && c < |d|
    requires forall id :: id in own ==> W(d', id) == W(d, id)
    requires forall i :: i in live ==>
      InodeAt(d', i) == if i == inum then InodeAt(d, inum)[DOUBLE := b] else InodeAt(d, i)
    ensures RefSet(d, d'[c := Zeros()][b := Zeros()], own, live, inum, Double, b)
  {
    BlankRecords(d, d', free, own, live, c);
    BlankRecords(d, d'[c := Zeros()], free, own, live, b);
  }

  // The branch for the first block of the double indirect region.
  method NewDouble(s: Device, inum: nat, node: Inode, x: nat) returns (ok: bool)
    requires Fs(s) && inum in s.live && node == InodeAt(s.blocks, inum) && BlocksOf(node) == FIRST_DOUBLE
    requires Fresh(s.blocks, s.free, s.own, x)
    modifies s.log, s`blocks, s`chain, s`free, s`own
    ensures ok <==> |old(s.free)| >= 2
    ensures FreeList.Records(s.blocks, s.chain, s.free)
    ensures ok ==>
      Linked(old(s.blocks), old(s.free), old(s.own), s.blocks, s.free, s.own, s.live, inum, FIRST_DOUBLE, x, 2)
    ensures !ok ==> Stuck(old(s.blocks), s.blocks, s.free, s.own, s.live) && s.own == old(s.own)
  {
    FreeList.RecordsFacts(s.blocks, s.chain, s.free);
    var dind := FreeList.Allocate(s);
    if dind.None? {
      NoneLeft(old(s.blocks), s.blocks, old(s.free), s.own, s.live);
      return false;
    }
    AllocatedIn(old(s.blocks), s.blocks, old(s.free), s.free, s.own, s.live, dind.value, x);
    ghost var d1 := s.blocks;
    ok := NewInner(s, inum, node, dind.value, x);
    if ok {
      LinkedFrom(old(s.blocks), d1, s.blocks, old(s.free), s.free, old(s.own), s.own, s.live, inum, FIRST_DOUBLE, x, 2);
    } else {
      StuckFrom(old(s.blocks), d1, s.blocks, s.free, s.own, s.live);
    }
  }

  // The rest of it, once the double indirect block b is allocated.
  method NewInner(s: Device, inum: nat, node: Inode, b: nat, x: nat) returns (ok: bool)
    requires Fs(s) && inum in s.live && node == InodeAt(s.blocks, inum) && BlocksOf(node) == FIRST_DOUBLE
    requires Fresh(s.blocks, s.free, s.own, x) && Fresh(s.blocks, s.free, s.own, b) && b != x && b < |s.blocks|
    modifies s.log, s`blocks, s`chain, s`free, s`own
    ensures ok <==> old(s.free) != {}
    ensures FreeList.Records(s.blocks, s.chain, s.free)
    ensures ok ==>
      Linked(old(s.blocks), old(s.free) + {b}, old(s.own), s.blocks, s.free, s.own, s.live, inum, FIRST_DOUBLE, x, 2)
    ensures !ok ==> Stuck(old(s.blocks), s.blocks, s.free, s.own, s.live) && s.own == old(s.own)
  {
    FreeList.RecordsFacts(s.blocks, s.chain, s.free);
    var ind := FreeList.Allocate(s);
    if ind.None? {
      NoneLeft(old(s.blocks), s.blocks, old(s.free), s.own, s.live);
      return false;
    }
    AllocatedIn(old(s.blocks), s.blocks, old(s.free), s.free, s.own, s.live, ind.value, x);
    AllocatedIn(old(s.blocks), s.blocks, old(s.free), s.free, s.own, s.live, ind.value, b);
    ghost var d := s.blocks;
    AttachDouble(s, inum, node, b, ind.value, x);
    LinkedFrom(old(s.blocks), d, s.blocks, s.free + {b, ind.value}, s.free, old(s.own), s.own, s.live, inum,
               FIRST_DOUBLE, x, 2);
    assert s.free + {b, ind.value} == old(s.free) + {b};
    ok := true;
  }

  lemma DoubleLinked(d: Disk, dw: Disk, d': Disk, chain: seq<nat>, free: set<nat>, own: Owners,
                     live: set<nat>, inum: nat, b: nat, c: nat, x: nat)
    requires FreeList.Records(d, chain, free) && FsOk(d, free, own, live) && inum in live
    requires FIRST_DOUBLE == BlocksOf(InodeAt(d, inum))
    requires Fresh(d, free, own, b) && Fresh(d, free, own, c) && Fresh(d, free, own, x) && b != c && b != x && c != x
    requires b < |d| && c < |d| && dw == WithTwo(d, c, OneEntry(x), b, OneEntry(c))
    requires Stored(dw, d', inum, InodeAt(d, inum)[DOUBLE := b])
    ensures FreeList.Records(d', chain, free)
    ensures var own' := OwnDouble(own, inum, b, c, x);
      Linked(d, free + {b, c}, own, d', free, own', live, inum, FIRST_DOUBLE, x, 2)
  {
    FreeList.RecordsFacts(d, chain, free);
    NewDoubleFacts(d, dw, d', free, own, live, inum, b, c, x, InodeAt(d, inum)[DOUBLE := b]);
    NewDoublePointer(d, d', free, own, live, inum, b, c);
    LinkedDouble(d, d', free, own, live, inum, b, c, x);
    FreeList.RecordsFrame(d, d', chain, free);
  }

  method WriteIndexes(s: Device, b: nat, c: nat, x: nat)
    requires Sized(s.blocks) && InData(s.blocks, b) && InData(s.blocks, c) && b != c && x <= UINT_MAX
    modifies s.log, s`blocks
    ensures s.blocks == WithTwo(old(s.blocks), c, OneEntry(x), b, OneEntry(c))
  {
    WriteIndex(s, c, x);
    WriteIndex(s, b, c);
  }

  // The writes of that branch: both index blocks, then the record.
  method PutDouble(s: Device, inum: nat, node: Inode, b: nat, c: nat, x: nat, ghost dw: Disk)
    requires Sized(s.blocks) && inum < NUM_INODE && InData(s.blocks, b) && InData(s.blocks, c) && b != c
    requires b < |s.blocks| && c < |s.blocks| && x <= UINT_MAX
    requires dw == WithTwo(s.blocks, c, OneEntry(x), b, OneEntry(c))
    modifies s.log, s`blocks
    ensures Stored(dw, s.blocks, inum, node[DOUBLE := b])
  {
    WriteIndexes(s, b, c, x);
    var _ := WriteInode(s, inum, node[DOUBLE := b]);
  }

  method AttachDouble(s: Device, inum: nat, node: Inode, b: nat, c: nat, x: nat)
    requires Fs(s) && inum in s.live && node == InodeAt(s.blocks, inum) && BlocksOf(node) == FIRST_DOUBLE
    requires Fresh(s.blocks, s.free, s.own, b) && Fresh(s.blocks, s.free, s.own, c) && Fresh(s.blocks, s.free, s.own, x)
    requires b != c && b != x && c != x && b < |s.blocks| && c < |s.blocks|
    modifies s.log, s`blocks, s`own
    ensures FreeList.Records(s.blocks, s.chain, s.free)
    ensures Linked(old(s.blocks), s.free + {b, c}, old(s.own), s.blocks, s.free, s.own, s.live, inum, FIRST_DOUBLE, x,
                   2)
  {
    ghost var d := s.blocks;
    assert inum < NUM_INODE by { Open(d, s.free, s.own, s.live); }
    ghost var dw := WithTwo(d, c, OneEntry(x), b, OneEntry(c));
    PutDouble(s, inum, node, b, c, x, dw);
    DoubleLinked(d, dw, s.blocks, s.chain, s.free, s.own, s.live, inum, b, c, x);
    s.own := OwnDouble(s.own, inum, b, c, x);
  }

  // The effect of add_block when it returns block x for number n: the next block number is mapped, at exactly the cost
  // of the block and the index blocks it is first to need.  Other inodes, other numbers and all file data stay.
  ghost predicate Added(d: Disk, free: set<nat>, own: Owners, d': Disk, free': set<nat>, own': Owners,
                        live: set<nat>, inum: nat, x: nat)
  {
    var n := BlocksOf(InodeAt(d, inum));
    && FsOk(d', free', own', live)
    && x in free && x !in free' && free' <= free && |free| - |free'| == Needed(n)
    && AddedIds(d, d', live, inum, n, x)
    && SameHead(d, d') && SameMeta(InodeAt(d, inum), InodeAt(d', inum))
    && (forall i :: i in live && i != inum ==> InodeAt(d', i) == InodeAt(d, i))
    && (forall id {:trigger own[id]} :: id in own && own[id].ref.Data? ==> W(d', id) == W(d, id))
    && own'.Keys + free' <= own.Keys + free
    && (Shape(d, inum, n) ==> own'.Keys + free' == own.Keys + free)
    && (Id(d, inum, Data(n)) != 0 ==> Id(d, inum, Data(n)) !in own')
  }

  lemma AddedFrom(d: Disk, d1: Disk, d': Disk, free: set<nat>, free': set<nat>, own: Owners, own': Owners,
                  live: set<nat>, inum: nat, n: nat, x: nat, extra: nat)
    requires inum in live && x in free && n == BlocksOf(InodeAt(d, inum)) && extra + 1 == Needed(n)
    requires SameState(d, d1, own, live) && Linked(d1, free - {x}, own, d', free', own', live, inum, n, x, extra)
    ensures Added(d, free, own, d', free', own', live, inum, x)
  {
    LinkedFrom(d, d1, d', free - {x}, free', own, own', live, inum, n, x, extra);
    assert Opened(true);
    Account(free, free', own.Keys, own'.Keys, x, extra);
  }

  lemma Account(free: set<nat>, free': set<nat>, keys: set<nat>, keys': set<nat>, x: nat, extra: nat)
    requires x in free && free' <= free - {x} && |free - {x} - free'| == extra
    requires keys' <= keys + {x} + (free - {x} - free')
    ensures |free| - |free'| == extra + 1 && keys' + free' <= keys + free
    ensures keys' == keys + {x} + (free - {x} - free') ==> keys' + free' == keys + free
  {
    assert free == free' + (free - {x} - free') + {x};
  }

  // A failed allocation leaves every inode as it was.
  ghost predicate Stuck(d: Disk, d': Disk, free': set<nat>, own: Owners, live: set<nat>)
  {
    FsOk(d', free', own, live) && SameState(d, d', own, live)
  }

  lemma NoneLeft(d: Disk, d': Disk, free: set<nat>, own: Owners, live: set<nat>)
    requires FsOk(d, free, own, live) && free == {} && FreeList.OnlyFree(d, d', free)
    ensures Stuck(d, d', free, own, live)
  {
    OnlyFreeFs(d, d', free, free, own, live);
    UntouchedHead(d, d', own);
  }

  lemma StuckFrom(d: Disk, d1: Disk, d': Disk, free': set<nat>, own: Owners, live: set<nat>)
    requires SameState(d, d1, own, live) && Stuck(d1, d', free', own, live)
    ensures Stuck(d, d', free', own, live)
  {
    HeadThen(d, d1, d');
    forall i, r | i in live
      ensures Id(d', i, r) == Id(d, i, r)
    {
      assert Id(d1, i, r) == Id(d, i, r);
    }
  }

  // The single indirect branch of add_block.
  method LinkSingle(s: Device, inum: nat, node: Inode, num: nat, x: nat) returns (ok: bool)
    requires Fs(s) && inum in s.live && node == InodeAt(s.blocks, inum) && num == BlocksOf(node)
    requires FIRST_SINGLE <= num < FIRST_DOUBLE && Fresh(s.blocks, s.free, s.own, x)
    modifies s.log, s`blocks, s`chain, s`free, s`own
    ensures ok <==> |old(s.free)| >= Needed(num) - 1
    ensures FreeList.Records(s.blocks, s.chain, s.free)
    ensures ok ==>
      Linked(old(s.blocks), old(s.free), old(s.own), s.blocks, s.free, s.own, s.live, inum, num, x, Needed(num) - 1)
    ensures !ok ==> Stuck(old(s.blocks), s.blocks, s.free, s.own, s.live) && s.own == old(s.own)
  {
    var index := num - DIR_ID_NUM;
    if index == 0 {
      ok := NewSingle(s, inum, node, x);
    } else {
      SetEntry(s, inum, node[SINGLE], index, num, x);
      ok := true;
    }
  }

  // The double indirect branch of add_block.
  method LinkDouble(s: Device, inum: nat, node: Inode, num: nat, x: nat) returns (ok: bool)
    requires Fs(s) && inum in s.live && node == InodeAt(s.blocks, inum) && num == BlocksOf(node)
    requires FIRST_DOUBLE <= num < FIRST_TRIPLE && Fresh(s.blocks, s.free, s.own, x)
    modifies s.log, s`blocks, s`chain, s`free, s`own
    ensures ok <==> |old(s.free)| >= Needed(num) - 1
    ensures FreeList.Records(s.blocks, s.chain, s.free)
    ensures ok ==>
      Linked(old(s.blocks), old(s.free), old(s.own), s.blocks, s.free, s.own, s.live, inum, num, x, Needed(num) - 1)
    ensures !ok ==> Stuck(old(s.blocks), s.blocks, s.free, s.own, s.live) && s.own == old(s.own)
  {
    var d_index := (num - DIR_ID_NUM - INDIR_ID_NUM) / INDIR_ID_NUM;
    var index := (num - DIR_ID_NUM - INDIR_ID_NUM) % INDIR_ID_NUM;
    if d_index == 0 && index == 0 {
      ok := NewDouble(s, inum, node, x);
    } else if index == 0 {
      ok := NewRow(s, inum, node, num, d_index, x);
    } else {
      DoubleMapped(s.blocks, s.free, s.own, s.live, inum);
      var dind_block := DbRead(s, node[DOUBLE]);
      SetEntry(s, inum, dind_block.value[d_index], index, num, x);
      ok := true;
    }
  }

  // add_block, up to the end of the double indirect region.
  method AddBlock(s: Device, inum: nat) returns (r: Option<nat>)
    requires Fs(s) && inum in s.live && BlocksOf(InodeAt(s.blocks, inum)) < FIRST_TRIPLE
    modifies s.log, s`blocks, s`chain, s`free, s`own
    ensures r.Some? <==> |old(s.free)| >= Needed(BlocksOf(InodeAt(old(s.blocks), inum)))
    ensures Fs(s)
    ensures r.Some? ==> Added(old(s.blocks), old(s.free), old(s.own), s.blocks, s.free, s.own, s.live, inum, r.value)
    ensures r.Some? ==> r.value == FreeList.NextFree(old(s.blocks))
    ensures r.None? ==> Stuck(old(s.blocks), s.blocks, s.free, s.own, s.live) && s.own == old(s.own)
  {
    ghost var d, free, own := s.blocks, s.free, s.own;
    FreeList.RecordsFacts(d, s.chain, s.free);
    r := FreeList.Allocate(s);
    if r.None? {
      NoneLeft(d, s.blocks, free, own, s.live);
      return;
    }
    ghost var d1 := s.blocks;
    NewlyTaken(d, d1, free, s.free, own, s.live, r.value);
    assert inum < NUM_INODE && InUse(d1, inum) by { Open(d1, s.free, own, s.live); }
    var node := FindInode(s, inum);
    var num := Size(node.value) / DB_SIZE;
    if Size(node.value) % DB_SIZE != 0 {
      num := num + 1;
    }
    if num < DIR_ID_NUM {
      SetDirect(s, inum, node.value, num, r.value);
      AddedFrom(d, d1, s.blocks, free, s.free, own, s.own, s.live, inum, num, r.value, 0);
    } else {
      var ok;
      if num < DIR_ID_NUM + INDIR_ID_NUM {
        ok := LinkSingle(s, inum, node.value, num, r.value);
      } else {
        ok := LinkDouble(s, inum, node.value, num, r.value);
      }
      if ok {
        AddedFrom(d, d1, s.blocks, free, s.free, own, s.own, s.live, inum, num, r.value, Needed(num) - 1);
      } else {
        StuckFrom(d, d1, s.blocks, s.free, own, s.live);
        r := None;
      }
    }
  }

  lemma NewlyTaken(d: Disk, d': Disk, free: set<nat>, free': set<nat>, own: Owners, live: set<nat>, b: nat)
    requires FsOk(d, free, own, live) && FreeList.OnlyFree(d, d', free) && (forall c :: c in free ==> InData(d, c))
    requires b in free && free' == free - {b}
    ensures FsOk(d', free', own, live) && SameState(d, d', own, live) && Fresh(d', free', own, b)
    ensures |free| == |free'| + 1
  {
    OnlyFreeFs(d, d', free, free', own, live);
    UntouchedHead(d, d', own);
  }
}
