// A file as the bytes its inode maps, and what writing one of its blocks changes.

module FileView {
  import opened Blocks
  import opened Store
  import opened Inodes
  import opened Ownership
  import opened BlockMap
  import opened Growth
  import Lifetime
  import FreeList

  // Block number k of a file, as words.
  function DataAt(d: Disk, inum: nat, k: nat): WordBlock
  {
    W(d, Id(d, inum, Data(k)))
  }

  // Byte p of a file, whatever its size.
  function Raw(d: Disk, inum: nat, p: nat): Byte
  {
    Bytes(DataAt(d, inum, p / DB_SIZE))[p % DB_SIZE]
  }

  // The file.
  function Contents(d: Disk, inum: nat): (c: seq<Byte>)
    ensures |c| == Size(InodeAt(d, inum))
  {
    seq(Size(InodeAt(d, inum)), p requires 0 <= p < Size(InodeAt(d, inum)) => Raw(d, inum, p))
  }

  function Zeroes(n: nat): seq<Byte>
  {
    seq(n, _ => 0)
  }

  // The file reads the same.
  lemma SameContents(d: Disk, d': Disk, i: nat)
    requires Size(InodeAt(d', i)) == Size(InodeAt(d, i))
    requires forall k {:trigger Data(k)} :: 0 <= k < BlocksOf(InodeAt(d, i)) ==> DataAt(d', i, k) == DataAt(d, i, k)
    ensures Contents(d', i) == Contents(d, i)
  {
    forall p | 0 <= p < Size(InodeAt(d, i))
      ensures Raw(d', i, p) == Raw(d, i, p)
    {
      PlaceBound(p, Size(InodeAt(d, i)));
      assert Data(p / DB_SIZE) == Data(p / DB_SIZE);
    }
  }

  // Bytes below a size lie in its blocks.
  lemma PlaceBound(p: nat, size: nat)
    requires p < size
    ensures p / DB_SIZE < BlocksFor(size)
  {
  }

  // What happens to inum leaves every other file alone.
  lemma OthersContents(d: Disk, free: set<nat>, own: Owners, d': Disk, live: set<nat>, inum: nat, i: nat)
    requires FsOk(d, free, own, live) && OthersKept(d, own, d', live, inum) && i in live && i != inum
    ensures Contents(d', i) == Contents(d, i)
  {
    Open(d, free, own, live);
    assert Opened(true);
    assert Mapped(d, i);
    forall k | 0 <= k < BlocksOf(InodeAt(d, i))
      ensures DataAt(d', i, k) == DataAt(d, i, k)
    {
      var id := Id(d, i, Data(k));
      assert id != 0 && own[id] == Owner(i, Data(k));
      assert Id(d', i, Data(k)) == id;
    }
    SameContents(d, d', i);
  }

  // ---------- writing one block of a file ----------

  // d' is d with block number num of inum replaced.  Sealed like Linked.
  ghost predicate Rewritten(d: Disk, d': Disk, own: Owners, live: set<nat>, inum: nat, num: nat, ws: WordBlock)
  {
    forall w {:trigger Opened(w)} :: Opened(w) ==> RewrittenAll(d, d', own, live, inum, num, ws)
  }

  ghost predicate RewrittenAll(d: Disk, d': Disk, own: Owners, live: set<nat>, inum: nat, num: nat, ws: WordBlock)
  {
    && SameHead(d, d') && (forall i :: i in live ==> InodeAt(d', i) == InodeAt(d, i))
    && (forall i, r {:trigger Id(d', i, r)} :: i in live ==> Id(d', i, r) == Id(d, i, r))
    && DataAt(d', inum, num) == ws
    && (forall id {:trigger own[id]} :: id in own && id != Id(d, inum, Data(num)) ==> W(d', id) == W(d, id))
  }

  lemma RewriteFs(d: Disk, d': Disk, chain: seq<nat>, free: set<nat>, own: Owners, live: set<nat>,
                  inum: nat, num: nat, ws: WordBlock)
    requires FreeList.Records(d, chain, free) && FsOk(d, free, own, live) && inum in live
    requires var id := Id(d, inum, Data(num)); id != 0 && id < |d| && d' == d[id := ws]
    ensures FreeList.Records(d', chain, free) && FsOk(d', free, own, live)
    ensures Rewritten(d, d', own, live, inum, num, ws)
  {
    Open(d, free, own, live);
    RewriteOpen(d, d', own, live, inum, num, ws);
    RewriteFree(d, d', chain, free, own, Id(d, inum, Data(num)), ws);
    Close(d', free, own, live);
  }

  lemma RewriteOpen(d: Disk, d': Disk, own: Owners, live: set<nat>, inum: nat, num: nat, ws: WordBlock)
    requires Sized(d) && OwnOk(d, own, live) && LiveOk(d, live) && inum in live
    requires var id := Id(d, inum, Data(num)); id != 0 && id < |d| && d' == d[id := ws]
    ensures Sized(d') && OwnOk(d', own, live) && LiveOk(d', live) && Rewritten(d, d', own, live, inum, num, ws)
    ensures var id := Id(d, inum, Data(num)); id in own && InData(d, id)
  {
    var id := Id(d, inum, Data(num));
    DataOwned(d, own, live, inum, num);
    RewriteMarks(d, live, id, ws);
    RewriteIds(d, d', own, live, inum, num, ws);
    RewriteShown(d, d', own, live, inum, num, ws);
    Lifetime.MarkedLive(d, d', live);
  }

  lemma DataOwned(d: Disk, own: Owners, live: set<nat>, inum: nat, num: nat)
    requires OwnOk(d, own, live) && inum in live && Id(d, inum, Data(num)) != 0
    ensures var id := Id(d, inum, Data(num)); id in own && own[id] == Owner(inum, Data(num)) && InData(d, id)
  {
  }

  lemma RewriteMarks(d: Disk, live: set<nat>, id: nat, ws: WordBlock)
    requires Sized(d) && LiveOk(d, live) && InData(d, id) && id < |d|
    ensures var d' := d[id := ws];
      && NumBlock(d') == NumBlock(d) && |d'| == |d| && Sized(d')
      && forall i :: i in live ==> i < NUM_INODE && InodeAt(d', i) == InodeAt(d, i) && (InUse(d', i) <==> InUse(d, i))
  {
    assert forall i :: i in live ==> i < NUM_INODE;
    RewriteRecords(d, live, id, ws);
  }

  lemma RewriteShown(d: Disk, d': Disk, own: Owners, live: set<nat>, inum: nat, num: nat, ws: WordBlock)
    requires inum in live
    requires var id := Id(d, inum, Data(num)); InData(d, id) && id < |d| && d' == d[id := ws]
    requires forall i :: i in live ==> InodeAt(d', i) == InodeAt(d, i)
    requires forall i, r {:trigger Id(d', i, r)} :: i in live ==> Id(d', i, r) == Id(d, i, r)
    ensures Rewritten(d, d', own, live, inum, num, ws)
  {
    KeptHead(d, d');
  }

  // An owned block is not on the free list.
  lemma RewriteFree(d: Disk, d': Disk, chain: seq<nat>, free: set<nat>, own: Owners, id: nat, ws: WordBlock)
    requires FreeList.Records(d, chain, free) && own.Keys !! free && id in own && InData(d, id) && id < |d|
    requires d' == d[id := ws]
    ensures FreeList.Records(d', chain, free)
  {
    FreeList.RecordsFacts(d, chain, free);
    FreeList.RecordsFrame(d, d', chain, free);
  }

  // A data block holds no references.
  lemma RewriteIds(d: Disk, d': Disk, own: Owners, live: set<nat>, inum: nat, num: nat, ws: WordBlock)
    requires OwnOk(d, own, live) && inum in live && NumBlock(d') == NumBlock(d)
    requires var id := Id(d, inum, Data(num)); id != 0 && id < |d| && d' == d[id := ws]
    requires forall i :: i in live ==> InodeAt(d', i) == InodeAt(d, i)
    ensures OwnOk(d', own, live)
    ensures forall i, r {:trigger Id(d', i, r)} :: i in live ==> Id(d', i, r) == Id(d, i, r)
  {
    var id := Id(d, inum, Data(num));
    assert own[id] == Owner(inum, Data(num)) && InData(d, id);
    forall i | i in live
      ensures forall r :: Id(d', i, r) == Id(d, i, r)
    {
      SameIds(d, d', own, live, i);
    }
  }

  // Nor does it hold records or marks.
  lemma RewriteRecords(d: Disk, live: set<nat>, id: nat, ws: WordBlock)
    requires Sized(d) && InData(d, id) && id < |d| && forall i :: i in live ==> i < NUM_INODE
    ensures var d' := d[id := ws];
      && NumBlock(d') == NumBlock(d) && |d'| == |d|
      && forall i :: i in live ==> InodeAt(d', i) == InodeAt(d, i) && (InUse(d', i) <==> InUse(d, i))
  {
    DataRecords(d, id, ws, live);
    forall i | i in live
      ensures InUse(d[id := ws], i) <==> InUse(d, i)
    {
      TableRange(i);
    }
  }

  // ---------- bytes of one block ----------

  // memcpy of chunk into a block at byte o.
  function SpliceBytes(b: Block, o: nat, chunk: seq<Byte>): (r: Block)
    requires o + |chunk| <= DB_SIZE
  {
    b[..o] + chunk + b[o + |chunk|..]
  }

  // The same on words.
  function BlockSplice(ws: WordBlock, o: nat, chunk: seq<Byte>): WordBlock
    requires o + |chunk| <= DB_SIZE
  {
    Words(SpliceBytes(Bytes(ws), o, chunk))
  }

  // Block ws' is ws with the chunk at byte o.  Sealed like Linked.
  ghost predicate Spliced(ws: WordBlock, ws': WordBlock, o: nat, chunk: seq<Byte>)
  {
    forall w {:trigger Opened(w)} :: Opened(w) ==> forall j {:trigger Bytes(ws')[j]} :: 0 <= j < DB_SIZE ==>
      Bytes(ws')[j] == if o <= j < o + |chunk| then chunk[j - o] else Bytes(ws)[j]
  }

  lemma BlockSpliced(ws: WordBlock, o: nat, chunk: seq<Byte>)
    requires o + |chunk| <= DB_SIZE
    ensures Spliced(ws, BlockSplice(ws, o, chunk), o, chunk)
  {
    var b, b' := Bytes(ws), SpliceBytes(Bytes(ws), o, chunk);
    BytesRoundTrip(b');
    forall j | 0 <= j < DB_SIZE
      ensures Bytes(BlockSplice(ws, o, chunk))[j] == if o <= j < o + |chunk| then chunk[j - o] else b[j]
    {
      assert b'[j] == if o <= j < o + |chunk| then chunk[j - o] else b[j];
    }
  }

  // The byte at p after the chunk is put at pos.
  function Put(d: Disk, inum: nat, pos: nat, chunk: seq<Byte>, p: nat): Byte
  {
    if pos <= p < pos + |chunk| then chunk[p - pos] else Raw(d, inum, p)
  }

  lemma RewriteByte(d: Disk, d': Disk, own: Owners, live: set<nat>, inum: nat, num: nat, o: nat, chunk: seq<Byte>,
                    ws: WordBlock, p: nat, pos: nat)
    requires pos == DB_SIZE * num + o
    requires OwnOk(d, own, live) && inum in live && o + |chunk| <= DB_SIZE
    requires Id(d, inum, Data(num)) != 0 && Id(d, inum, Data(p / DB_SIZE)) != 0
    requires Rewritten(d, d', own, live, inum, num, ws) && Spliced(DataAt(d, inum, num), ws, o, chunk)
    ensures Raw(d', inum, p) == Put(d, inum, pos, chunk, p)
  {
    var k, j := p / DB_SIZE, p % DB_SIZE;
    RewriteData(d, d', own, live, inum, num, ws, k);
    PutByte(d, inum, num, o, chunk, ws, p, pos, k, j);
  }

  lemma SplicedAt(ws: WordBlock, ws': WordBlock, o: nat, chunk: seq<Byte>, j: nat)
    requires Spliced(ws, ws', o, chunk) && j < DB_SIZE
    ensures Bytes(ws')[j] == if o <= j < o + |chunk| then chunk[j - o] else Bytes(ws)[j]
  {
    assert Opened(true);
  }

  // Byte p is in the chunk at byte o of block num exactly when its place in the block is.
  lemma PlaceIn(num: nat, o: nat, w: nat, p: nat, pos: nat, k: nat, j: nat)
    requires o + w <= DB_SIZE && pos == DB_SIZE * num + o && k == p / DB_SIZE && j == p % DB_SIZE
    ensures pos <= p < pos + w <==> k == num && o <= j < o + w
    ensures k == num ==> p - pos == j - o
  {
    assert p == DB_SIZE * k + j;
  }

  lemma PutByte(d: Disk, inum: nat, num: nat, o: nat, chunk: seq<Byte>, ws: WordBlock, p: nat, pos: nat, k: nat, j: nat)
    requires o + |chunk| <= DB_SIZE && pos == DB_SIZE * num + o && k == p / DB_SIZE && j == p % DB_SIZE
    requires Spliced(DataAt(d, inum, num), ws, o, chunk)
    ensures Put(d, inum, pos, chunk, p) == if k == num then Bytes(ws)[j] else Raw(d, inum, p)
  {
    PlaceIn(num, o, |chunk|, p, pos, k, j);
    SplicedAt(DataAt(d, inum, num), ws, o, chunk, j);
  }

  lemma RewriteData(d: Disk, d': Disk, own: Owners, live: set<nat>, inum: nat, num: nat, ws: WordBlock, k: nat)
    requires OwnOk(d, own, live) && inum in live && Id(d, inum, Data(num)) != 0 && Id(d, inum, Data(k)) != 0
    requires Rewritten(d, d', own, live, inum, num, ws)
    ensures DataAt(d', inum, k) == if k == num then ws else DataAt(d, inum, k)
  {
    assert Opened(true);
    assert own[Id(d, inum, Data(k))] == Owner(inum, Data(k));
    assert own[Id(d, inum, Data(num))] == Owner(inum, Data(num));
  }

  // The first n blocks of the file hold the same data.
  ghost predicate SameData(d: Disk, d': Disk, inum: nat, n: nat)
  {
    forall w {:trigger Opened(w)} :: Opened(w) ==>
      forall k {:trigger DataAt(d', inum, k)} :: 0 <= k < n ==> DataAt(d', inum, k) == DataAt(d, inum, k)
  }

  lemma MappedFile(d: Disk, free: set<nat>, own: Owners, live: set<nat>, inum: nat)
    requires FsOk(d, free, own, live) && inum in live
    ensures AllMapped(d, inum, BlocksOf(InodeAt(d, inum)))
  {
    Open(d, free, own, live);
    assert Mapped(d, inum);
  }

  lemma ResizeData(d: Disk, own: Owners, d': Disk, live: set<nat>, inum: nat, size: nat, n: nat)
    requires OwnOk(d, own, live) && inum in live && AllMapped(d, inum, n)
    requires size < 0x1_0000_0000_0000_0000 && Resized(d, d', live, inum, size)
    ensures SameData(d, d', inum, n) && AllMapped(d', inum, n)
  {
    assert Opened(true);
    forall k | 0 <= k < n
      ensures Id(d', inum, Data(k)) == Id(d, inum, Data(k)) != 0 && DataAt(d', inum, k) == DataAt(d, inum, k)
    {
      assert Id(d, inum, Data(k)) != 0;
      assert InData(d, Id(d, inum, Data(k)));
    }
  }

  // The first n blocks of d' hold the bytes of d with the chunk put at pos.
  ghost predicate Patched(d: Disk, d': Disk, inum: nat, n: nat, pos: nat, chunk: seq<Byte>)
  {
    forall w {:trigger Opened(w)} :: Opened(w) ==>
      forall p {:trigger Raw(d', inum, p)} :: 0 <= p < DB_SIZE * n ==> Raw(d', inum, p) == Put(d, inum, pos, chunk, p)
  }

  lemma RewritePatched(d: Disk, d': Disk, own: Owners, live: set<nat>, inum: nat, num: nat, o: nat,
                       chunk: seq<Byte>, ws: WordBlock, n: nat, pos: nat)
    requires pos == DB_SIZE * num + o
    requires OwnOk(d, own, live) && inum in live && o + |chunk| <= DB_SIZE && num < n && AllMapped(d, inum, n)
    requires Rewritten(d, d', own, live, inum, num, ws) && Spliced(DataAt(d, inum, num), ws, o, chunk)
    ensures Patched(d, d', inum, n, pos, chunk) && AllMapped(d', inum, n)
  {
    assert Opened(true);
    forall p | 0 <= p < DB_SIZE * n
      ensures Raw(d', inum, p) == Put(d, inum, pos, chunk, p)
    {
      assert p / DB_SIZE < n && Data(p / DB_SIZE) == Data(p / DB_SIZE) && Data(num) == Data(num);
      RewriteByte(d, d', own, live, inum, num, o, chunk, ws, p, pos);
    }
  }

  lemma RewriteOthers(d: Disk, d': Disk, own: Owners, live: set<nat>, inum: nat, num: nat, ws: WordBlock)
    requires OwnOk(d, own, live) && inum in live && Id(d, inum, Data(num)) != 0
    requires Rewritten(d, d', own, live, inum, num, ws)
    ensures OthersKept(d, own, d', live, inum) && InodeAt(d', inum) == InodeAt(d, inum)
  {
    assert Opened(true);
    assert own[Id(d, inum, Data(num))] == Owner(inum, Data(num));
  }
}
