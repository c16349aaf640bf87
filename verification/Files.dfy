// write_file, truncate_file and read_file (inode.c) as operations on byte sequences.

module Files {
  import opened Blocks
  import opened Store
  import opened Inodes
  import opened Ownership
  import opened BlockMap
  import opened Growth
  import opened FileView
  import opened Chunking
  import opened Cut
  import opened Billing
  import opened Ledger

  // ---------- the abstract operations ----------

  // c cut or zero-extended to n bytes.
  function Resize(c: seq<Byte>, n: nat): (r: seq<Byte>)
    ensures |r| == n
  {
    if n <= |c| then c[..n] else c + Zeroes(n - |c|)
  }

  // c with bytes put at offset, zero-extended to there if it is shorter.
  function Splice(c: seq<Byte>, offset: nat, bytes: seq<Byte>): (r: seq<Byte>)
    ensures |r| == if offset + |bytes| > |c| then offset + |bytes| else |c|
  {
    Resize(c, offset) + bytes + (if offset + |bytes| < |c| then c[offset + |bytes|..] else [])
  }

  // The size that write_file leaves.
  function NewSize(inodeSize: nat, offset: nat, size: nat): nat
    requires size > 0
  {
    if offset > inodeSize then offset + size else SizeAfter(inodeSize, offset, size)
  }

  // Writes that leave the size a write should.
  predicate RightSize(inodeSize: nat, offset: nat, size: nat)
    requires size > 0
  {
    NewSize(inodeSize, offset, size) == if offset + size > inodeSize then offset + size else inodeSize
  }

  // They are: writes inside the file, writes from its end or beyond, writes to a file that ends at a block boundary;
  // and, by coincidence, those whose last chunk lies beyond the old last block and is as long as the overlap with it.
  lemma RightSizeWhen(inodeSize: nat, offset: nat, size: nat)
    requires size > 0
    ensures RightSize(inodeSize, offset, size) <==>
      || offset + size <= inodeSize || offset >= inodeSize || inodeSize % DB_SIZE == 0
      || (var e := FirstBeyond(inodeSize, offset);
          LastChunk(offset, size) > e && LastBytes(offset, size) == inodeSize - e)
    ensures NewSize(inodeSize, offset, size) >= if offset + size > inodeSize then offset + size else inodeSize
  {
    assert inodeSize == DB_SIZE * (inodeSize / DB_SIZE) + inodeSize % DB_SIZE;
  }

  // ---------- write_file and truncate_file ----------

  // Bytes from `from` on in the blocks that the file had are as before.
  ghost predicate SlackKept(d0: Disk, d: Disk, inum: nat, from: nat)
  {
    forall p {:trigger Raw(d, inum, p)} :: from <= p < DB_SIZE * BlocksFor(Size(InodeAt(d0, inum))) ==>
      Raw(d, inum, p) == Raw(d0, inum, p)
  }

  // The file begins with c, its old blocks are otherwise as before, and so are other files.  Sealed like Linked.
  ghost predicate Wrote(d0: Disk, own0: Owners, d: Disk, live: set<nat>, inum: nat, c: seq<Byte>)
  {
    forall w {:trigger Opened(w)} :: Opened(w) ==>
      && OthersKept(d0, own0, d, live, inum) && Size(InodeAt(d0, inum)) <= |c| <= Size(InodeAt(d, inum))
      && Contents(d, inum)[..|c|] == c && SlackKept(d0, d, inum, |c|)
  }

  lemma SpliceAt(c: seq<Byte>, offset: nat, bytes: seq<Byte>, p: nat)
    requires offset <= |c| && p < |Splice(c, offset, bytes)|
    ensures offset <= p < offset + |bytes| ==> Splice(c, offset, bytes)[p] == bytes[p - offset]
    ensures !(offset <= p < offset + |bytes|) ==> p < |c| && Splice(c, offset, bytes)[p] == c[p]
  {
  }

  lemma ProgressSplice(d0: Disk, d: Disk, inum: nat, offset: nat, buf: seq<Byte>)
    requires offset <= Size(InodeAt(d0, inum))
    requires Progress(d0, d, inum, Size(InodeAt(d0, inum)), offset, buf, offset + |buf|)
    requires |Splice(Contents(d0, inum), offset, buf)| <= Size(InodeAt(d, inum))
    ensures var c := Splice(Contents(d0, inum), offset, buf);
      Contents(d, inum)[..|c|] == c && SlackKept(d0, d, inum, |c|)
  {
    assert Size(InodeAt(d0, inum)) <= DB_SIZE * BlocksFor(Size(InodeAt(d0, inum)));
    var c0, c1 := Contents(d0, inum), Contents(d, inum);
    var c := Splice(c0, offset, buf);
    forall p | 0 <= p < |c|
      ensures c1[p] == c[p]
    {
      SpliceAt(c0, offset, buf, p);
      assert c1[p] == Raw(d, inum, p);
    }
  }

  // What the loop of write_file has done, in terms of contents.
  lemma WrittenWrote(d0: Disk, free0: set<nat>, own0: Owners, d: Disk, free: set<nat>, own: Owners,
                     live: set<nat>, inum: nat, offset: nat, buf: seq<Byte>, bill: Bill)
    requires Written(d0, free0, own0, d, free, own, live, inum, Size(InodeAt(d0, inum)), offset, buf, bill)
    ensures offset <= Size(InodeAt(d0, inum)) && |buf| > 0
    ensures Size(InodeAt(d, inum)) == SizeAfter(Size(InodeAt(d0, inum)), offset, |buf|)
    ensures Wrote(d0, own0, d, live, inum, Splice(Contents(d0, inum), offset, buf))
    ensures Counted(d0, free0, own0, d, free, own, inum, bill)
  {
    assert Shown(true);
    RightSizeWhen(Size(InodeAt(d0, inum)), offset, |buf|);
    assert Progress(d0, d, inum, Size(InodeAt(d0, inum)), offset, buf, offset + |buf|)
      && OthersKept(d0, own0, d, live, inum) by {
      assert Opened(true);
    }
    ProgressSplice(d0, d, inum, offset, buf);
  }

  lemma SlackThen(d0: Disk, d1: Disk, d2: Disk, inum: nat, from: nat, from': nat)
    requires SlackKept(d0, d1, inum, from) && SlackKept(d1, d2, inum, from') && from <= from'
    requires Size(InodeAt(d0, inum)) <= Size(InodeAt(d1, inum))
    ensures SlackKept(d0, d2, inum, from')
  {
    var n0, n1 := BlocksFor(Size(InodeAt(d0, inum))), BlocksFor(Size(InodeAt(d1, inum)));
    assert n0 <= n1;
    forall p | from' <= p < DB_SIZE * n0
      ensures Raw(d2, inum, p) == Raw(d0, inum, p)
    {
      assert p < DB_SIZE * n1 && Raw(d1, inum, p) == Raw(d0, inum, p);
    }
  }

  lemma WroteThen(d0: Disk, free0: set<nat>, own0: Owners, d1: Disk, free1: set<nat>, own1: Owners,
                  d2: Disk, live: set<nat>, inum: nat, c1: seq<Byte>, c2: seq<Byte>)
    requires FsOk(d0, free0, own0, live) && FsOk(d1, free1, own1, live)
    requires Wrote(d0, own0, d1, live, inum, c1) && Wrote(d1, own1, d2, live, inum, c2)
    ensures Wrote(d0, own0, d2, live, inum, c2)
  {
    assert Opened(true);
    SlackThen(d0, d1, d2, inum, |c1|, |c2|);
    OthersThen(d0, free0, own0, d1, free1, own1, d2, live, inum);
  }

  // The file is exactly c.
  lemma WroteExact(d0: Disk, own0: Owners, d: Disk, live: set<nat>, inum: nat, c: seq<Byte>)
    requires Wrote(d0, own0, d, live, inum, c) && Size(InodeAt(d, inum)) == |c|
    ensures Contents(d, inum) == c && OthersKept(d0, own0, d, live, inum)
  {
    assert Opened(true);
  }

  lemma WroteNothing(d: Disk, own: Owners, live: set<nat>, inum: nat)
    ensures Wrote(d, own, d, live, inum, Contents(d, inum))
  {
  }

  lemma SplicePast(c: seq<Byte>, offset: nat, bytes: seq<Byte>)
    requires offset > |c|
    ensures Splice(Resize(c, offset), offset, bytes) == Splice(c, offset, bytes)
  {
  }

  // Writing zeroes at the end of an extended file extends it further.
  lemma SpliceZeroes(c: seq<Byte>, n: nat, m: nat, n': nat)
    requires |c| <= n && n' == n + m
    ensures Splice(Resize(c, n), n, Zeroes(m)) == Resize(c, n')
  {
  }

  // Largest file, from the superblock; sb_init sets it beyond every int.
  const FILE_SIZE := 30 * 1024 * 1024 * 1024

  lemma SizeBound(d: Disk, free: set<nat>, own: Owners, live: set<nat>, inum: nat)
    requires FsOk(d, free, own, live) && inum in live
    ensures Size(InodeAt(d, inum)) < 0x2_0000_0000
  {
    Open(d, free, own, live);
    assert Mapped(d, inum);
  }

  lemma AtEnd(inodeSize: nat, n: nat)
    requires 0 < n <= DB_SIZE
    ensures SizeAfter(inodeSize, inodeSize, n) == inodeSize + n
  {
  }

  // write_file and truncate_file call each other; the bill of each is a ghost parameter.
  method WriteFor(s: Device, inum: nat, buf: seq<Byte>, size: int, offset: int, ghost bill: Bill) returns (r: int)
    requires Fs(s) && (inum < NUM_INODE ==> inum in s.live) && size <= |buf| && offset + size <= INT_MAX
    requires 0 < size && 0 <= offset && inum < NUM_INODE ==>
      WriteIs(Size(InodeAt(s.blocks, inum)), offset, size, bill) && |s.free| >= bill.taken
    modifies s.log, s`blocks, s`chain, s`free, s`own
    ensures Fs(s)
    ensures r == if inum < NUM_INODE && offset >= 0 && size > 0 then size
                 else if inum < NUM_INODE && offset + size >= 0 && size == 0 then 0 else -1
    ensures r <= 0 ==> s.blocks == old(s.blocks) && s.free == old(s.free) && s.own == old(s.own)
    ensures r > 0 ==> Size(InodeAt(s.blocks, inum)) == NewSize(Size(InodeAt(old(s.blocks), inum)), offset, size)
    ensures r > 0 ==>
      Wrote(old(s.blocks), old(s.own), s.blocks, s.live, inum,
            Splice(Contents(old(s.blocks), inum), offset, buf[..size]))
    ensures r > 0 ==> Counted(old(s.blocks), old(s.free), old(s.own), s.blocks, s.free, s.own, inum, bill)
    decreases if offset > Size(InodeAt(s.blocks, inum)) then 2 else 0, 0
  {
    if offset + size < 0 || offset + size > FILE_SIZE {
      return -1;
    }
    if inum > NUM_INODE - 1 {
      return -1;
    }
    if size < 0 {
      return -1;
    }
    if size == 0 {
      return 0;
    }
    var inode_size := GetInodeSize(s, inum);
    if offset < 0 {
      return -1;
    }
    ghost var d, free, own := s.blocks, s.free, s.own;
    SizeBound(d, free, own, s.live, inum);
    if offset > inode_size {
      r := WritePast(s, inum, buf[..size], offset, inode_size, bill);
    } else {
      WriteInside(inode_size, offset, size, bill);
      r := WriteBlocks(s, inum, buf[..size], offset, inode_size, bill);
      WrittenWrote(d, free, own, s.blocks, s.free, s.own, s.live, inum, offset, buf[..size], bill);
    }
  }

  // write_file at an offset past the end: the file is extended to there first.
  method WritePast(s: Device, inum: nat, buf: seq<Byte>, offset: nat, isz: nat, ghost bill: Bill) returns (r: int)
    requires Fs(s) && inum in s.live && inum < NUM_INODE && |buf| > 0 && offset + |buf| <= INT_MAX
    requires isz == Size(InodeAt(s.blocks, inum)) < offset && WriteIs(isz, offset, |buf|, bill)
    requires |s.free| >= bill.taken
    modifies s.log, s`blocks, s`chain, s`free, s`own
    ensures Fs(s) && r == |buf| && Size(InodeAt(s.blocks, inum)) == NewSize(isz, offset, |buf|)
    ensures Wrote(old(s.blocks), old(s.own), s.blocks, s.live, inum, Splice(Contents(old(s.blocks), inum), offset, buf))
    ensures Counted(old(s.blocks), old(s.free), old(s.own), s.blocks, s.free, s.own, inum, bill)
    decreases 1, 3
  {
    ghost var d0, free0, own0 := s.blocks, s.free, s.own;
    ghost var zeroes, loop := WriteBeyond(isz, offset, |buf|, bill);
    var _ := TruncateFor(s, inum, offset, zeroes);
    ghost var d1, free1, own1 := s.blocks, s.free, s.own;
    CountedFree(d0, free0, own0, d1, free1, own1, inum, zeroes);
    WroteExact(d0, own0, d1, s.live, inum, Resize(Contents(d0, inum), offset));
    r := WriteEnd(s, inum, buf, offset, loop);
    PastSize(isz, offset, |buf|);
    PastEffect(d0, free0, own0, d1, free1, own1, s.blocks, s.free, s.own, s.live, inum, offset, buf, zeroes, loop,
               bill);
  }

  // The rest of it, a write at the end.
  method WriteEnd(s: Device, inum: nat, buf: seq<Byte>, offset: nat, ghost loop: Bill) returns (r: int)
    requires Fs(s) && inum in s.live && |buf| > 0 && offset + |buf| <= INT_MAX
    requires Size(InodeAt(s.blocks, inum)) == offset
    requires LoopIs(offset, offset, |buf|, loop) && |s.free| >= loop.taken
    modifies s.log, s`blocks, s`chain, s`free, s`own
    ensures Fs(s) && r == |buf| && Size(InodeAt(s.blocks, inum)) == SizeAfter(offset, offset, |buf|)
    ensures Wrote(old(s.blocks), old(s.own), s.blocks, s.live, inum, Splice(Contents(old(s.blocks), inum), offset, buf))
    ensures Counted(old(s.blocks), old(s.free), old(s.own), s.blocks, s.free, s.own, inum, loop)
  {
    ghost var d, free, own := s.blocks, s.free, s.own;
    var inode_size := GetInodeSize(s, inum);
    r := WriteBlocks(s, inum, buf, offset, inode_size, loop);
    WrittenWrote(d, free, own, s.blocks, s.free, s.own, s.live, inum, offset, buf, loop);
  }

  lemma PastSize(isz: nat, offset: nat, n: nat)
    requires isz < offset && n > 0
    ensures SizeAfter(offset, offset, n) == NewSize(isz, offset, n) == offset + n
  {
    RightSizeWhen(offset, offset, n);
  }

  lemma PastEffect(d0: Disk, free0: set<nat>, own0: Owners, d1: Disk, free1: set<nat>, own1: Owners,
                   d2: Disk, free2: set<nat>, own2: Owners, live: set<nat>, inum: nat, offset: nat, buf: seq<Byte>,
                   zeroes: Bill, loop: Bill, bill: Bill)
    requires FsOk(d0, free0, own0, live) && FsOk(d1, free1, own1, live) && Size(InodeAt(d0, inum)) < offset
    requires Contents(d1, inum) == Resize(Contents(d0, inum), offset)
    requires Wrote(d0, own0, d1, live, inum, Contents(d1, inum))
    requires Wrote(d1, own1, d2, live, inum, Splice(Contents(d1, inum), offset, buf))
    requires Counted(d0, free0, own0, d1, free1, own1, inum, zeroes)
    requires Counted(d1, free1, own1, d2, free2, own2, inum, loop)
    requires IsThen(zeroes, loop, bill)
    ensures Wrote(d0, own0, d2, live, inum, Splice(Contents(d0, inum), offset, buf))
    ensures Counted(d0, free0, own0, d2, free2, own2, inum, bill)
  {
    SplicePast(Contents(d0, inum), offset, buf);
    WroteThen(d0, free0, own0, d1, free1, own1, d2, live, inum, Contents(d1, inum),
              Splice(Contents(d1, inum), offset, buf));
    CountedThen(d0, free0, own0, d1, free1, own1, d2, free2, own2, inum, zeroes, loop, bill);
  }

  // The extension so far: the file is its old self and zeroes up to pos, with `rest` to go; b is taken, c to come.
  // Sealed by Shown.
  ghost predicate Stretching(s0: Snapshot, s1: Snapshot, live: set<nat>, inum: nat, pos: nat, rest: nat,
                             b: Bill, c: Bill, goal: Bill)
  {
    forall w {:trigger Shown(w)} :: Shown(w) ==>
      && FsOk(s0.d, s0.free, s0.own, live) && FsOk(s1.d, s1.free, s1.own, live) && inum in live
      && Size(InodeAt(s1.d, inum)) == pos >= Size(InodeAt(s0.d, inum))
      && Wrote(s0.d, s0.own, s1.d, live, inum, Resize(Contents(s0.d, inum), pos))
      && Counted(s0.d, s0.free, s0.own, s1.d, s1.free, s1.own, inum, b)
      && ZeroIs(pos, rest, c) && IsThen(b, c, goal) && |s0.free| >= goal.taken
  }

  lemma StretchStart(s0: Snapshot, live: set<nat>, inum: nat, pos: nat, rest: nat, goal: Bill)
    requires FsOk(s0.d, s0.free, s0.own, live) && inum in live && pos == Size(InodeAt(s0.d, inum))
    requires ZeroIs(pos, rest, goal) && |s0.free| >= goal.taken
    ensures Stretching(s0, s0, live, inum, pos, rest, NO_BILL, goal, goal)
  {
    WroteNothing(s0.d, s0.own, live, inum);
    CountedNothing(s0.d, s0.free, s0.own, inum);
    assert Resize(Contents(s0.d, inum), pos) == Contents(s0.d, inum);
    assert Then(NO_BILL, goal) == goal;
  }

  // Room for the next write of n zeroes, and its bill.
  lemma StretchReady(s0: Snapshot, s1: Snapshot, live: set<nat>, inum: nat, pos: nat, rest: nat, b: Bill, c: Bill,
                     goal: Bill, n: nat, pos': nat, rest': nat)
    returns (page: Bill, c': Bill)
    requires Stretching(s0, s1, live, inum, pos, rest, b, c, goal)
    requires rest > 0 && n == (if rest >= DB_SIZE then DB_SIZE else rest) && pos' == pos + n && rest' == rest - n
    ensures inum in live && Size(InodeAt(s1.d, inum)) == pos
    ensures WriteIs(pos, pos, n, page) && |s1.free| >= page.taken && IsThen(page, c', c) && ZeroIs(pos', rest', c')
  {
    assert ZeroIs(pos, rest, c) && IsThen(b, c, goal) && |s0.free| >= goal.taken && inum in live
      && Size(InodeAt(s1.d, inum)) == pos
      && Counted(s0.d, s0.free, s0.own, s1.d, s1.free, s1.own, inum, b) by { assert Shown(true); }
    CountedFree(s0.d, s0.free, s0.own, s1.d, s1.free, s1.own, inum, b);
    page, c' := ZeroSplit(pos, rest, n, pos', rest', c);
    InsideWrite(pos, pos, n, page);
    assert Settled(true);
  }

  lemma StretchNext(s0: Snapshot, s1: Snapshot, s2: Snapshot, live: set<nat>, inum: nat, pos: nat, rest: nat,
                    b: Bill, c: Bill, goal: Bill, n: nat, pos': nat, rest': nat, page: Bill, c': Bill, b': Bill)
    requires Stretching(s0, s1, live, inum, pos, rest, b, c, goal) && pos' == pos + n
    requires rest' == rest - n
    requires FsOk(s2.d, s2.free, s2.own, live) && Size(InodeAt(s2.d, inum)) == pos'
    requires Wrote(s1.d, s1.own, s2.d, live, inum, Splice(Contents(s1.d, inum), pos, Zeroes(n)))
    requires Counted(s1.d, s1.free, s1.own, s2.d, s2.free, s2.own, inum, page)
    requires IsThen(page, c', c) && IsThen(b, page, b') && ZeroIs(pos', rest', c')
    ensures Stretching(s0, s2, live, inum, pos', rest', b', c', goal)
  {
    StretchFacts(s0, s1, live, inum, pos, rest, b, c, goal);
    StretchWrote(s0.d, s0.free, s0.own, s1.d, s1.free, s1.own, s2.d, live, inum, pos, n, pos');
    CountedThen(s0.d, s0.free, s0.own, s1.d, s1.free, s1.own, s2.d, s2.free, s2.own, inum, b, page, b');
    ThenNext(b, c, goal, page, c', b');
  }

  lemma StretchFacts(s0: Snapshot, s1: Snapshot, live: set<nat>, inum: nat, pos: nat, rest: nat, b: Bill, c: Bill,
                     goal: Bill)
    requires Stretching(s0, s1, live, inum, pos, rest, b, c, goal)
    ensures FsOk(s0.d, s0.free, s0.own, live) && FsOk(s1.d, s1.free, s1.own, live) && inum in live
    ensures Size(InodeAt(s1.d, inum)) == pos >= Size(InodeAt(s0.d, inum))
    ensures Wrote(s0.d, s0.own, s1.d, live, inum, Resize(Contents(s0.d, inum), pos))
    ensures Counted(s0.d, s0.free, s0.own, s1.d, s1.free, s1.own, inum, b)
    ensures IsThen(b, c, goal) && |s0.free| >= goal.taken
  {
    assert Shown(true);
  }

  lemma StretchWrote(d0: Disk, free0: set<nat>, own0: Owners, d1: Disk, free1: set<nat>, own1: Owners,
                     d2: Disk, live: set<nat>, inum: nat, pos: nat, n: nat, pos': nat)
    requires FsOk(d0, free0, own0, live) && FsOk(d1, free1, own1, live) && pos' == pos + n
    requires Size(InodeAt(d1, inum)) == pos >= Size(InodeAt(d0, inum))
    requires Wrote(d0, own0, d1, live, inum, Resize(Contents(d0, inum), pos))
    requires Wrote(d1, own1, d2, live, inum, Splice(Contents(d1, inum), pos, Zeroes(n)))
    ensures Wrote(d0, own0, d2, live, inum, Resize(Contents(d0, inum), pos'))
  {
    var c := Contents(d0, inum);
    WroteExact(d0, own0, d1, live, inum, Resize(c, pos));
    SpliceZeroes(c, pos, n, pos');
    WroteThen(d0, free0, own0, d1, free1, own1, d2, live, inum, Resize(c, pos), Resize(c, pos'));
  }

  // One write of zeroes by truncate_file.
  method ExtendBy(s: Device, inum: nat, n: nat, writeoff: nat, ghost rest: nat, ghost writeoff': nat, ghost rest': nat,
                  ghost b: Bill, ghost c: Bill, ghost goal: Bill, ghost s0: Snapshot)
    returns (ghost b': Bill, ghost c': Bill)
    requires Fs(s) && Stretching(s0, Now(s), s.live, inum, writeoff, rest, b, c, goal)
    requires inum < NUM_INODE && rest > 0 && n == (if rest >= DB_SIZE then DB_SIZE else rest)
    requires writeoff + rest <= INT_MAX
    requires writeoff' == writeoff + n && rest' == rest - n
    modifies s.log, s`blocks, s`chain, s`free, s`own
    ensures Fs(s) && Stretching(s0, Now(s), s.live, inum, writeoff', rest', b', c', goal)
    decreases 1, 0
  {
    ghost var s1, page := Now(s), NO_BILL;
    page, c' := StretchReady(s0, s1, s.live, inum, writeoff, rest, b, c, goal, n, writeoff', rest');
    AtEnd(writeoff, n);
    var zero_buf := Zeroes(DB_SIZE);
    assert zero_buf[..n] == Zeroes(n);
    var _ := WriteFor(s, inum, zero_buf, n, writeoff, page);
    b' := Then(b, page);
    StretchNext(s0, s1, Now(s), s.live, inum, writeoff, rest, b, c, goal, n, writeoff', rest', page, c', b');
  }

  lemma StretchEnd(s0: Snapshot, s1: Snapshot, live: set<nat>, inum: nat, pos: nat, b: Bill, c: Bill, goal: Bill)
    requires Stretching(s0, s1, live, inum, pos, 0, b, c, goal)
    ensures Size(InodeAt(s1.d, inum)) == pos
    ensures Wrote(s0.d, s0.own, s1.d, live, inum, Resize(Contents(s0.d, inum), pos))
    ensures Counted(s0.d, s0.free, s0.own, s1.d, s1.free, s1.own, inum, goal)
  {
    assert Shown(true);
    ZeroOver(pos, c);
    ThenNothing(b, goal);
  }

  // The extending half of truncate_file.
  method ExtendFile(s: Device, inum: nat, offset: nat, inode_size: nat, ghost bill: Bill)
    requires Fs(s) && inum in s.live && inum < NUM_INODE
    requires inode_size == Size(InodeAt(s.blocks, inum)) < offset <= INT_MAX
    requires ZeroIs(inode_size, offset - inode_size, bill) && |s.free| >= bill.taken
    modifies s.log, s`blocks, s`chain, s`free, s`own
    ensures Fs(s) && Size(InodeAt(s.blocks, inum)) == offset
    ensures Wrote(old(s.blocks), old(s.own), s.blocks, s.live, inum, Resize(Contents(old(s.blocks), inum), offset))
    ensures Counted(old(s.blocks), old(s.free), old(s.own), s.blocks, s.free, s.own, inum, bill)
    decreases 1, 1
  {
    ghost var s0, b, c := Now(s), NO_BILL, bill;
    var towrite: nat, writeoff: nat := offset - inode_size, inode_size;
    StretchStart(s0, s.live, inum, writeoff, towrite, bill);
    while towrite >= DB_SIZE
      invariant writeoff + towrite == offset && Fs(s)
      invariant Stretching(s0, Now(s), s.live, inum, writeoff, towrite, b, c, bill)
    {
      var left: nat, next: nat := towrite - DB_SIZE, writeoff + DB_SIZE;
      b, c := ExtendBy(s, inum, DB_SIZE, writeoff, towrite, next, left, b, c, bill, s0);
      towrite, writeoff := left, next;
    }
    if towrite > 0 {
      b, c := ExtendBy(s, inum, towrite, writeoff, towrite, offset, 0, b, c, bill, s0);
      writeoff := offset;
    }
    StretchEnd(s0, Now(s), s.live, inum, writeoff, b, c, bill);
  }

  method TruncateFor(s: Device, inum: nat, offset: int, ghost bill: Bill) returns (status: int)
    requires Fs(s) && (inum < NUM_INODE ==> inum in s.live) && offset <= INT_MAX
    requires 0 <= offset && inum < NUM_INODE ==>
      var isz := Size(InodeAt(s.blocks, inum));
      && (offset < isz ==> CleanCut(BlocksFor(isz), BlocksFor(offset)))
      && (offset > isz ==> ZeroIs(isz, offset - isz, bill) && |s.free| >= bill.taken)
    modifies s.log, s`blocks, s`chain, s`free, s`own
    ensures Fs(s) && status == if inum < NUM_INODE && offset >= 0 then 0 else -1
    ensures status == -1 || offset == Size(InodeAt(old(s.blocks), inum)) ==>
      s.blocks == old(s.blocks) && s.free == old(s.free) && s.own == old(s.own)
    ensures status == 0 ==> Size(InodeAt(s.blocks, inum)) == offset
    ensures status == 0 && offset < Size(InodeAt(old(s.blocks), inum)) ==>
      CutEffect(old(s.blocks), old(s.free), old(s.own), s.blocks, s.free, s.own, s.live, inum, offset)
    ensures status == 0 && offset > Size(InodeAt(old(s.blocks), inum)) ==>
      && Wrote(old(s.blocks), old(s.own), s.blocks, s.live, inum, Resize(Contents(old(s.blocks), inum), offset))
      && Counted(old(s.blocks), old(s.free), old(s.own), s.blocks, s.free, s.own, inum, bill)
    decreases 1, 2
  {
    if offset < 0 {
      return -1;
    }
    if inum > NUM_INODE - 1 {
      return -1;
    }
    var inode_size := GetInodeSize(s, inum);
    if offset < inode_size {
      CutFile(s, inum, offset, inode_size);
    } else if offset > inode_size {
      ExtendFile(s, inum, offset, inode_size, bill);
    }
    status := 0;
  }

  // ---------- as a caller sees them ----------

  // Every block that inum owned or could have got is its own or free again, and its size accounts for all of them.
  ghost predicate Accounted(d0: Disk, free0: set<nat>, own0: Owners, d: Disk, free: set<nat>, own: Owners, inum: nat)
  {
    Shape(d, inum, BlocksOf(InodeAt(d, inum))) && own.Keys + free == own0.Keys + free0
  }

  // write_file.  The size left is NewSize, and up to offset + size, or the old size if that is more, the bytes are
  // those of the splice; RightSize says when the two agree.  It takes exactly the blocks of WriteBill, whose closed
  // form is Billing.BeyondBill and Billing.ZeroesBill, and from an exact shape it accounts for every block exactly for
  // the writes that LosesNothing describes; after any other a block is mapped beyond the size or lost.
  method WriteFile(s: Device, inum: nat, buf: seq<Byte>, size: int, offset: int) returns (r: int)
    requires Fs(s) && (inum < NUM_INODE ==> inum in s.live) && size <= |buf| && offset + size <= INT_MAX
    requires 0 < size && 0 <= offset && inum < NUM_INODE ==>
      |s.free| >= WriteBill(Size(InodeAt(s.blocks, inum)), offset, size).taken
    modifies s.log, s`blocks, s`chain, s`free, s`own
    ensures Fs(s)
    ensures r == if inum < NUM_INODE && offset >= 0 && size > 0 then size
                 else if inum < NUM_INODE && offset + size >= 0 && size == 0 then 0 else -1
    ensures r <= 0 ==> s.blocks == old(s.blocks) && s.free == old(s.free) && s.own == old(s.own)
    ensures r > 0 ==> Size(InodeAt(s.blocks, inum)) == NewSize(Size(InodeAt(old(s.blocks), inum)), offset, size)
    ensures r > 0 ==>
      Wrote(old(s.blocks), old(s.own), s.blocks, s.live, inum,
            Splice(Contents(old(s.blocks), inum), offset, buf[..size]))
    ensures r > 0 ==> s.free <= old(s.free) && s.own.Keys + s.free <= old(s.own.Keys + s.free)
    ensures r > 0 ==> |s.free| + WriteBill(Size(InodeAt(old(s.blocks), inum)), offset, size).taken == |old(s.free)|
    ensures r > 0 && Shape(old(s.blocks), inum, BlocksOf(InodeAt(old(s.blocks), inum))) ==>
      (Accounted(old(s.blocks), old(s.free), old(s.own), s.blocks, s.free, s.own, inum)
       <==> LosesNothing(Size(InodeAt(old(s.blocks), inum)), offset, size))
  {
    ghost var d, free, own, bill := s.blocks, s.free, s.own, NO_BILL;
    if 0 < size && 0 <= offset {
      bill := WriteBill(Size(InodeAt(d, inum)), offset, size);
    }
    r := WriteFor(s, inum, buf, size, offset, bill);
    if r > 0 {
      WriteAccount(d, free, own, s.blocks, s.free, s.own, inum, offset, size, bill);
    }
  }

  lemma WriteAccount(d: Disk, free: set<nat>, own: Owners, d': Disk, free': set<nat>, own': Owners,
                     inum: nat, offset: nat, size: nat, bill: Bill)
    requires size > 0 && bill == WriteBill(Size(InodeAt(d, inum)), offset, size)
    requires Counted(d, free, own, d', free', own', inum, bill)
    ensures free' <= free && own'.Keys + free' <= own.Keys + free && |free'| + bill.taken == |free|
    ensures Shape(d, inum, BlocksOf(InodeAt(d, inum))) ==>
      (Accounted(d, free, own, d', free', own', inum) <==> LosesNothing(Size(InodeAt(d, inum)), offset, size))
  {
    CountedFree(d, free, own, d', free', own', inum, bill);
    LosesNothingExactly(Size(InodeAt(d, inum)), offset, size);
    if Shape(d, inum, BlocksOf(InodeAt(d, inum))) { CountedExactly(d, free, own, d', free', own', inum, bill); }
  }

  // Blocks that truncate_file takes.
  function TruncateTaken(inodeSize: nat, size: nat): nat
  {
    if size > inodeSize then ZeroBill(inodeSize, size - inodeSize).taken else 0
  }

  // truncate_file: a cut, or an extension by zeroes, which loses no block exactly if the file ends at a block boundary.
  method TruncateFile(s: Device, inum: nat, offset: int) returns (status: int)
    requires Fs(s) && (inum < NUM_INODE ==> inum in s.live) && offset <= INT_MAX
    requires 0 <= offset && inum < NUM_INODE ==>
      var isz := Size(InodeAt(s.blocks, inum));
      && (offset < isz ==> CleanCut(BlocksFor(isz), BlocksFor(offset)))
      && (offset < isz || |s.free| >= TruncateTaken(isz, offset))
    modifies s.log, s`blocks, s`chain, s`free, s`own
    ensures Fs(s) && status == if inum < NUM_INODE && offset >= 0 then 0 else -1
    ensures status == -1 || offset == Size(InodeAt(old(s.blocks), inum)) ==>
      s.blocks == old(s.blocks) && s.free == old(s.free) && s.own == old(s.own)
    ensures status == 0 ==> Size(InodeAt(s.blocks, inum)) == offset
    ensures status == 0 && offset < Size(InodeAt(old(s.blocks), inum)) ==>
      CutEffect(old(s.blocks), old(s.free), old(s.own), s.blocks, s.free, s.own, s.live, inum, offset)
    ensures status == 0 && offset > Size(InodeAt(old(s.blocks), inum)) ==>
      && Wrote(old(s.blocks), old(s.own), s.blocks, s.live, inum, Resize(Contents(old(s.blocks), inum), offset))
      && s.free <= old(s.free) && s.own.Keys + s.free <= old(s.own.Keys + s.free)
      && |s.free| + TruncateTaken(Size(InodeAt(old(s.blocks), inum)), offset) == |old(s.free)|
    ensures status == 0 && offset > Size(InodeAt(old(s.blocks), inum)) &&
            Shape(old(s.blocks), inum, BlocksOf(InodeAt(old(s.blocks), inum))) ==>
      (Accounted(old(s.blocks), old(s.free), old(s.own), s.blocks, s.free, s.own, inum)
       <==> Size(InodeAt(old(s.blocks), inum)) % DB_SIZE == 0)
  {
    ghost var d, free, own, isz, bill := s.blocks, s.free, s.own, Size(InodeAt(s.blocks, inum)), NO_BILL;
    if offset > isz {
      bill := ZeroBill(isz, offset - isz);
    }
    status := TruncateFor(s, inum, offset, bill);
    if status == 0 && offset > isz {
      ZeroAccount(d, free, own, s.blocks, s.free, s.own, inum, offset - isz, bill);
    }
  }

  lemma ZeroAccount(d: Disk, free: set<nat>, own: Owners, d': Disk, free': set<nat>, own': Owners,
                    inum: nat, rest: nat, bill: Bill)
    requires rest > 0 && bill == ZeroBill(Size(InodeAt(d, inum)), rest)
    requires Counted(d, free, own, d', free', own', inum, bill)
    ensures free' <= free && own'.Keys + free' <= own.Keys + free && |free'| + bill.taken == |free|
    ensures Shape(d, inum, BlocksOf(InodeAt(d, inum))) ==>
      (Accounted(d, free, own, d', free', own', inum) <==> Size(InodeAt(d, inum)) % DB_SIZE == 0)
  {
    CountedFree(d, free, own, d', free', own', inum, bill);
    ZeroBillIs(Size(InodeAt(d, inum)), rest);
    if Shape(d, inum, BlocksOf(InodeAt(d, inum))) { CountedExactly(d, free, own, d', free', own', inum, bill); }
  }
}
