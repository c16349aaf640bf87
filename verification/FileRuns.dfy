// Runs of file operations refine a map from inode numbers to byte sequences.

module FileRuns {
  import opened Blocks
  import opened Store
  import opened Inodes
  import opened Ownership
  import opened BlockMap
  import opened Growth
  import opened FileView
  import opened Chunking
  import opened Cut
  import opened Billing
  import opened Files
  import opened Reading

  datatype FileOp =
    | Write(inum: nat, offset: nat, bytes: seq<Byte>)
    | Truncate(inum: nat, size: nat)
    | Read(inum: nat, offset: nat, size: nat)

  type FileMap = map<nat, seq<Byte>>

  // What an operation does to the map...
  function Apply(m: FileMap, op: FileOp): (m': FileMap)
    requires op.inum in m
    ensures m'.Keys == m.Keys
  {
    match op
    case Write(i, offset, bytes) => if bytes == [] then m else m[i := Splice(m[i], offset, bytes)]
    case Truncate(i, size) => m[i := Resize(m[i], size)]
    case Read(_, _, _) => m
  }

  // The return code of an operation, and what it has read.
  datatype Reply = Reply(code: int, bytes: seq<Byte>)

  // ... and returns.
  function Answer(m: FileMap, op: FileOp): (r: Reply)
    requires op.inum in m
    ensures op.Read? && r.code >= 0 ==> r.code == |r.bytes|
  {
    match op
    case Write(_, _, bytes) => Reply(|bytes|, [])
    case Truncate(_, _) => Reply(0, [])
    case Read(i, offset, size) =>
      if m[i] == [] then Reply(0, [])
      else if offset > |m[i]| then Reply(-1, [])
      else Reply(Available(|m[i]|, size, offset), m[i][offset..offset + Available(|m[i]|, size, offset)])
  }

  // Operations on an existing file, with int arguments, that the code gets right (Files.RightSizeWhen,
  // Cut.CleanCutExact, Reading.ReadExact).
  predicate Allowed(m: FileMap, op: FileOp)
  {
    op.inum in m && op.inum < NUM_INODE && match op
    case Write(i, offset, bytes) =>
      offset + |bytes| <= INT_MAX && (bytes == [] || RightSize(|m[i]|, offset, |bytes|))
    case Truncate(i, size) => size <= INT_MAX && CleanCut(BlocksFor(|m[i]|), BlocksFor(size))
    case Read(i, offset, size) =>
      offset + size <= INT_MAX && (|m[i]| > 0 && offset <= |m[i]| ==> ReadOk(|m[i]|, size, offset))
  }

  // Free blocks that it takes.
  function RoomFor(m: FileMap, op: FileOp): nat
    requires op.inum in m
  {
    match op
    case Write(i, offset, bytes) => if bytes == [] then 0 else WriteBill(|m[i]|, offset, |bytes|).taken
    case Truncate(i, size) => TruncateTaken(|m[i]|, size)
    case Read(_, _, _) => 0
  }

  // Operations that lose no block of an exact file (Billing.LosesNothing).
  predicate Keeps(m: FileMap, op: FileOp)
    requires op.inum in m
  {
    match op
    case Write(i, offset, bytes) => bytes == [] || LosesNothing(|m[i]|, offset, |bytes|)
    case Truncate(i, size) => size > |m[i]| ==> |m[i]| % DB_SIZE == 0
    case Read(_, _, _) => true
  }

  // The map after a run, what the run returns, and whether it is allowed throughout.
  function RunMap(m: FileMap, ops: seq<FileOp>): FileMap
    requires RunAllowed(m, ops)
  {
    if ops == [] then m else RunMap(Apply(m, ops[0]), ops[1..])
  }

  predicate RunAllowed(m: FileMap, ops: seq<FileOp>)
  {
    ops == [] || (Allowed(m, ops[0]) && RunAllowed(Apply(m, ops[0]), ops[1..]))
  }

  predicate RunKeeps(m: FileMap, ops: seq<FileOp>)
    requires RunAllowed(m, ops)
  {
    ops == [] || (Keeps(m, ops[0]) && RunKeeps(Apply(m, ops[0]), ops[1..]))
  }

  function RunRoom(m: FileMap, ops: seq<FileOp>): nat
    requires RunAllowed(m, ops)
  {
    if ops == [] then 0 else RoomFor(m, ops[0]) + RunRoom(Apply(m, ops[0]), ops[1..])
  }

  function Answers(m: FileMap, ops: seq<FileOp>): seq<Reply>
    requires RunAllowed(m, ops)
  {
    if ops == [] then [] else [Answer(m, ops[0])] + Answers(Apply(m, ops[0]), ops[1..])
  }

  // The live files are exactly those of m.  Sealed by Shown.
  ghost predicate FilesAre(d: Disk, live: set<nat>, m: FileMap)
  {
    forall w {:trigger Shown(w)} :: Shown(w) ==>
      m.Keys == live && forall i {:trigger m[i]} :: i in m ==> Contents(d, i) == m[i]
  }

  // The device holds exactly the files of m.
  ghost predicate Holds(s: Device, m: FileMap)
    reads s
  {
    Fs(s) && FilesAre(s.blocks, s.live, m)
  }

  // One file changed, the others kept.
  lemma HoldsAfter(d: Disk, free: set<nat>, own: Owners, d': Disk, live: set<nat>, m: FileMap, inum: nat, c: seq<Byte>)
    requires FsOk(d, free, own, live) && m.Keys == live && inum in m && OthersKept(d, own, d', live, inum)
    requires forall i {:trigger m[i]} :: i in m ==> Contents(d, i) == m[i]
    requires Contents(d', inum) == c
    ensures forall i {:trigger m[inum := c][i]} :: i in m ==> Contents(d', i) == m[inum := c][i]
  {
    forall i | i in m
      ensures Contents(d', i) == m[inum := c][i]
    {
      if i != inum { OthersContents(d, free, own, d', live, inum, i); }
    }
  }

  // Every live inode maps the blocks its size needs and no others.  Sealed like Linked.
  ghost predicate AllExact(d: Disk, live: set<nat>)
  {
    forall w {:trigger Opened(w)} :: Opened(w) ==>
      forall i {:trigger InodeAt(d, i)} :: i in live ==> Shape(d, i, BlocksOf(InodeAt(d, i)))
  }

  lemma ExactOf(d: Disk, live: set<nat>, i: nat)
    requires AllExact(d, live) && i in live
    ensures Shape(d, i, BlocksOf(InodeAt(d, i)))
  {
    assert Opened(true);
    assert InodeAt(d, i) == InodeAt(d, i);
  }

  lemma ExactAfter(d: Disk, own: Owners, d': Disk, live: set<nat>, inum: nat)
    requires AllExact(d, live) && OthersKept(d, own, d', live, inum) && Shape(d', inum, BlocksOf(InodeAt(d', inum)))
    ensures AllExact(d', live)
  {
    forall i | i in live
      ensures Shape(d', i, BlocksOf(InodeAt(d', i)))
    {
      if i != inum {
        ExactOf(d, live, i);
        ShapeStays(d, own, d', live, inum, i, BlocksOf(InodeAt(d, i)));
      }
    }
  }

  lemma ShapeStays(d: Disk, own: Owners, d': Disk, live: set<nat>, inum: nat, i: nat, n: nat)
    requires OthersKept(d, own, d', live, inum) && i in live && i != inum && Shape(d, i, n)
    ensures Shape(d', i, n) && InodeAt(d', i) == InodeAt(d, i)
  {
    assert Opened(true);
    forall r
      ensures Id(d', i, r) != 0 <==> Within(r, n)
    {
      assert Id(d', i, r) == Id(d, i, r);
    }
  }

  // The blocks, owned or free, are the same as before, and so exactly accounted for.
  ghost predicate Conserved(d: Disk, free: set<nat>, own: Owners, d': Disk, free': set<nat>, own': Owners,
                            live: set<nat>)
  {
    AllExact(d, live) ==> AllExact(d', live) && own'.Keys + free' == own.Keys + free
  }

  lemma AccountedAll(d: Disk, free: set<nat>, own: Owners, d': Disk, free': set<nat>, own': Owners,
                     live: set<nat>, inum: nat)
    requires inum in live && OthersKept(d, own, d', live, inum)
    requires Shape(d, inum, BlocksOf(InodeAt(d, inum))) ==> Accounted(d, free, own, d', free', own', inum)
    ensures Conserved(d, free, own, d', free', own', live)
  {
    if AllExact(d, live) {
      ExactOf(d, live, inum);
      ExactAfter(d, own, d', live, inum);
    }
  }

  lemma CutFacts(d0: Disk, free0: set<nat>, own0: Owners, d: Disk, free: set<nat>, own: Owners,
                 live: set<nat>, inum: nat, size: nat)
    requires size <= Size(InodeAt(d0, inum)) && CutEffect(d0, free0, own0, d, free, own, live, inum, size)
    ensures OthersKept(d0, own0, d, live, inum) && Contents(d, inum) == Resize(Contents(d0, inum), size)
    ensures |free| >= |free0|
    ensures Shape(d0, inum, BlocksOf(InodeAt(d0, inum))) ==> Accounted(d0, free0, own0, d, free, own, inum)
  {
    assert Opened(true);
    assert free == free0 + (free - free0);
  }

  // Every file keeps its attributes, and the bitmap and what the superblock says beside the free list stay as they are.
  // Sealed by Shown.
  ghost predicate AttributesKept(d: Disk, d': Disk, live: set<nat>)
  {
    forall w {:trigger Shown(w)} :: Shown(w) ==>
      && SameHead(d, d')
      && forall i {:trigger InodeAt(d', i)} :: i in live ==> SameAttributes(InodeAt(d, i), InodeAt(d', i))
  }

  lemma AttributesFrom(d: Disk, own: Owners, d': Disk, live: set<nat>, inum: nat)
    requires OthersKept(d, own, d', live, inum)
    ensures AttributesKept(d, d', live)
  {
    assert Opened(true);
  }

  lemma AttributesSame(d: Disk, live: set<nat>)
    ensures AttributesKept(d, d, live)
  {
  }

  lemma AttributesThen(d: Disk, d1: Disk, d2: Disk, live: set<nat>)
    requires AttributesKept(d, d1, live) && AttributesKept(d1, d2, live)
    ensures AttributesKept(d, d2, live)
  {
    assert Shown(true);
    HeadThen(d, d1, d2);
    forall i | i in live
      ensures SameAttributes(InodeAt(d, i), InodeAt(d2, i))
    {
      assert SameAttributes(InodeAt(d1, i), InodeAt(d2, i));
    }
  }

  // What write_file does to the device.  Sealed by Shown.
  ghost predicate Overwrote(d: Disk, free: set<nat>, own: Owners, d': Disk, free': set<nat>, own': Owners,
                            live: set<nat>, i: nat, isz: nat, offset: nat, bytes: seq<Byte>)
  {
    forall w {:trigger Shown(w)} :: Shown(w) ==>
      && (bytes == [] ==> d' == d && free' == free && own' == own)
      && (bytes != [] ==> Size(InodeAt(d', i)) == NewSize(isz, offset, |bytes|))
      && (bytes != [] ==> Wrote(d, own, d', live, i, Splice(Contents(d, i), offset, bytes)))
      && (bytes != [] ==> |free'| + WriteBill(isz, offset, |bytes|).taken == |free|)
      && (bytes != [] && LosesNothing(isz, offset, |bytes|) && Shape(d, i, BlocksOf(InodeAt(d, i))) ==>
           Accounted(d, free, own, d', free', own', i))
  }

  lemma OverwroteAttributes(d: Disk, free: set<nat>, own: Owners, d': Disk, free': set<nat>, own': Owners,
                            live: set<nat>, i: nat, isz: nat, offset: nat, bytes: seq<Byte>)
    requires Overwrote(d, free, own, d', free', own', live, i, isz, offset, bytes)
    ensures AttributesKept(d, d', live)
  {
    assert Shown(true);
    if bytes == [] {
      AttributesSame(d, live);
    } else {
      assert OthersKept(d, own, d', live, i) by { assert Opened(true); }
      AttributesFrom(d, own, d', live, i);
    }
  }

  method WriteTo(s: Device, i: nat, offset: nat, bytes: seq<Byte>, ghost isz: nat) returns (r: int)
    requires Fs(s) && i in s.live && i < NUM_INODE && isz == Size(InodeAt(s.blocks, i))
    requires offset + |bytes| <= INT_MAX
    requires bytes != [] ==> |s.free| >= WriteBill(isz, offset, |bytes|).taken
    modifies s.log, s`blocks, s`chain, s`free, s`own
    ensures Fs(s) && r == |bytes|
    ensures Overwrote(old(s.blocks), old(s.free), old(s.own), s.blocks, s.free, s.own, s.live, i, isz, offset, bytes)
  {
    assert bytes[..|bytes|] == bytes;
    r := WriteFile(s, i, bytes, |bytes|, offset);
  }

  // The files after it.
  lemma OverwroteHolds(d: Disk, free: set<nat>, own: Owners, d': Disk, free': set<nat>, own': Owners,
                       live: set<nat>, m: FileMap, i: nat, isz: nat, offset: nat, bytes: seq<Byte>)
    requires FsOk(d, free, own, live) && FilesAre(d, live, m) && i in m && isz == |m[i]|
    requires Overwrote(d, free, own, d', free', own', live, i, isz, offset, bytes)
    requires bytes == [] || RightSize(isz, offset, |bytes|)
    ensures FilesAre(d', live, Apply(m, Write(i, offset, bytes)))
    ensures |free'| >= |free| - RoomFor(m, Write(i, offset, bytes))
    ensures Keeps(m, Write(i, offset, bytes)) ==> Conserved(d, free, own, d', free', own', live)
  {
    assert Shown(true);
    if bytes != [] {
      var c' := Splice(m[i], offset, bytes);
      WroteExact(d, own, d', live, i, c');
      HoldsAfter(d, free, own, d', live, m, i, c');
      if Keeps(m, Write(i, offset, bytes)) { AccountedAll(d, free, own, d', free', own', live, i); }
    }
  }

  lemma WriteAllowed(m: FileMap, i: nat, offset: nat, bytes: seq<Byte>, isz: nat, free: set<nat>)
    requires Allowed(m, Write(i, offset, bytes)) && |free| >= RoomFor(m, Write(i, offset, bytes)) && isz == |m[i]|
    ensures i in m && i < NUM_INODE && offset + |bytes| <= INT_MAX && (bytes == [] || RightSize(isz, offset, |bytes|))
    ensures bytes != [] ==> |free| >= WriteBill(isz, offset, |bytes|).taken
  {
  }

  method PerformWrite(s: Device, i: nat, offset: nat, bytes: seq<Byte>, ghost m: FileMap) returns (r: int)
    requires Holds(s, m) && Allowed(m, Write(i, offset, bytes)) && |s.free| >= RoomFor(m, Write(i, offset, bytes))
    modifies s.log, s`blocks, s`chain, s`free, s`own
    ensures Holds(s, Apply(m, Write(i, offset, bytes))) && r == |bytes|
    ensures |s.free| >= |old(s.free)| - RoomFor(m, Write(i, offset, bytes))
    ensures AttributesKept(old(s.blocks), s.blocks, s.live)
    ensures Keeps(m, Write(i, offset, bytes)) ==>
      Conserved(old(s.blocks), old(s.free), old(s.own), s.blocks, s.free, s.own, s.live)
  {
    FileOf(s.blocks, s.live, m, i);
    ghost var d, free, own := s.blocks, s.free, s.own;
    ghost var isz := |m[i]|;
    WriteAllowed(m, i, offset, bytes, isz, free);
    r := WriteTo(s, i, offset, bytes, isz);
    OverwroteHolds(d, free, own, s.blocks, s.free, s.own, s.live, m, i, isz, offset, bytes);
    OverwroteAttributes(d, free, own, s.blocks, s.free, s.own, s.live, i, isz, offset, bytes);
  }

  // What truncate_file does to the device.  Sealed by Shown.
  ghost predicate Truncated(d: Disk, free: set<nat>, own: Owners, d': Disk, free': set<nat>, own': Owners,
                            live: set<nat>, i: nat, isz: nat, size: nat)
  {
    forall w {:trigger Shown(w)} :: Shown(w) ==>
      && Size(InodeAt(d, i)) == isz && Size(InodeAt(d', i)) == size
      && (size == isz ==> d' == d && free' == free && own' == own)
      && (size < isz ==> CutEffect(d, free, own, d', free', own', live, i, size))
      && (size > isz ==> Wrote(d, own, d', live, i, Resize(Contents(d, i), size)))
      && (size > isz && isz % DB_SIZE == 0 && Shape(d, i, BlocksOf(InodeAt(d, i))) ==>
           Accounted(d, free, own, d', free', own', i))
      && (size > isz ==> |free'| + TruncateTaken(isz, size) == |free|)
  }

  lemma TruncatedAttributes(d: Disk, free: set<nat>, own: Owners, d': Disk, free': set<nat>, own': Owners,
                            live: set<nat>, i: nat, isz: nat, size: nat)
    requires Truncated(d, free, own, d', free', own', live, i, isz, size)
    ensures AttributesKept(d, d', live)
  {
    assert Shown(true);
    if size == isz {
      AttributesSame(d, live);
    } else {
      assert OthersKept(d, own, d', live, i) by { assert Opened(true); }
      AttributesFrom(d, own, d', live, i);
    }
  }

  method TruncateTo(s: Device, i: nat, size: nat, ghost isz: nat) returns (status: int)
    requires Fs(s) && i in s.live && i < NUM_INODE && isz == Size(InodeAt(s.blocks, i)) && size <= INT_MAX
    requires size < isz ==> CleanCut(BlocksFor(isz), BlocksFor(size))
    requires |s.free| >= TruncateTaken(isz, size)
    modifies s.log, s`blocks, s`chain, s`free, s`own
    ensures Fs(s) && status == 0
    ensures Truncated(old(s.blocks), old(s.free), old(s.own), s.blocks, s.free, s.own, s.live, i, isz, size)
  {
    status := TruncateFile(s, i, size);
  }

  // The files after it.
  lemma TruncatedHolds(d: Disk, free: set<nat>, own: Owners, d': Disk, free': set<nat>, own': Owners,
                       live: set<nat>, m: FileMap, i: nat, isz: nat, size: nat)
    requires FsOk(d, free, own, live) && FilesAre(d, live, m) && i in m && isz == |m[i]|
    requires Truncated(d, free, own, d', free', own', live, i, isz, size)
    ensures FilesAre(d', live, Apply(m, Truncate(i, size)))
    ensures |free'| >= |free| - RoomFor(m, Truncate(i, size))
  {
    TruncatedFile(d, free, own, d', free', own', live, i, isz, size);
    FileOf(d, live, m, i);
    if size == isz {
      SameMapAt(m, i, Resize(m[i], size));
    } else {
      FilesAfter(d, free, own, d', live, m, i, Resize(m[i], size));
    }
  }

  lemma SameMapAt(m: FileMap, i: nat, c: seq<Byte>)
    requires i in m && c == m[i]
    ensures m[i := c] == m
  {
  }

  lemma FilesAfter(d: Disk, free: set<nat>, own: Owners, d': Disk, live: set<nat>, m: FileMap, i: nat, c: seq<Byte>)
    requires FsOk(d, free, own, live) && FilesAre(d, live, m) && i in m && OthersKept(d, own, d', live, i)
    requires Contents(d', i) == c
    ensures FilesAre(d', live, m[i := c])
  {
    assert Shown(true);
    HoldsAfter(d, free, own, d', live, m, i, c);
  }

  lemma TruncatedFile(d: Disk, free: set<nat>, own: Owners, d': Disk, free': set<nat>, own': Owners,
                      live: set<nat>, i: nat, isz: nat, size: nat)
    requires Truncated(d, free, own, d', free', own', live, i, isz, size)
    ensures |free'| >= |free| - TruncateTaken(isz, size)
    ensures if size == isz then d' == d
            else OthersKept(d, own, d', live, i) && Contents(d', i) == Resize(Contents(d, i), size)
  {
    assert Shown(true);
    if size > isz {
      WroteExact(d, own, d', live, i, Resize(Contents(d, i), size));
    } else if size < isz {
      CutFacts(d, free, own, d', free', own', live, i, size);
    }
  }

  // The blocks after it.
  lemma TruncatedConserved(d: Disk, free: set<nat>, own: Owners, d': Disk, free': set<nat>, own': Owners,
                           live: set<nat>, i: nat, isz: nat, size: nat)
    requires Truncated(d, free, own, d', free', own', live, i, isz, size) && i in live
    requires size > isz ==> isz % DB_SIZE == 0
    ensures Conserved(d, free, own, d', free', own', live)
  {
    assert Shown(true);
    if size > isz {
      assert OthersKept(d, own, d', live, i) by { assert Opened(true); }
      AccountedAll(d, free, own, d', free', own', live, i);
    } else if size < isz {
      CutFacts(d, free, own, d', free', own', live, i, size);
      AccountedAll(d, free, own, d', free', own', live, i);
    }
  }

  lemma FileOf(d: Disk, live: set<nat>, m: FileMap, i: nat)
    requires FilesAre(d, live, m) && i in m
    ensures i in live && Contents(d, i) == m[i] && |m[i]| == Size(InodeAt(d, i))
  {
    assert Shown(true);
  }

  lemma TruncateAllowed(m: FileMap, i: nat, size: nat, isz: nat, free: set<nat>)
    requires Allowed(m, Truncate(i, size)) && |free| >= RoomFor(m, Truncate(i, size)) && isz == |m[i]|
    ensures i in m && i < NUM_INODE && size <= INT_MAX && (size < isz ==> CleanCut(BlocksFor(isz), BlocksFor(size)))
    ensures |free| >= TruncateTaken(isz, size)
  {
  }

  method PerformTruncate(s: Device, i: nat, size: nat, ghost m: FileMap) returns (status: int)
    requires Holds(s, m) && Allowed(m, Truncate(i, size)) && |s.free| >= RoomFor(m, Truncate(i, size))
    modifies s.log, s`blocks, s`chain, s`free, s`own
    ensures Holds(s, Apply(m, Truncate(i, size))) && status == 0
    ensures |s.free| >= |old(s.free)| - RoomFor(m, Truncate(i, size))
    ensures AttributesKept(old(s.blocks), s.blocks, s.live)
    ensures Keeps(m, Truncate(i, size)) ==>
      Conserved(old(s.blocks), old(s.free), old(s.own), s.blocks, s.free, s.own, s.live)
  {
    FileOf(s.blocks, s.live, m, i);
    ghost var d, free, own := s.blocks, s.free, s.own;
    ghost var isz := |m[i]|;
    TruncateAllowed(m, i, size, isz, free);
    status := TruncateTo(s, i, size, isz);
    TruncatedHolds(d, free, own, s.blocks, s.free, s.own, s.live, m, i, isz, size);
    TruncatedAttributes(d, free, own, s.blocks, s.free, s.own, s.live, i, isz, size);
    if Keeps(m, Truncate(i, size)) {
      TruncatedConserved(d, free, own, s.blocks, s.free, s.own, s.live, i, isz, size);
    }
  }

  method PerformRead(s: Device, i: nat, offset: nat, size: nat, ghost m: FileMap) returns (out: Reply)
    requires Holds(s, m) && Allowed(m, Read(i, offset, size))
    modifies s.log
    ensures out == Answer(m, Read(i, offset, size))
  {
    FileOf(s.blocks, s.live, m, i);
    var r, bytes := ReadSlice(s, i, size, offset);
    out := Reply(r, bytes);
  }

  method Perform(s: Device, op: FileOp, ghost m: FileMap) returns (out: Reply)
    requires Holds(s, m) && Allowed(m, op) && |s.free| >= RoomFor(m, op)
    modifies s.log, s`blocks, s`chain, s`free, s`own
    ensures Holds(s, Apply(m, op)) && out == Answer(m, op)
    ensures |s.free| >= |old(s.free)| - RoomFor(m, op)
    ensures AttributesKept(old(s.blocks), s.blocks, s.live)
    ensures Keeps(m, op) ==> Conserved(old(s.blocks), old(s.free), old(s.own), s.blocks, s.free, s.own, s.live)
  {
    match op {
      case Write(i, offset, bytes) =>
        var r := PerformWrite(s, i, offset, bytes, m);
        out := Reply(r, []);
      case Truncate(i, size) =>
        var status := PerformTruncate(s, i, size, m);
        out := Reply(status, []);
      case Read(i, offset, size) =>
        out := PerformRead(s, i, offset, size, m);
        AttributesSame(s.blocks, s.live);
    }
  }

  // Every run of allowed operations with enough free blocks: the device holds the files the map says, every answer is
  // the map's, no file's attributes change, and the invariant holds throughout.  If they lose no block one by one, then
  // none is lost over the run.
  method Run(s: Device, ops: seq<FileOp>, ghost m: FileMap) returns (outs: seq<Reply>)
    requires Holds(s, m) && RunAllowed(m, ops) && |s.free| >= RunRoom(m, ops)
    modifies s.log, s`blocks, s`chain, s`free, s`own
    ensures Holds(s, RunMap(m, ops)) && outs == Answers(m, ops)
    ensures AttributesKept(old(s.blocks), s.blocks, s.live)
    ensures RunKeeps(m, ops) ==> Conserved(old(s.blocks), old(s.free), old(s.own), s.blocks, s.free, s.own, s.live)
  {
    ghost var d := s.blocks;
    if ops == [] {
      AttributesSame(d, s.live);
      return [];
    }
    var out := Perform(s, ops[0], m);
    ghost var d1 := s.blocks;
    outs := Run(s, ops[1..], Apply(m, ops[0]));
    AttributesThen(d, d1, s.blocks, s.live);
    outs := [out] + outs;
  }

  // ---------- a cut undoes growth ----------

  // Two states where inum has exactly m blocks at the same references, and other inodes have the same references, own
  // the same blocks.
  lemma SameOwned(d0: Disk, own0: Owners, d: Disk, own: Owners, live: set<nat>, inum: nat, m: nat)
    requires OwnOk(d0, own0, live) && OwnOk(d, own, live) && inum in live && Shape(d0, inum, m) && Shape(d, inum, m)
    requires forall r {:trigger Id(d, inum, r)} :: Within(r, m) ==> Id(d, inum, r) == Id(d0, inum, r)
    requires forall i, r {:trigger Id(d, i, r)} :: i in live && i != inum ==> Id(d, i, r) == Id(d0, i, r)
    ensures own.Keys == own0.Keys
  {
    assert !InData(d0, 0) && !InData(d, 0);
    forall id
      ensures id in own <==> id in own0
    {
      if id in own0 { assert Id(d0, own0[id].inum, own0[id].ref) == id == Id(d, own0[id].inum, own0[id].ref); }
      if id in own { assert Id(d, own[id].inum, own[id].ref) == id == Id(d0, own[id].inum, own[id].ref); }
    }
  }

  lemma KeptBytes(d0: Disk, free0: set<nat>, own0: Owners, d: Disk, live: set<nat>, inum: nat, m: nat)
    requires FsOk(d0, free0, own0, live) && inum in live && SelfKept(d0, own0, d, inum, m)
    requires m <= BlocksOf(InodeAt(d0, inum))
    ensures SameBytes(d0, d, inum, DB_SIZE * m)
  {
    assert SameData(d0, d, inum, m) by {
      Open(d0, free0, own0, live);
      assert Mapped(d0, inum);
      assert Opened(true);
      forall k | 0 <= k < m
        ensures DataAt(d, inum, k) == DataAt(d0, inum, k)
      {
        assert Within(Data(k), m) && Id(d0, inum, Data(k)) != 0;
        assert Id(d, inum, Data(k)) == Id(d0, inum, Data(k));
      }
    }
    DataBytes(d0, d, inum, m, DB_SIZE * m);
  }

  lemma CutBack(d0: Disk, free0: set<nat>, own0: Owners, d1: Disk, free1: set<nat>, own1: Owners,
                d: Disk, free: set<nat>, own: Owners, live: set<nat>, inum: nat, m: nat, n: nat, ids: seq<nat>)
    requires FsOk(d0, free0, own0, live) && FsOk(d1, free1, own1, live) && FsOk(d, free, own, live) && inum in live
    requires m < n
    requires Shape(d0, inum, m) && GrownSelf(d1, inum, n, ids) && BlocksFor(DB_SIZE * m) == m
    requires OthersKept(d0, own0, d1, live, inum) && SelfKept(d0, own0, d1, inum, m)
    requires own1.Keys + free1 == own0.Keys + free0
    requires CutEffect(d1, free1, own1, d, free, own, live, inum, DB_SIZE * m)
    ensures free == free0
  {
    assert Opened(true);
    assert Shape(d, inum, m) && own.Keys + free == own0.Keys + free0;
    assert own.Keys == own0.Keys by {
      OpenOwn(d0, free0, own0, live);
      OpenOwn(d, free, own, live);
      forall r | Within(r, m)
        ensures Id(d, inum, r) == Id(d0, inum, r)
      {
        assert Id(d1, inum, r) == Id(d0, inum, r);
      }
      forall i, r | i in live && i != inum
        ensures Id(d, i, r) == Id(d0, i, r)
      {
        assert Id(d1, i, r) == Id(d0, i, r);
      }
      SameOwned(d0, own0, d, own, live, inum, m);
    }
    forall id
      ensures id in free <==> id in free0
    {
      assert id in own.Keys + free <==> id in own0.Keys + free0;
    }
  }

  lemma CutBackBytes(d0: Disk, free0: set<nat>, own0: Owners, d1: Disk, free1: set<nat>, own1: Owners,
                     d: Disk, free: set<nat>, own: Owners, live: set<nat>, inum: nat, m: nat)
    requires FsOk(d0, free0, own0, live) && inum in live
    requires Size(InodeAt(d0, inum)) == DB_SIZE * m <= Size(InodeAt(d1, inum))
    requires SelfKept(d0, own0, d1, inum, m) && BlocksOf(InodeAt(d0, inum)) == m
    requires CutEffect(d1, free1, own1, d, free, own, live, inum, DB_SIZE * m)
    ensures Contents(d, inum) == Contents(d0, inum)
  {
    KeptBytes(d0, free0, own0, d1, live, inum, m);
    assert Opened(true);
    forall p | 0 <= p < DB_SIZE * m
      ensures Contents(d1, inum)[p] == Contents(d0, inum)[p]
    {
      assert Raw(d1, inum, p) == Raw(d0, inum, p);
    }
  }

  // truncate_file undoes block-aligned growth: the file and the free set are what they were.
  method GrowAndCut(s: Device, inum: nat, m: nat, n: nat, ghost ids0: seq<nat>)
    requires Fs(s) && inum in s.live && inum < NUM_INODE && GrownSelf(s.blocks, inum, m, ids0) && m <= n <= FIRST_TRIPLE
    requires |s.free| >= Cost(n) - Cost(m) && CleanCut(n, m) && DB_SIZE * m <= INT_MAX
    modifies s.log, s`blocks, s`chain, s`free, s`own
    ensures Fs(s) && s.free == old(s.free) && Contents(s.blocks, inum) == Contents(old(s.blocks), inum)
  {
    if m == n {
      return;
    }
    ghost var d0, free0, own0 := s.blocks, s.free, s.own;
    var ids, all := Grow(s, inum, m, n, ids0);
    CutGrown(s, inum, m, n, all, d0, free0, own0);
  }

  // Its second half, the cut.
  method CutGrown(s: Device, inum: nat, m: nat, n: nat, ghost ids: seq<nat>,
                  ghost d0: Disk, ghost free0: set<nat>, ghost own0: Owners)
    requires Growing(s, d0, free0, own0, inum, m, n, ids) && inum < NUM_INODE && m < n && CleanCut(n, m)
    requires Shape(d0, inum, m) && Size(InodeAt(d0, inum)) == DB_SIZE * m && BlocksOf(InodeAt(d0, inum)) == m
    modifies s.log, s`blocks, s`chain, s`free, s`own
    ensures Fs(s) && s.free == free0 && Contents(s.blocks, inum) == Contents(d0, inum)
  {
    FromGrowing(s, d0, free0, own0, inum, m, n, ids);
    ghost var d1, free1, own1 := s.blocks, s.free, s.own;
    BlocksAhead(m, 0);
    BlocksAhead(n, 0);
    CutFile(s, inum, DB_SIZE * m, DB_SIZE * n);
    CutBack(d0, free0, own0, d1, free1, own1, s.blocks, s.free, s.own, s.live, inum, m, n, ids);
    CutBackBytes(d0, free0, own0, d1, free1, own1, s.blocks, s.free, s.own, s.live, inum, m);
  }
}
