// Directory operations over files (syscall.c): lookup, deletion, the emptiness test and adding an entry.

module DirOps {
  import opened Blocks
  import opened Store
  import opened Inodes
  import opened Chunking
  import opened Files
  import Billing
  import opened FileRuns
  import opened Directory
  import BlockMap
  import FileView
  import Growth

  // File `dir` of m is a directory that an int offset can address.
  predicate IsDir(m: FileMap, dir: nat)
  {
    dir in m && dir < Inodes.NUM_INODE && DirOk(m[dir]) && |m[dir]| <= INT_MAX
  }

  // The inode number a directory maps a name to, or -1.
  function Lookup(c: seq<Byte>, target: Name): int
  {
    if target in Names(c) then Names(c)[target] else -1
  }

  // The int stored in the inum field.
  function Signed(w: int): int
  {
    if w > INT_MAX then w - UINT_MAX - 1 else w
  }

  lemma FoundIs(c: seq<Byte>, target: Name, k: nat)
    requires DirOk(c) && 2 <= k < Count(c) && FindFrom(Items(c), 2, target) == k
    ensures Signed(InumOf(At(c, k))) == Lookup(c, target)
  {
    assert EntryOk(At(c, k)) && Items(c)[k] == ItemOf(At(c, k));
    if target != [] { FindNames(Items(c), 2, target); } else { NotEmptyName(Items(c), 2); }
  }

  lemma {:induction false} NotEmptyName(t: seq<Item>, k: nat)
    requires k <= |t|
    ensures [] !in NamesFrom(t, k)
    decreases |t| - k
  {
    if k < |t| { NotEmptyName(t, k + 1); }
  }

  lemma MissingIs(c: seq<Byte>, target: Name)
    requires DirOk(c) && FindFrom(Items(c), 2, target) == Count(c)
    ensures Lookup(c, target) == -1
  {
    if target != [] { FindNames(Items(c), 2, target); } else { NotEmptyName(Items(c), 2); }
  }

  // An entry added under an unused name is found again, with its number.
  lemma AddedFound(c: seq<Byte>, inum: Word, fileType: Byte, name: Name)
    requires DirOk(c) && Legal(name) && name != [] && name !in Names(c) && inum < Inodes.NUM_INODE
    ensures var c' := c + DirentOf(inum, fileType, name);
      DirOk(c') && Lookup(c', name) == inum && forall x :: x != name ==> Lookup(c', x) == Lookup(c, x)
  {
    DirentTrip(inum, fileType, name);
    AppendNames(c, DirentOf(inum, fileType, name));
  }

  // read_file of entry k.
  method ReadEntry(s: Device, dir: nat, k: nat, ghost m: FileMap) returns (e: seq<Byte>)
    requires Holds(s, m) && IsDir(m, dir) && 2 <= k < Count(m[dir])
    modifies s.log
    ensures |e| == DIRENT_SIZE && e == At(m[dir], k)
  {
    var out := PerformRead(s, dir, k * DIRENT_SIZE, DIRENT_SIZE, m);
    e := out.bytes;
  }

  // find_inode_index: the search finds exactly what the name map says, which is the number in front of the name.
  method FindInodeIndex(s: Device, dir: nat, target: Name, ghost m: FileMap) returns (r: int)
    requires Holds(s, m) && IsDir(m, dir)
    modifies s.log
    ensures r == Lookup(m[dir], target)
    ensures Legal(target) && target != [] ==>
      (forall k :: 2 <= k && Bears(m[dir], k, target) ==> r == Field(m[dir], 264 * k)) &&
      (r != -1 ==> exists k :: 2 <= k && Bears(m[dir], k, target))
  {
    ghost var c := m[dir];
    if Legal(target) && target != [] { NamesBear(c, target); }
    var start := 2;
    var size := SizeOf(s, dir, m);
    while start * DIRENT_SIZE < size
      invariant 2 <= start <= Count(c) && FindFrom(Items(c), 2, target) == FindFrom(Items(c), start, target)
    {
      var e := ReadEntry(s, dir, start, m);
      if NameOf(e) == target {
        FoundIs(c, target, start);
        return Signed(InumOf(e));
      }
      start := start + 1;
    }
    MissingIs(c, target);
    r := -1;
  }

  // inode_read_size
  method SizeOf(s: Device, dir: nat, ghost m: FileMap) returns (size: nat)
    requires Holds(s, m) && IsDir(m, dir)
    modifies s.log
    ensures size == |m[dir]| == DIRENT_SIZE * Count(m[dir])
  {
    assert BlockMap.Shown(true);
    size := Growth.GetInodeSize(s, dir);
    assert FileView.Contents(s.blocks, dir) == m[dir];
  }

  lemma NamelessBytes(c: seq<Byte>)
    requires DirOk(c)
    ensures (forall k :: 2 <= k < Count(c) ==> Items(c)[k].name == []) <==>
      forall k :: 2 <= k && 264 * k + 264 <= |c| ==> Bears(c, k, [])
  {
    forall k | 2 <= k
      ensures k < Count(c) <==> 264 * k + 264 <= |c|
      ensures k < Count(c) ==> (Items(c)[k].name == [] <==> Bears(c, k, []))
    {
      BearsAt(c, k, []);
      if k < Count(c) { assert EntryOk(At(c, k)) && Items(c)[k] == ItemOf(At(c, k)); }
    }
  }

  // is_empty_dir: no entry has a name.
  method IsEmptyDir(s: Device, dir: nat, ghost m: FileMap) returns (r: bool)
    requires Holds(s, m) && IsDir(m, dir)
    modifies s.log
    ensures r <==> Names(m[dir]) == map[]
    ensures r <==> forall k :: 2 <= k && 264 * k + 264 <= |m[dir]| ==> Bears(m[dir], k, [])
  {
    ghost var c := m[dir];
    NoNames(Items(c), 2);
    NamelessBytes(c);
    var start := 2;
    var size := SizeOf(s, dir, m);
    while start * DIRENT_SIZE < size
      invariant 2 <= start <= Count(c) && forall i :: 2 <= i < start ==> Items(c)[i].name == []
    {
      var e := ReadEntry(s, dir, start, m);
      if e[NAME] != 0 {
        assert Items(c)[start].name != [];
        return false;
      }
      start := start + 1;
    }
    r := true;
  }

  lemma SplicePut(c: seq<Byte>, k: nat, e: seq<Byte>)
    requires k < Count(c) && |e| == DIRENT_SIZE
    ensures Splice(c, k * DIRENT_SIZE, e) == Put(c, k, e)
  {
  }

  // write_file over entry k.
  method WriteEntry(s: Device, dir: nat, k: nat, e: seq<Byte>, ghost m: FileMap)
    requires Holds(s, m) && IsDir(m, dir) && k < Count(m[dir]) && |e| == DIRENT_SIZE
    modifies s.log, s`blocks, s`chain, s`free, s`own
    ensures Holds(s, m[dir := Put(m[dir], k, e)]) && |s.free| >= |old(s.free)|
    ensures AttributesKept(old(s.blocks), s.blocks, s.live)
  {
    RightSizeWhen(|m[dir]|, k * DIRENT_SIZE, DIRENT_SIZE);
    Billing.InsideBill(|m[dir]|, k * DIRENT_SIZE, DIRENT_SIZE);
    var _ := PerformWrite(s, dir, k * DIRENT_SIZE, e, m);
    SplicePut(m[dir], k, e);
  }

  // Entry k, read as e, is overwritten by an empty one.
  method Bury(s: Device, dir: nat, k: nat, e: seq<Byte>, ghost m: FileMap)
    requires Holds(s, m) && IsDir(m, dir) && 2 <= k < Count(m[dir]) && e == At(m[dir], k)
    modifies s.log, s`blocks, s`chain, s`free, s`own
    ensures Holds(s, m[dir := Put(m[dir], k, Tomb(e))]) && |s.free| >= |old(s.free)|
    ensures AttributesKept(old(s.blocks), s.blocks, s.live)
    ensures e == m[dir][264 * k..264 * k + 264] && Emptied(m[dir], Put(m[dir], k, Tomb(e)), k)
  {
    TombPut(m[dir], k);
    WriteEntry(s, dir, k, Tomb(e), m);
  }

  // delete_dirent: the first entry with the name is replaced by an empty one, and handed out.
  method DeleteDirent(s: Device, dir: nat, target: Name, ghost m: FileMap) returns (status: int, out: seq<Byte>)
    requires Holds(s, m) && IsDir(m, dir)
    modifies s.log, s`blocks, s`chain, s`free, s`own
    ensures var c := m[dir]; var k := FindFrom(Items(c), 2, target);
      if k < Count(c)
      then status == 0 && out == At(c, k) && Holds(s, m[dir := Put(c, k, Tomb(At(c, k)))])
      else status == -1 && out == [] && Holds(s, m)
    ensures var c := m[dir]; var k := FindFrom(Items(c), 2, target);
      status == 0 ==> out == c[264 * k..264 * k + 264] && Emptied(c, Put(c, k, Tomb(At(c, k))), k)
    ensures |s.free| >= |old(s.free)|
    ensures AttributesKept(old(s.blocks), s.blocks, s.live)
  {
    ghost var c := m[dir];
    var start := 2;
    var size := SizeOf(s, dir, m);
    while start * DIRENT_SIZE < size
      invariant Holds(s, m) && s.blocks == old(s.blocks) && |s.free| >= |old(s.free)|
      invariant 2 <= start <= Count(c) && FindFrom(Items(c), 2, target) == FindFrom(Items(c), start, target)
    {
      var e := ReadEntry(s, dir, start, m);
      if NameOf(e) == target {
        Bury(s, dir, start, e, m);
        return 0, e;
      }
      start := start + 1;
    }
    AttributesSame(s.blocks, s.live);
    status, out := -1, [];
  }

  lemma SpliceEnd(c: seq<Byte>, e: seq<Byte>)
    ensures Splice(c, |c|, e) == c + e
  {
  }

  // Blocks that an entry at the end of a directory of this size takes.
  function EntryRoom(size: nat): nat
  {
    Billing.WriteBill(size, size, DIRENT_SIZE).taken
  }

  // They are never more than six: two chunks, each with a block and two index blocks.
  lemma EntryRoomBound(size: nat)
    ensures EntryRoom(size) <= 6
  {
    Billing.LoopBillIs(size, size, DIRENT_SIZE);
    EntryTurns(size);
    var n, k := Growth.BlocksFor(size), Billing.Turns(size, size, DIRENT_SIZE);
    Growth.CostStep(n);
    Growth.CostStep(n + 1);
  }

  lemma EntryTurns(size: nat)
    ensures 1 <= Billing.Turns(size, size, DIRENT_SIZE) <= 2
  {
  }

  // write_file of an entry at the end of a directory, as pcd_mknod, pcd_mkdir, pcd_link and pcd_rename do.
  method AddEntry(s: Device, dir: nat, e: seq<Byte>, ghost m: FileMap)
    requires Holds(s, m) && IsDir(m, dir) && |e| == DIRENT_SIZE && |m[dir]| + DIRENT_SIZE <= INT_MAX
    requires |s.free| >= EntryRoom(|m[dir]|)
    modifies s.log, s`blocks, s`chain, s`free, s`own
    ensures Holds(s, m[dir := m[dir] + e]) && |s.free| >= |old(s.free)| - EntryRoom(|m[dir]|)
    ensures AttributesKept(old(s.blocks), s.blocks, s.live)
  {
    var size := SizeOf(s, dir, m);
    AtEnd(size, DIRENT_SIZE);
    RightSizeWhen(size, size, DIRENT_SIZE);
    var _ := PerformWrite(s, dir, size, e, m);
    SpliceEnd(m[dir], e);
  }
}
