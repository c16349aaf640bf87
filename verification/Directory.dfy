// A directory as a log of fixed-size entries (dir.h, syscall.c): entries are appended, and deleted ones keep their
// place with an empty name.

module Directory {
  import opened Blocks
  import Inodes

  const DIRENT_SIZE := 264
  const MAX_FILE_NAME := 256
  // Places in an entry.
  const NAME := 5
  const NAME_END := 261

  type Name = seq<Byte>

  // A C string that fits an entry.
  predicate Legal(name: Name)
  {
    |name| < MAX_FILE_NAME && 0 !in name
  }

  function NameEnd(e: seq<Byte>, i: nat): (j: nat)
    requires |e| == DIRENT_SIZE && NAME <= i <= NAME_END
    ensures i <= j <= NAME_END && (j < NAME_END ==> e[j] == 0)
    ensures forall k :: i <= k < j ==> e[k] != 0
    decreases NAME_END - i
  {
    if i == NAME_END || e[i] == 0 then i else NameEnd(e, i + 1)
  }

  function NameOf(e: seq<Byte>): Name
    requires |e| == DIRENT_SIZE
  {
    e[NAME..NameEnd(e, NAME)]
  }

  function InumOf(e: seq<Byte>): int
    requires |e| == DIRENT_SIZE
  {
    Little(e[0], e[1], e[2], e[3])
  }

  // The struct filled by an initialiser: inum in bytes 0 to 3, file_type in byte 4, the name from byte 5, then zeroes.
  function DirentOf(inum: Word, fileType: Byte, name: Name): (e: seq<Byte>)
    requires Legal(name)
    ensures |e| == 264 && e[4] == fileType
    ensures e[0] == inum % 256 && e[1] == inum / 256 % 256
    ensures e[2] == inum / 65536 % 256 && e[3] == inum / 16777216 % 256
    ensures forall k :: 5 <= k < 264 ==> e[k] == if k < 5 + |name| then name[k - 5] else 0
  {
    [ByteOf(inum, 0), ByteOf(inum, 1), ByteOf(inum, 2), ByteOf(inum, 3)] + [fileType] + name +
    seq(DIRENT_SIZE - NAME - |name|, _ => 0)
  }

  // strcpy of a name into an entry: the name and its terminator are written, and nothing else.
  function Renamed(e: seq<Byte>, name: Name): (r: seq<Byte>)
    requires |e| == DIRENT_SIZE && Legal(name)
    ensures |r| == DIRENT_SIZE
    ensures forall k :: 0 <= k < 264 ==>
      r[k] == if k < 5 then e[k] else if k < 5 + |name| then name[k - 5] else if k == 5 + |name| then 0 else e[k]
  {
    e[..NAME] + name + [0] + e[NAME + |name| + 1..]
  }

  lemma NameEndIs(e: seq<Byte>, i: nat, j: nat)
    requires |e| == DIRENT_SIZE && NAME <= i <= j < NAME_END && e[j] == 0 && forall k :: i <= k < j ==> e[k] != 0
    ensures NameEnd(e, i) == j
  {
  }

  // An entry is terminated exactly if one of the 256 bytes of its name is zero.
  lemma Terminated(e: seq<Byte>)
    requires |e| == DIRENT_SIZE
    ensures NameEnd(e, NAME) < NAME_END <==> exists k :: 5 <= k < 261 && e[k] == 0
  {
  }

  // What its bytes say: the number is the little-endian one at byte 0, and the name is the C string at byte 5.
  lemma EntryBytes(e: seq<Byte>, name: Name)
    requires |e| == DIRENT_SIZE && Legal(name)
    ensures InumOf(e) == Field(e, 0)
    ensures NameOf(e) == name && NameEnd(e, NAME) < NAME_END <==>
      (forall i :: 0 <= i < |name| ==> e[5 + i] == name[i]) && e[5 + |name|] == 0
  {
    if (forall i :: 0 <= i < |name| ==> e[5 + i] == name[i]) && e[5 + |name|] == 0 {
      forall k | NAME <= k < NAME + |name|
        ensures e[k] != 0
      {
        assert e[5 + (k - 5)] == name[k - 5] && name[k - 5] in name;
      }
      NameEndIs(e, NAME, NAME + |name|);
    }
  }

  // An entry reads back as it was filled in.
  lemma DirentTrip(inum: Word, fileType: Byte, name: Name)
    requires Legal(name)
    ensures var e := DirentOf(inum, fileType, name);
      && InumOf(e) == inum && e[4] == fileType && NameOf(e) == name
      && (EntryOk(e) <==> if name == [] then inum == UINT_MAX else inum < Inodes.NUM_INODE)
  {
    var e := DirentOf(inum, fileType, name);
    WordBytes(inum);
    EntryBytes(e, name);
  }

  lemma RenamedName(e: seq<Byte>, name: Name)
    requires |e| == DIRENT_SIZE && Legal(name)
    ensures NameOf(Renamed(e, name)) == name && InumOf(Renamed(e, name)) == InumOf(e)
    ensures NameEnd(Renamed(e, name), NAME) < NAME_END
  {
    var r := Renamed(e, name);
    forall k | NAME <= k < NAME + |name|
      ensures r[k] != 0
    {
      assert r[k] == name[k - NAME] && name[k - NAME] in name;
    }
    NameEndIs(r, NAME, NAME + |name|);
  }

  // A deleted entry: empty name, inode number -1.
  function Tomb(e: seq<Byte>): (r: seq<Byte>)
    requires |e| == DIRENT_SIZE
    ensures |r| == DIRENT_SIZE
    ensures forall k :: 0 <= k < 264 ==> r[k] == if k < 4 then 255 else if k == 5 then 0 else e[k]
  {
    Renamed([0xFF, 0xFF, 0xFF, 0xFF] + e[4..], [])
  }

  lemma TombFacts(e: seq<Byte>)
    requires |e| == DIRENT_SIZE
    ensures NameOf(Tomb(e)) == [] && InumOf(Tomb(e)) == UINT_MAX && NameEnd(Tomb(e), NAME) < NAME_END
  {
    RenamedName([0xFF, 0xFF, 0xFF, 0xFF] + e[4..], []);
  }

  // ---------- the log ----------

  function Count(c: seq<Byte>): nat
  {
    |c| / DIRENT_SIZE
  }

  function At(c: seq<Byte>, k: nat): (e: seq<Byte>)
    requires k < Count(c)
    ensures |e| == DIRENT_SIZE
  {
    c[DIRENT_SIZE * k..DIRENT_SIZE * k + DIRENT_SIZE]
  }

  // Entries are whole and terminated; those in use have a small inode number and their own name, deleted ones have -1.
  // The first two, for the directory itself and its parent, are not searched.
  predicate EntryOk(e: seq<Byte>)
    requires |e| == DIRENT_SIZE
  {
    NameEnd(e, NAME) < NAME_END && (if NameOf(e) == [] then InumOf(e) == UINT_MAX else InumOf(e) < Inodes.NUM_INODE)
  }

  datatype Item = Item(name: Name, inum: int)

  function ItemOf(e: seq<Byte>): Item
    requires |e| == DIRENT_SIZE
  {
    Item(NameOf(e), InumOf(e))
  }

  // What the search of a directory sees of it.
  function Items(c: seq<Byte>): (t: seq<Item>)
    ensures |t| == Count(c) && forall k :: 0 <= k < Count(c) ==> t[k] == ItemOf(At(c, k))
  {
    seq(Count(c), k requires 0 <= k < Count(c) => ItemOf(At(c, k)))
  }

  // Names from entry 2 on are used once.
  predicate Unique(t: seq<Item>)
  {
    forall i, j :: 2 <= i < j < |t| && t[i].name != [] ==> t[i].name != t[j].name
  }

  predicate DirOk(c: seq<Byte>)
  {
    && |c| % DIRENT_SIZE == 0 && 2 <= Count(c) && Unique(Items(c))
    && (forall k {:trigger At(c, k)} :: 2 <= k < Count(c) ==> EntryOk(At(c, k)))
  }

  // The names in use from entry k on, with their inode numbers.
  function NamesFrom(t: seq<Item>, k: nat): map<Name, int>
    decreases |t| - k
  {
    if k >= |t| then map[]
    else if t[k].name == [] then NamesFrom(t, k + 1)
    else NamesFrom(t, k + 1)[t[k].name := t[k].inum]
  }

  function Names(c: seq<Byte>): map<Name, int>
  {
    NamesFrom(Items(c), 2)
  }

  // The first entry from k on with the given name, or |t|.
  function FindFrom(t: seq<Item>, k: nat, target: Name): (i: nat)
    requires k <= |t|
    ensures k <= i <= |t|
    ensures i < |t| ==> t[i].name == target
    ensures forall j :: k <= j < i ==> t[j].name != target
    decreases |t| - k
  {
    if k == |t| || t[k].name == target then k else FindFrom(t, k + 1, target)
  }

  // Searching the log finds what the map says.
  lemma {:induction false} FindNames(t: seq<Item>, k: nat, target: Name)
    requires k <= |t| && target != []
    ensures target in NamesFrom(t, k) <==> FindFrom(t, k, target) < |t|
    ensures target in NamesFrom(t, k) ==> NamesFrom(t, k)[target] == t[FindFrom(t, k, target)].inum
    decreases |t| - k
  {
    if k < |t| && t[k].name != target { FindNames(t, k + 1, target); }
  }

  // No name is in use exactly when every entry is empty.
  lemma {:induction false} NoNames(t: seq<Item>, k: nat)
    requires k <= |t|
    ensures NamesFrom(t, k) == map[] <==> forall j :: k <= j < |t| ==> t[j].name == []
    decreases |t| - k
  {
    if k < |t| {
      NoNames(t, k + 1);
      if t[k].name != [] { assert t[k].name in NamesFrom(t, k); }
    }
  }

  // ---------- the bytes of the log ----------

  // Bytes 264 * k + 5 on of the log are this name and a zero.
  predicate Bears(c: seq<Byte>, k: nat, name: Name)
  {
    && 264 * k + 264 <= |c| && |name| < 256
    && (forall i :: 0 <= i < |name| ==> c[264 * k + 5 + i] == name[i]) && c[264 * k + 5 + |name|] == 0
  }

  lemma BearsAt(c: seq<Byte>, k: nat, name: Name)
    requires |c| % DIRENT_SIZE == 0 && Legal(name)
    ensures k < Count(c) <==> 264 * k + 264 <= |c|
    ensures k < Count(c) ==> InumOf(At(c, k)) == Field(c, 264 * k) && At(c, k) == c[264 * k..264 * k + 264]
    ensures k < Count(c) ==> (Bears(c, k, name) <==> NameOf(At(c, k)) == name && NameEnd(At(c, k), NAME) < NAME_END)
  {
    if k < Count(c) {
      EntryBytes(At(c, k), name);
      var e := At(c, k);
      assert forall i :: 0 <= i < 264 ==> e[i] == c[264 * k + i];
    }
  }

  // The search finds the entry in which the name is written, which is the only one, or none if it is written nowhere.
  lemma FoundBears(c: seq<Byte>, name: Name, k: nat)
    requires DirOk(c) && Legal(name) && name != [] && k == FindFrom(Items(c), 2, name)
    ensures k < Count(c) ==> Bears(c, k, name) && InumOf(At(c, k)) == Field(c, 264 * k) < Inodes.NUM_INODE
    ensures forall j :: 2 <= j && Bears(c, j, name) ==> j == k < Count(c)
  {
    if k < Count(c) {
      BearsAt(c, k, name);
      assert EntryOk(At(c, k)) && Items(c)[k] == ItemOf(At(c, k));
    }
    forall j | 2 <= j && Bears(c, j, name)
      ensures j == k < Count(c)
    {
      BearsAt(c, j, name);
      assert Items(c)[j] == ItemOf(At(c, j));
    }
  }

  // The names in use are those written from entry 2 on, with the numbers in front of them.
  lemma NamesBear(c: seq<Byte>, name: Name)
    requires DirOk(c) && Legal(name) && name != []
    ensures forall k :: 2 <= k && Bears(c, k, name) ==> name in Names(c) && Names(c)[name] == Field(c, 264 * k)
    ensures name in Names(c) ==> exists k :: 2 <= k && Bears(c, k, name)
  {
    FindNames(Items(c), 2, name);
    FoundBears(c, name, FindFrom(Items(c), 2, name));
  }

  // ---------- appending ----------

  lemma AtAppend(c: seq<Byte>, e: seq<Byte>, k: nat)
    requires |c| % DIRENT_SIZE == 0 && |e| == DIRENT_SIZE && k <= Count(c)
    ensures Count(c + e) == Count(c) + 1 && At(c + e, k) == if k < Count(c) then At(c, k) else e
  {
    assert |c| == DIRENT_SIZE * Count(c);
  }

  lemma Joined(a: map<Name, int>, b: map<Name, int>, x: Name, v: int)
    ensures (a + b)[x := v] == a + b[x := v]
  {
  }

  lemma {:induction false} AppendFrom(t: seq<Item>, x: Item, k: nat)
    requires k <= |t| && x.name != []
    ensures NamesFrom(t + [x], k) == map[x.name := x.inum] + NamesFrom(t, k)
    decreases |t| - k
  {
    if k < |t| {
      AppendFrom(t, x, k + 1);
      Joined(map[x.name := x.inum], NamesFrom(t, k + 1), t[k].name, t[k].inum);
    } else {
      assert NamesFrom(t + [x], k + 1) == map[];
    }
  }

  lemma ItemsAppend(c: seq<Byte>, e: seq<Byte>)
    requires |c| % DIRENT_SIZE == 0 && |e| == DIRENT_SIZE
    ensures Items(c + e) == Items(c) + [ItemOf(e)] && Count(c + e) == Count(c) + 1
    ensures forall k {:trigger At(c + e, k)} :: 0 <= k <= Count(c) ==>
      At(c + e, k) == if k < Count(c) then At(c, k) else e
  {
    forall k | 0 <= k <= Count(c)
      ensures Count(c + e) == Count(c) + 1 && At(c + e, k) == if k < Count(c) then At(c, k) else e
    {
      AtAppend(c, e, k);
    }
  }

  // Appending an entry with an unused name adds it to the map and keeps names unique; with a used one, the old entry
  // still wins.
  lemma AppendNames(c: seq<Byte>, e: seq<Byte>)
    requires DirOk(c) && |e| == DIRENT_SIZE && EntryOk(e) && NameOf(e) != []
    ensures Names(c + e) == map[NameOf(e) := InumOf(e)] + Names(c)
    ensures NameOf(e) !in Names(c) <==> DirOk(c + e)
  {
    var t, t' := Items(c), Items(c + e);
    ItemsAppend(c, e);
    AppendFrom(t, ItemOf(e), 2);
    FindNames(t, 2, NameOf(e));
    if NameOf(e) in Names(c) {
      var i := FindFrom(t, 2, NameOf(e));
      assert t'[i].name == t'[|t|].name;
    }
  }

  // ---------- deleting ----------

  // The log with entry k replaced.
  function Put(c: seq<Byte>, k: nat, e: seq<Byte>): seq<Byte>
    requires k < Count(c) && |e| == DIRENT_SIZE
  {
    c[..DIRENT_SIZE * k] + e + c[DIRENT_SIZE * k + DIRENT_SIZE..]
  }

  lemma AtPut(c: seq<Byte>, k: nat, e: seq<Byte>, j: nat)
    requires k < Count(c) && |e| == DIRENT_SIZE && j < Count(c)
    ensures |Put(c, k, e)| == |c| && At(Put(c, k, e), j) == if j == k then e else At(c, j)
  {
    var c' := Put(c, k, e);
    assert |c'| == |c|;
    if j < k {
      assert DIRENT_SIZE * j + DIRENT_SIZE <= DIRENT_SIZE * k;
    } else if j > k {
      assert DIRENT_SIZE * k + DIRENT_SIZE <= DIRENT_SIZE * j;
    }
    forall i | 0 <= i < DIRENT_SIZE
      ensures At(c', j)[i] == (if j == k then e else At(c, j))[i]
    {
      assert At(c', j)[i] == c'[DIRENT_SIZE * j + i];
    }
  }

  lemma ItemsPut(c: seq<Byte>, k: nat, e: seq<Byte>)
    requires k < Count(c) && |e| == DIRENT_SIZE
    ensures |Put(c, k, e)| == |c| && Items(Put(c, k, e)) == Items(c)[k := ItemOf(e)]
    ensures forall j {:trigger At(Put(c, k, e), j)} :: 0 <= j < Count(c) ==>
      At(Put(c, k, e), j) == if j == k then e else At(c, j)
  {
    forall j | 0 <= j < Count(c)
      ensures |Put(c, k, e)| == |c| && At(Put(c, k, e), j) == if j == k then e else At(c, j)
    {
      AtPut(c, k, e, j);
    }
  }

  lemma Without(m: map<Name, int>, x: Name, v: int, n: Name)
    ensures x != n ==> m[x := v] - {n} == (m - {n})[x := v]
    ensures n !in m ==> m - {n} == m && m[n := v] - {n} == m
  {
  }

  lemma {:induction false} DeleteFrom(t: seq<Item>, k: nat, v: int, i: nat)
    requires Unique(t) && 2 <= k < |t| && t[k].name != [] && 2 <= i <= |t|
    ensures NamesFrom(t[k := Item([], v)], i) == if i <= k then NamesFrom(t, i) - {t[k].name} else NamesFrom(t, i)
    decreases |t| - i
  {
    if i < |t| {
      DeleteFrom(t, k, v, i + 1);
      if i == k {
        assert t[k].name !in NamesFrom(t, k + 1) by { FindNames(t, k + 1, t[k].name); }
      }
      Without(NamesFrom(t, i + 1), t[i].name, t[i].inum, t[k].name);
    }
  }

  // An entry replaced by an empty one: its number is all ones, its name starts with a zero, and nothing else changes.
  predicate Emptied(c: seq<Byte>, c': seq<Byte>, k: nat)
  {
    && 264 * k + 264 <= |c| == |c'|
    && forall i :: 0 <= i < |c| ==>
      c'[i] == if 264 * k <= i < 264 * k + 4 then 255 else if i == 264 * k + 5 then 0 else c[i]
  }

  lemma TombPut(c: seq<Byte>, k: nat)
    requires k < Count(c)
    ensures Emptied(c, Put(c, k, Tomb(At(c, k))), k)
  {
    var c' := Put(c, k, Tomb(At(c, k)));
    forall i | 0 <= i < |c|
      ensures c'[i] == if 264 * k <= i < 264 * k + 4 then 255 else if i == 264 * k + 5 then 0 else c[i]
    {
      if 264 * k <= i < 264 * k + 264 { assert c'[i] == Tomb(At(c, k))[i - 264 * k]; }
    }
  }

  // Deleting an entry removes its name.
  lemma DeleteNames(c: seq<Byte>, k: nat)
    requires DirOk(c) && 2 <= k < Count(c) && NameOf(At(c, k)) != []
    ensures var c' := Put(c, k, Tomb(At(c, k)));
      DirOk(c') && |c'| == |c| && Names(c') == Names(c) - {NameOf(At(c, k))}
  {
    TombFacts(At(c, k));
    ItemsPut(c, k, Tomb(At(c, k)));
    DeleteFrom(Items(c), k, UINT_MAX, 2);
  }
}
