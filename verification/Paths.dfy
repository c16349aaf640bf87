// Path resolution and rename (syscall.c).

module Paths {
  import opened Blocks
  import opened Store
  import opened Inodes
  import opened Chunking
  import opened FileRuns
  import opened Directory
  import opened DirOps

  const SLASH: Byte := 47
  const ROOT_INUM := 0

  // A path component.
  predicate Component(name: Name)
  {
    name != [] && Legal(name) && SLASH !in name
  }

  predicate Components(names: seq<Name>)
  {
    forall i :: 0 <= i < |names| ==> Component(names[i])
  }

  function Slashed(names: seq<Name>): seq<Byte>
  {
    if names == [] then [] else [SLASH] + names[0] + Slashed(names[1..])
  }

  // The normalised path of a list of components.
  function PathOf(names: seq<Name>): (p: seq<Byte>)
    ensures p != [] && p[0] == SLASH
  {
    if names == [] then [SLASH] else Slashed(names)
  }

  // ---------- find_inode ----------

  // Looking the components up one after the other.
  function Walk(m: FileMap, cur: nat, names: seq<Name>): (r: int)
    requires Walkable(m, cur, names)
    ensures r >= -1
    decreases |names|
  {
    if names == [] then cur
    else
      var next := Lookup(m[cur], names[0]);
      if next < 0 then -1 else Walk(m, next, names[1..])
  }

  // Every component looked up is looked up in a directory.
  predicate Walkable(m: FileMap, cur: nat, names: seq<Name>)
    decreases |names|
  {
    names == [] ||
    (IsDir(m, cur) && (Lookup(m[cur], names[0]) >= 0 ==> Walkable(m, Lookup(m[cur], names[0]), names[1..])))
  }

  lemma LookupRange(c: seq<Byte>, target: Name)
    requires DirOk(c)
    ensures -1 <= Lookup(c, target) < NUM_INODE && (Lookup(c, target) >= 0 <==> target in Names(c))
  {
    if target in Names(c) {
      var k := FindFrom(Items(c), 2, target);
      if target == [] { NotEmptyName(Items(c), 2); }
      FindNames(Items(c), 2, target);
      assert EntryOk(At(c, k));
    }
  }

  // get_dir: the first token of a path between slashes.
  function FirstToken(p: seq<Byte>): (t: seq<Byte>)
    ensures |t| <= |p| && SLASH !in t
  {
    if p != [] && p[0] == SLASH then FirstToken(p[1..]) else UpToSlash(p)
  }

  function UpToSlash(p: seq<Byte>): (t: seq<Byte>)
    ensures |t| <= |p| && SLASH !in t
  {
    if p == [] || p[0] == SLASH then [] else [p[0]] + UpToSlash(p[1..])
  }

  // The token is what is behind the first slashes, up to the next one or to the end.
  lemma {:induction false} FirstTokenIs(p: seq<Byte>) returns (k: nat)
    ensures var n := |FirstToken(p)|;
      && k + n <= |p| && p[k..k + n] == FirstToken(p) && (k + n < |p| ==> p[k + n] == 47)
      && (forall i :: 0 <= i < k ==> p[i] == 47) && (k < |p| ==> p[k] != 47)
  {
    if p != [] && p[0] == SLASH {
      k := FirstTokenIs(p[1..]);
      k := k + 1;
    } else {
      k := 0;
      UpToSlashIs(p);
    }
  }

  lemma {:induction false} UpToSlashIs(p: seq<Byte>)
    ensures var n := |UpToSlash(p)|; UpToSlash(p) == p[..n] && (n < |p| ==> p[n] == 47)
  {
    if p != [] && p[0] != SLASH { UpToSlashIs(p[1..]); }
  }

  lemma {:induction false} TokenIs(name: seq<Byte>, rest: seq<Byte>)
    requires SLASH !in name && (rest == [] || rest[0] == SLASH)
    ensures UpToSlash(name + rest) == name
  {
    if name != [] {
      assert name[0] in name;
      TokenIs(name[1..], rest);
      assert (name + rest)[1..] == name[1..] + rest;
    } else {
      assert name + rest == rest;
    }
  }

  // strtok finds a token whenever there is something left of the path.
  predicate Tokened(p: seq<Byte>)
  {
    p == [] || (FirstToken(p) != [] && (|FirstToken(p)| < |p| ==> Tokened(p[|FirstToken(p)| + 1..])))
  }

  // The names that find_inode looks up for what is left of a path.  It goes on behind as many bytes as the token has
  // and one more, counted from where it was and not from where the token is.
  function Tokens(p: seq<Byte>): seq<Name>
    requires Tokened(p)
  {
    if p == [] then []
    else if |FirstToken(p)| == |p| then [FirstToken(p)]
    else [FirstToken(p)] + Tokens(p[|FirstToken(p)| + 1..])
  }

  lemma TokensNext(p: seq<Byte>, name: Name, rest: seq<Byte>, tail: seq<Name>)
    requires name != [] && FirstToken(p) == name && |name| < |p| && p[|name| + 1..] == rest
    requires Tokened(rest) && Tokens(rest) == tail
    ensures Tokened(p) && Tokens(p) == [name] + tail
  {
  }

  lemma SkipSlash(p: seq<Byte>)
    ensures FirstToken([SLASH] + p) == FirstToken(p)
  {
    assert ([SLASH] + p)[1..] == p;
  }

  lemma FirstIs(name: Name, rest: seq<Byte>)
    requires Component(name) && (rest == [] || rest[0] == SLASH)
    ensures FirstToken(name + rest) == name
  {
    TokenIs(name, rest);
    assert name[0] in name;
  }

  // One step, with a slash in front or none.
  lemma TokensPlain(name: Name, rest: seq<Byte>, tail: seq<Name>, p: seq<Byte>)
    requires Component(name) && p == name + [SLASH] + rest && Tokened(rest) && Tokens(rest) == tail
    ensures Tokened(p) && Tokens(p) == [name] + tail
  {
    assert p == name + ([SLASH] + rest) && p[|name| + 1..] == rest;
    FirstIs(name, [SLASH] + rest);
    TokensNext(p, name, rest, tail);
  }

  lemma TokensBehind(name: Name, rest: seq<Byte>, tail: seq<Name>, p: seq<Byte>)
    requires Component(name) && p == [SLASH] + name + rest && (rest == [] || rest[0] == SLASH)
    requires Tokened(rest) && Tokens(rest) == tail
    ensures Tokened(p) && Tokens(p) == [name] + tail
  {
    assert p == [SLASH] + (name + rest) && p[|name| + 1..] == rest;
    FirstIs(name, rest);
    SkipSlash(name + rest);
    TokensNext(p, name, rest, tail);
  }

  lemma TokensEnd(name: Name)
    requires Component(name)
    ensures Tokened(name) && Tokens(name) == [name]
  {
    FirstIs(name, []);
    assert name + [] == name;
  }

  // A slash in front of every name.
  lemma {:induction false} TokensSlashed(names: seq<Name>)
    requires Components(names)
    ensures Tokened(Slashed(names)) && Tokens(Slashed(names)) == names
  {
    if names != [] {
      TokensSlashed(names[1..]);
      TokensBehind(names[0], Slashed(names[1..]), names[1..], Slashed(names));
    }
  }

  // find_inode looks the components of a normalised path up one by one...
  lemma {:induction false} TokensOf(names: seq<Name>)
    requires Components(names)
    ensures Tokened(PathOf(names)[1..]) && Tokens(PathOf(names)[1..]) == names
  {
    if names != [] {
      var p := PathOf(names)[1..];
      if |names| == 1 {
        TokensEnd(names[0]);
        assert Slashed(names) == [SLASH] + names[0] + Slashed(names[1..]) && p == names[0];
      } else {
        var rest := PathOf(names[1..])[1..];
        TokensOf(names[1..]);
        assert p == names[0] + [SLASH] + rest;
        TokensPlain(names[0], rest, names[1..], p);
      }
    }
  }

  // A path with its slash before name i, or the one at its end, doubled.
  function Doubled(names: seq<Name>, i: nat): seq<Byte>
    requires i <= |names|
  {
    Slashed(names[..i]) + [SLASH] + Slashed(names[i..])
  }

  lemma DoubledNext(names: seq<Name>, i: nat)
    requires 1 <= i <= |names|
    ensures Doubled(names, i)[1..] == names[0] + [SLASH] +
      if i == 1 then Slashed(names[1..]) else Doubled(names[1..], i - 1)[1..]
  {
    if i == 1 {
      assert Slashed(names[..1]) == [SLASH] + names[0];
    } else {
      assert names[1..][..i - 1] == names[..i][1..] && names[1..][i - 1..] == names[i..];
    }
  }

  // ... and those of a path with one slash too many, wherever it is...
  lemma {:induction false} TokensDoubled(names: seq<Name>, i: nat)
    requires Components(names) && names != [] && i <= |names|
    ensures Tokened(Doubled(names, i)[1..]) && Tokens(Doubled(names, i)[1..]) == names
  {
    if i == 0 {
      TokensSlashed(names);
      assert names[0..] == names && Doubled(names, 0)[1..] == Slashed(names);
    } else {
      var rest := if i == 1 then Slashed(names[1..]) else Doubled(names[1..], i - 1)[1..];
      if i == 1 { TokensSlashed(names[1..]); } else { TokensDoubled(names[1..], i - 1); }
      DoubledNext(names, i);
      TokensPlain(names[0], rest, names[1..], Doubled(names, i)[1..]);
    }
  }

  // ... but with two too many it looks up the last byte of a name as well.
  lemma TokensTripled(name: Name, p: seq<Byte>)
    requires Component(name) && p == [SLASH, SLASH] + name
    ensures Tokened(p) && Tokens(p) == [name] + [[name[|name| - 1]]]
  {
    var last := [name[|name| - 1]];
    assert name[|name| - 1] in name;
    TokensEnd(last);
    TripledFirst(name, p);
    assert p[|name| + 1..] == last;
    TokensNext(p, name, last, [last]);
  }

  lemma TripledFirst(name: Name, p: seq<Byte>)
    requires Component(name) && p == [SLASH, SLASH] + name
    ensures FirstToken(p) == name
  {
    FirstIs(name, []);
    SkipSlash(name);
    SkipSlash([SLASH] + name);
    assert name + [] == name && [SLASH] + ([SLASH] + name) == p;
  }

  // find_inode, for a path that strtok can take apart.
  method FindInode(s: Device, path: seq<Byte>, ghost m: FileMap) returns (r: int)
    requires Holds(s, m)
    requires path != [] && path[0] == SLASH ==> Tokened(path[1..]) && Walkable(m, ROOT_INUM, Tokens(path[1..]))
    modifies s.log
    ensures r == if path == [] || path[0] != SLASH then -1 else Walk(m, ROOT_INUM, Tokens(path[1..]))
    ensures path == [47] ==> r == 0
  {
    if path == [] || path[0] != SLASH {
      return -1;
    }
    var myInum: nat := ROOT_INUM;
    var pathCopy := path[1..];
    ghost var goal := Walk(m, ROOT_INUM, Tokens(pathCopy));
    while |pathCopy| != 0
      invariant Tokened(pathCopy) && Walkable(m, myInum, Tokens(pathCopy))
      invariant Walk(m, myInum, Tokens(pathCopy)) == goal
    {
      var dir := FirstToken(pathCopy);
      assert Tokens(pathCopy)[0] == dir;
      assert Tokens(pathCopy)[1..] == if |pathCopy| == |dir| then [] else Tokens(pathCopy[|dir| + 1..]);
      var next := FindInodeIndex(s, myInum, dir, m);
      LookupRange(m[myInum], dir);
      if next == -1 {
        return -1;
      }
      myInum := next;
      if |pathCopy| == |dir| {
        return myInum;
      }
      pathCopy := pathCopy[|dir| + 1..];
    }
    r := myInum;
  }

  // ---------- get_parent ----------

  // strrchr(path, '/')
  function LastSlash(p: seq<Byte>): (k: nat)
    requires SLASH in p
    ensures k < |p| && p[k] == SLASH && SLASH !in p[k + 1..]
  {
    if SLASH in p[1..] then 1 + LastSlash(p[1..]) else 0
  }

  lemma {:induction false} SlashedSplit(names: seq<Name>)
    requires names != []
    ensures Slashed(names) == Slashed(names[..|names| - 1]) + [SLASH] + names[|names| - 1]
  {
    var n := |names| - 1;
    if n > 0 {
      SlashedSplit(names[1..]);
      assert names[1..][..n - 1] == names[..n][1..] && names[1..][n - 1] == names[n];
    }
  }

  lemma LastSlashIs(a: seq<Byte>, name: seq<Byte>)
    requires SLASH !in name
    ensures SLASH in a + [SLASH] + name && LastSlash(a + [SLASH] + name) == |a|
  {
    var p := a + [SLASH] + name;
    assert p[|a|] == SLASH;
    var k := LastSlash(p);
    forall j | k < j < |p|
      ensures p[j] != SLASH
    {
      assert p[j] == p[k + 1..][j - k - 1];
    }
    forall j | |a| < j < |p|
      ensures p[j] != SLASH
    {
      assert p[j] == name[j - |a| - 1];
    }
  }

  // get_parent.  It refuses paths that end with a slash, the root among them.
  method GetParent(path: seq<Byte>) returns (status: int, parentPath: seq<Byte>, fileName: seq<Byte>)
    ensures status == if SLASH !in path || path[|path| - 1] == SLASH then -1 else 0
    ensures status == 0 ==>
      && SLASH !in fileName && 0 < |fileName| < |path|
      && var prefix := path[..|path| - |fileName| - 1];
        path == prefix + [SLASH] + fileName && parentPath == if prefix == [] then [SLASH] else prefix
  {
    if SLASH !in path || LastSlash(path) == |path| - 1 {
      LastByte(path);
      return -1, [], [];
    }
    var length := LastSlash(path);
    fileName := path[length + 1..];
    assert path == path[..length] + [SLASH] + fileName;
    parentPath := if length == 0 then [SLASH] else path[..length];
    assert path[|path| - 1] == fileName[|fileName| - 1];
    status := 0;
  }

  lemma LastByte(path: seq<Byte>)
    requires SLASH in path ==> LastSlash(path) == |path| - 1
    ensures SLASH !in path || path[|path| - 1] == SLASH
  {
  }

  // It splits a normalised path other than the root into its parent and its last name.
  lemma ParentOf(names: seq<Name>, path: seq<Byte>, prefix: seq<Byte>, name: seq<Byte>)
    requires names != [] && Components(names) && path == PathOf(names)
    requires path == prefix + [SLASH] + name && SLASH !in name
    ensures name == names[|names| - 1]
    ensures PathOf(names[..|names| - 1]) == if prefix == [] then [SLASH] else prefix
  {
    var n := |names| - 1;
    SlashedSplit(names);
    LastSlashIs(Slashed(names[..n]), names[n]);
    LastSlashIs(prefix, name);
    assert name == path[LastSlash(path) + 1..] == names[n];
    assert prefix == path[..LastSlash(path)] == Slashed(names[..n]);
    if prefix == [] { SlashedEmpty(names[..n]); }
  }

  lemma LastOf(names: seq<Name>)
    requires names != [] && Components(names)
    ensures var path := PathOf(names); SLASH in path && path[|path| - 1] != SLASH
  {
    SlashedSplit(names);
    var name := names[|names| - 1];
    assert Component(name) && name[|name| - 1] in name;
    assert PathOf(names)[|PathOf(names)| - 1] == name[|name| - 1];
  }

  // get_parent and find_inode of the parent, as get_parent_inum_and_filename calls them.
  method ParentInum(s: Device, path: seq<Byte>, ghost names: seq<Name>, ghost m: FileMap)
    returns (inum: int, fileName: seq<Byte>)
    requires Holds(s, m) && names != [] && Components(names) && path == PathOf(names)
    requires Walkable(m, ROOT_INUM, names[..|names| - 1])
    modifies s.log
    ensures inum == Walk(m, ROOT_INUM, names[..|names| - 1]) && fileName == names[|names| - 1]
  {
    LastOf(names);
    var status, parentPath;
    status, parentPath, fileName := GetParent(path);
    ParentOf(names, path, path[..|path| - |fileName| - 1], fileName);
    TokensOf(names[..|names| - 1]);
    inum := FindInode(s, parentPath, m);
  }

  lemma SlashedEmpty(names: seq<Name>)
    requires Slashed(names) == []
    ensures names == []
  {
  }

  // ---------- pcd_rename ----------

  const ENOENT := 2

  // The directory tree after the old entry is deleted from directory p.
  function Deleted(m: FileMap, p: nat, name: Name): FileMap
    requires IsDir(m, p) && name in Names(m[p]) && name != []
  {
    var c := m[p];
    FindNames(Items(c), 2, name);
    var k := FindFrom(Items(c), 2, name);
    m[p := Put(c, k, Tomb(At(c, k)))]
  }

  // The entry deleted.
  function EntryOf(m: FileMap, p: nat, name: Name): (e: seq<Byte>)
    requires IsDir(m, p) && name in Names(m[p]) && name != []
    ensures |e| == DIRENT_SIZE && EntryOk(e) && NameOf(e) == name && InumOf(e) == Names(m[p])[name]
  {
    FindNames(Items(m[p]), 2, name);
    At(m[p], FindFrom(Items(m[p]), 2, name))
  }

  // A path resolves by looking its last name up in its parent.
  lemma {:induction false} WalkParent(m: FileMap, cur: nat, names: seq<Name>)
    requires names != [] && Walkable(m, cur, names[..|names| - 1])
    requires var p := Walk(m, cur, names[..|names| - 1]); p >= 0 ==> IsDir(m, p)
    ensures Walkable(m, cur, names)
    ensures var p := Walk(m, cur, names[..|names| - 1]);
      Walk(m, cur, names) == if p < 0 then -1 else Lookup(m[p], names[|names| - 1])
    decreases |names|
  {
    var n := |names| - 1;
    if n == 0 {
      LookupRange(m[cur], names[0]);
    } else {
      assert names[..n][0] == names[0] && names[..n][1..] == names[1..][..n - 1] && names[1..][n - 1] == names[n];
      if Lookup(m[cur], names[0]) >= 0 { WalkParent(m, Lookup(m[cur], names[0]), names[1..]); }
    }
  }

  // The tree after the old entry, renamed, is appended to directory q.
  function Moved(m: FileMap, p: nat, name: Name, q: nat, newName: Name): FileMap
    requires IsDir(m, p) && name in Names(m[p]) && name != [] && q in m && Legal(newName)
  {
    var m1 := Deleted(m, p, name);
    m1[q := m1[q] + Renamed(EntryOf(m, p, name), newName)]
  }

  lemma DeletedFacts(m: FileMap, p: nat, name: Name)
    requires IsDir(m, p) && name in Names(m[p]) && name != []
    ensures var m1 := Deleted(m, p, name);
      && m1.Keys == m.Keys && IsDir(m1, p) && Names(m1[p]) == Names(m[p]) - {name} && |m1[p]| == |m[p]|
      && forall i :: i in m && i != p ==> m1[i] == m[i]
  {
    FindNames(Items(m[p]), 2, name);
    DeleteNames(m[p], FindFrom(Items(m[p]), 2, name));
  }

  // Directories are where the two paths need them, and the new parent has room.
  predicate Renamable(m: FileMap, olds: seq<Name>, news: seq<Name>)
  {
    && olds != [] && news != [] && Components(olds) && Components(news)
    && Walkable(m, ROOT_INUM, olds[..|olds| - 1])
    && var p, name := Walk(m, ROOT_INUM, olds[..|olds| - 1]), olds[|olds| - 1];
      p >= 0 ==> IsDir(m, p) && (name in Names(m[p]) ==> ParentOk(Deleted(m, p, name), news))
  }

  predicate ParentOk(m: FileMap, news: seq<Name>)
    requires news != []
  {
    && Walkable(m, ROOT_INUM, news[..|news| - 1])
    && var q := Walk(m, ROOT_INUM, news[..|news| - 1]);
      q >= 0 ==> IsDir(m, q) && |m[q]| + DIRENT_SIZE <= INT_MAX
  }

  // The result of pcd_rename.  An old path that does not resolve changes nothing; a new parent that does not resolve
  // once the old entry is gone costs the file its name.
  function Renaming(m: FileMap, olds: seq<Name>, news: seq<Name>): (int, FileMap)
    requires Renamable(m, olds, news)
  {
    var p, name := Walk(m, ROOT_INUM, olds[..|olds| - 1]), olds[|olds| - 1];
    if p < 0 || name !in Names(m[p]) then (-ENOENT, m)
    else
      var m1 := Deleted(m, p, name);
      var q := Walk(m1, ROOT_INUM, news[..|news| - 1]);
      if q < 0 then (-ENOENT, m1) else (0, Moved(m, p, name, q, news[|news| - 1]))
  }

  // Blocks that pcd_rename takes.
  function RenameRoom(m: FileMap, olds: seq<Name>, news: seq<Name>): nat
    requires Renamable(m, olds, news)
  {
    var p, name := Walk(m, ROOT_INUM, olds[..|olds| - 1]), olds[|olds| - 1];
    if p < 0 || name !in Names(m[p]) then 0 else PlaceRoom(Deleted(m, p, name), news)
  }

  function PlaceRoom(m: FileMap, news: seq<Name>): (n: nat)
    requires news != [] && ParentOk(m, news)
    ensures n <= 6
  {
    var q := Walk(m, ROOT_INUM, news[..|news| - 1]);
    if q < 0 then 0 else EntryRoomBound(|m[q]|); EntryRoom(|m[q]|)
  }

  // The end of pcd_rename, once the old entry is deleted.
  method PlaceEntry(s: Device, newpath: seq<Byte>, entry: seq<Byte>, ghost news: seq<Name>, ghost m: FileMap)
    returns (status: int, ghost m': FileMap)
    requires Holds(s, m) && |entry| == DIRENT_SIZE
    requires news != [] && Components(news) && newpath == PathOf(news) && ParentOk(m, news)
    requires |s.free| >= PlaceRoom(m, news)
    modifies s.log, s`blocks, s`chain, s`free, s`own
    ensures Holds(s, m') && |s.free| >= |old(s.free)| - PlaceRoom(m, news)
    ensures AttributesKept(old(s.blocks), s.blocks, s.live)
    ensures var q := Walk(m, ROOT_INUM, news[..|news| - 1]);
      if q < 0 then status == -ENOENT && m' == m
      else status == 0 && m' == m[q := m[q] + Renamed(entry, news[|news| - 1])]
  {
    var newParentInum, fileName := ParentInum(s, newpath, news, m);
    if newParentInum == -1 {
      AttributesSame(s.blocks, s.live);
      return -ENOENT, m;
    }
    AddEntry(s, newParentInum, Renamed(entry, fileName), m);
    m' := m[newParentInum := m[newParentInum] + Renamed(entry, fileName)];
    status := 0;
  }

  // e is entry k of c with another name in it: the inode number and the type stay, and so does what is behind the name
  // and its terminator.
  predicate Copied(c: seq<Byte>, k: nat, newName: Name, e: seq<Byte>)
  {
    && 264 * k + 264 <= |c| && |e| == 264
    && forall i :: 0 <= i < 264 ==>
      e[i] == if 5 <= i < 5 + |newName| then newName[i - 5] else if i == 5 + |newName| then 0 else c[264 * k + i]
  }

  // The bytes after a completed rename: the entry of the old name, in directory p, is empty, directory q has a copy of
  // it under the new name behind what it held, and no other file has changed.
  predicate Completed(m: FileMap, m': FileMap, p: nat, k: nat, name: Name, q: nat, newName: Name)
  {
    && p in m && q in m && m'.Keys == m.Keys && 2 <= k && Bears(m[p], k, name)
    && (forall i :: i in m && i != p && i != q ==> m'[i] == m[i])
    && |m'[q]| == |m[q]| + 264
    && (if p == q then Emptied(m[p], m'[q][..|m[q]|], k)
        else Emptied(m[p], m'[p], k) && m'[q][..|m[q]|] == m[q])
    && Copied(m[p], k, newName, m'[q][|m[q]|..])
  }

  lemma CopiedIs(c: seq<Byte>, k: nat, newName: Name)
    requires k < Count(c) && Legal(newName)
    ensures Copied(c, k, newName, Renamed(At(c, k), newName))
  {
    var e := At(c, k);
    assert forall i :: 0 <= i < 264 ==> e[i] == c[264 * k + i];
  }

  lemma CompletedIs(m: FileMap, p: nat, c: seq<Byte>, k: nat, name: Name, q: nat, e: seq<Byte>, newName: Name)
    requires p in m && q in m && 2 <= k && Bears(m[p], k, name) && Emptied(m[p], c, k) && Copied(m[p], k, newName, e)
    ensures Completed(m, m[p := c][q := m[p := c][q] + e], p, k, name, q, newName)
  {
    var c1 := m[p := c][q];
    assert (c1 + e)[..|c1|] == c1 && (c1 + e)[|c1|..] == e;
  }

  lemma MovedBytes(m: FileMap, p: nat, name: Name, q: nat, newName: Name)
    requires IsDir(m, p) && name in Names(m[p]) && name != [] && Legal(name) && q in m && Legal(newName)
    ensures Completed(m, Moved(m, p, name, q, newName), p, FindFrom(Items(m[p]), 2, name), name, q, newName)
  {
    var k := FindFrom(Items(m[p]), 2, name);
    FindNames(Items(m[p]), 2, name);
    FoundBears(m[p], name, k);
    TombPut(m[p], k);
    CopiedIs(m[p], k, newName);
    CompletedIs(m, p, Put(m[p], k, Tomb(At(m[p], k))), k, name, q, Renamed(At(m[p], k), newName), newName);
  }

  // What pcd_rename leaves when it returns 0.
  predicate Done(m: FileMap, m': FileMap, olds: seq<Name>, news: seq<Name>)
    requires Renamable(m, olds, news) && Renaming(m, olds, news).0 == 0
  {
    var p, name := Walk(m, ROOT_INUM, olds[..|olds| - 1]), olds[|olds| - 1];
    var q, newName := Walk(Deleted(m, p, name), ROOT_INUM, news[..|news| - 1]), news[|news| - 1];
    Completed(m, m', p, FindFrom(Items(m[p]), 2, name), name, q, newName)
  }

  lemma RenamingDone(m: FileMap, olds: seq<Name>, news: seq<Name>)
    requires Renamable(m, olds, news)
    ensures var (status, m') := Renaming(m, olds, news);
      (status == 0 || status == -2) && (status == 0 ==> Done(m, m', olds, news))
  {
    var p, name := Walk(m, ROOT_INUM, olds[..|olds| - 1]), olds[|olds| - 1];
    if p >= 0 && name in Names(m[p]) {
      var q := Walk(Deleted(m, p, name), ROOT_INUM, news[..|news| - 1]);
      if q >= 0 { MovedBytes(m, p, name, q, news[|news| - 1]); }
    }
  }

  // pcd_rename, for two paths other than the root.
  method Rename(s: Device, oldpath: seq<Byte>, newpath: seq<Byte>, ghost olds: seq<Name>, ghost news: seq<Name>,
                ghost m: FileMap)
    returns (status: int, ghost m': FileMap)
    requires Holds(s, m) && Renamable(m, olds, news) && oldpath == PathOf(olds) && newpath == PathOf(news)
    requires |s.free| >= RenameRoom(m, olds, news)
    modifies s.log, s`blocks, s`chain, s`free, s`own
    ensures (status, m') == Renaming(m, olds, news) && Holds(s, m')
    ensures (status == 0 || status == -2) && (status == 0 ==> Done(m, m', olds, news))
    ensures |s.free| >= |old(s.free)| - RenameRoom(m, olds, news)
    ensures AttributesKept(old(s.blocks), s.blocks, s.live)
  {
    ghost var n := |olds| - 1;
    RenamingDone(m, olds, news);
    WalkParent(m, ROOT_INUM, olds);
    ghost var p := Walk(m, ROOT_INUM, olds[..n]);
    if p >= 0 { LookupRange(m[p], olds[n]); }
    TokensOf(olds);
    var myInum := FindInode(s, oldpath, m);
    ghost var d := s.blocks;
    if myInum < 0 {
      AttributesSame(d, s.live);
      return -ENOENT, m;
    }
    var oldParentInum, fileName := ParentInum(s, oldpath, olds, m);
    FindNames(Items(m[oldParentInum]), 2, fileName);
    var deleted, entry := DeleteDirent(s, oldParentInum, fileName, m);
    ghost var d1 := s.blocks;
    status, m' := PlaceEntry(s, newpath, entry, news, Deleted(m, oldParentInum, fileName));
    AttributesThen(d, d1, s.blocks, s.live);
  }

  lemma RenamedEntry(m: FileMap, p: nat, name: Name, newName: Name)
    requires IsDir(m, p) && name in Names(m[p]) && name != [] && Component(newName)
    ensures var e := Renamed(EntryOf(m, p, name), newName);
      EntryOk(e) && NameOf(e) == newName && InumOf(e) == Names(m[p])[name]
  {
    RenamedName(EntryOf(m, p, name), newName);
  }

  // What a completed rename does to the names: the old one goes, and the new one stands for the same inode exactly when
  // it was free in the new parent by then (or already stood for it); otherwise the entry it had keeps hiding the new
  // one.
  lemma MovedNames(m: FileMap, p: nat, name: Name, q: nat, newName: Name)
    requires IsDir(m, p) && name in Names(m[p]) && name != [] && Component(newName)
    requires IsDir(Deleted(m, p, name), q) && |m[q]| + DIRENT_SIZE <= INT_MAX
    ensures var m1, m', inum := Deleted(m, p, name), Moved(m, p, name, q, newName), Names(m[p])[name];
      && Names(m'[q]) == map[newName := inum] + Names(m1[q])
      && Names(m1[p]) == Names(m[p]) - {name}
      && (forall i :: i in m && i != p && i != q ==> m'[i] == m[i])
      && (p != q ==> m'[p] == m1[p])
      && (Lookup(m'[q], newName) == inum <==> newName !in Names(m1[q]) || Names(m1[q])[newName] == inum)
      && (IsDir(m', q) <==> newName !in Names(m1[q]))
  {
    DeletedFacts(m, p, name);
    RenamedEntry(m, p, name, newName);
    AppendNames(Deleted(m, p, name)[q], Renamed(EntryOf(m, p, name), newName));
  }

  // ---------- the name maps ----------

  // The names of every directory.
  type Tree = map<nat, map<Name, int>>

  // Looking the components up one after the other in the maps.
  function Resolve(t: Tree, cur: int, names: seq<Name>): int
    requires Resolvable(t, cur, names)
    decreases |names|
  {
    if names == [] then cur
    else if names[0] in t[cur] then Resolve(t, t[cur][names[0]], names[1..])
    else -1
  }

  // Every component looked up is looked up in a directory.
  predicate Resolvable(t: Tree, cur: int, names: seq<Name>)
    decreases |names|
  {
    names == [] || (0 <= cur && cur in t && (names[0] in t[cur] ==> Resolvable(t, t[cur][names[0]], names[1..])))
  }

  // m holds the directories of t, with room for `ops` more entries.
  ghost predicate Spells(m: FileMap, t: Tree, ops: nat)
  {
    forall d {:trigger t[d]} :: d in t ==> IsDir(m, d) && Names(m[d]) == t[d] && |m[d]| + DIRENT_SIZE * ops <= INT_MAX
  }

  // Resolution on the device is resolution in the maps.
  lemma {:induction false} WalkIs(m: FileMap, t: Tree, ops: nat, cur: nat, names: seq<Name>)
    requires Spells(m, t, ops) && Resolvable(t, cur, names)
    ensures Walkable(m, cur, names) && Walk(m, cur, names) == Resolve(t, cur, names)
    decreases |names|
  {
    if names != [] {
      assert t[cur] == t[cur];
      LookupRange(m[cur], names[0]);
      if names[0] in t[cur] { WalkIs(m, t, ops, t[cur][names[0]], names[1..]); }
    }
  }

  // ---------- runs ----------

  datatype DirOp =
    | Link(dir: nat, entry: seq<Byte>)
    | Unlink(dir: nat, name: Name)
    | Move(olds: seq<Name>, news: seq<Name>)
    | Find(names: seq<Name>)
    | Empty(dir: nat)

  function Init(names: seq<Name>): seq<Name>
    requires names != []
  {
    names[..|names| - 1]
  }

  function Last(names: seq<Name>): Name
    requires names != []
  {
    names[|names| - 1]
  }

  // The maps without a name.
  function Dropped(t: Tree, p: nat, name: Name): Tree
    requires p in t
  {
    t[p := t[p] - {name}]
  }

  // The maps after an operation: a rename deletes the old name, and then adds the new one if its parent still resolves.
  function Change(t: Tree, op: DirOp): Tree
    requires Possible(t, op)
  {
    match op
    case Link(dir, e) => t[dir := t[dir][NameOf(e) := InumOf(e)]]
    case Unlink(dir, name) => Dropped(t, dir, name)
    case Move(olds, news) =>
      var p := Resolve(t, ROOT_INUM, Init(olds));
      if p < 0 || Last(olds) !in t[p] then t
      else
        var t1 := Dropped(t, p, Last(olds));
        var q := Resolve(t1, ROOT_INUM, Init(news));
        if q < 0 then t1 else t1[q := t1[q][Last(news) := t[p][Last(olds)]]]
    case Find(_) => t
    case Empty(_) => t
  }

  // What an operation answers: the status, the inode number found, or whether a directory is empty.
  function Answered(t: Tree, op: DirOp): int
    requires Possible(t, op)
  {
    match op
    case Link(_, _) => 0
    case Unlink(dir, name) => if name in t[dir] then 0 else -1
    case Move(olds, news) =>
      var p := Resolve(t, ROOT_INUM, Init(olds));
      if p < 0 || Last(olds) !in t[p] then -ENOENT
      else if Resolve(Dropped(t, p, Last(olds)), ROOT_INUM, Init(news)) < 0 then -ENOENT
      else 0
    case Find(names) => Resolve(t, ROOT_INUM, names)
    case Empty(dir) => if t[dir] == map[] then 1 else 0
  }

  // The parent of a path is looked up in directories, and is one if it resolves.
  predicate ParentIn(t: Tree, names: seq<Name>)
    requires names != []
  {
    && Resolvable(t, ROOT_INUM, Init(names))
    && (Resolve(t, ROOT_INUM, Init(names)) >= 0 ==> Resolve(t, ROOT_INUM, Init(names)) in t)
  }

  // A new path, once the old name is gone, is not in use.
  predicate NewPlace(t: Tree, news: seq<Name>)
    requires news != []
  {
    ParentIn(t, news) && var q := Resolve(t, ROOT_INUM, Init(news)); q >= 0 ==> Last(news) !in t[q]
  }

  // Paths are looked up in directories, and new names are unused.
  predicate Possible(t: Tree, op: DirOp)
  {
    match op
    case Link(dir, e) => dir in t && |e| == DIRENT_SIZE && EntryOk(e) && NameOf(e) != [] && NameOf(e) !in t[dir]
    case Unlink(dir, name) => dir in t && name != []
    case Move(olds, news) =>
      && olds != [] && news != [] && Components(olds) && Components(news) && ParentIn(t, olds)
      && var p := Resolve(t, ROOT_INUM, Init(olds));
        p >= 0 && Last(olds) in t[p] ==> NewPlace(Dropped(t, p, Last(olds)), news)
    case Find(names) => Components(names) && Resolvable(t, ROOT_INUM, names)
    case Empty(dir) => dir in t
  }

  lemma LinkSpells(m: FileMap, t: Tree, ops: nat, dir: nat, e: seq<Byte>)
    requires Spells(m, t, ops + 1) && Possible(t, Link(dir, e))
    ensures Spells(m[dir := m[dir] + e], Change(t, Link(dir, e)), ops)
  {
    assert t[dir] == t[dir];
    AppendNames(m[dir], e);
    assert map[NameOf(e) := InumOf(e)] + Names(m[dir]) == Names(m[dir])[NameOf(e) := InumOf(e)];
  }

  lemma UnlinkSpells(m: FileMap, t: Tree, ops: nat, dir: nat, name: Name)
    requires Spells(m, t, ops + 1) && dir in t && name != []
    ensures var c := m[dir]; var k := FindFrom(Items(c), 2, name);
      if k < Count(c) then name in t[dir] && Spells(m[dir := Put(c, k, Tomb(At(c, k)))], Dropped(t, dir, name), ops)
      else name !in t[dir] && Dropped(t, dir, name) == t && Spells(m, t, ops)
  {
    assert t[dir] == t[dir];
    FindNames(Items(m[dir]), 2, name);
    if FindFrom(Items(m[dir]), 2, name) < Count(m[dir]) {
      DeleteNames(m[dir], FindFrom(Items(m[dir]), 2, name));
    } else {
      assert t[dir] - {name} == t[dir];
    }
  }

  lemma DeletedSpells(m: FileMap, t: Tree, ops: nat, p: nat, name: Name)
    requires Spells(m, t, ops + 1) && p in t && name in t[p] && name != [] && IsDir(m, p) && name in Names(m[p])
    ensures Spells(Deleted(m, p, name), Dropped(t, p, name), ops + 1) && Deleted(m, p, name).Keys == m.Keys
  {
    DeletedFacts(m, p, name);
  }

  // The new parent on the device is the one in the maps.
  lemma ParentIs(m: FileMap, t: Tree, ops: nat, news: seq<Name>)
    requires Spells(m, t, ops + 1) && news != [] && ParentIn(t, news)
    ensures ParentOk(m, news) && Walk(m, ROOT_INUM, Init(news)) == Resolve(t, ROOT_INUM, Init(news))
  {
    WalkIs(m, t, ops + 1, ROOT_INUM, Init(news));
    var q := Resolve(t, ROOT_INUM, Init(news));
    if q >= 0 { assert t[q] == t[q]; }
  }

  // A rename that is possible in the maps is one on the device...
  lemma MoveRenamable(m: FileMap, t: Tree, ops: nat, olds: seq<Name>, news: seq<Name>)
    requires Spells(m, t, ops + 1) && Possible(t, Move(olds, news))
    ensures Renamable(m, olds, news) && RenameRoom(m, olds, news) <= 6
    ensures Walk(m, ROOT_INUM, Init(olds)) == Resolve(t, ROOT_INUM, Init(olds))
  {
    WalkIs(m, t, ops + 1, ROOT_INUM, Init(olds));
    var p, name := Resolve(t, ROOT_INUM, Init(olds)), Last(olds);
    if p >= 0 {
      assert t[p] == t[p];
      if name in t[p] {
        DeletedSpells(m, t, ops, p, name);
        ParentIs(Deleted(m, p, name), Dropped(t, p, name), ops, news);
      }
    }
  }

  // ... with the outcome that the maps say.
  lemma MoveSpells(m: FileMap, t: Tree, ops: nat, olds: seq<Name>, news: seq<Name>)
    requires Spells(m, t, ops + 1) && Possible(t, Move(olds, news)) && Renamable(m, olds, news)
    ensures Renaming(m, olds, news).0 == Answered(t, Move(olds, news))
    ensures Spells(Renaming(m, olds, news).1, Change(t, Move(olds, news)), ops)
  {
    MoveRenamable(m, t, ops, olds, news);
    var p, name := Resolve(t, ROOT_INUM, Init(olds)), Last(olds);
    if p >= 0 {
      assert t[p] == t[p];
      if name in t[p] {
        DeletedSpells(m, t, ops, p, name);
        MovedSpells(m, Deleted(m, p, name), t, Dropped(t, p, name), ops, p, name, news);
      }
    }
  }

  lemma MovedSpells(m: FileMap, m1: FileMap, t: Tree, t1: Tree, ops: nat, p: nat, name: Name, news: seq<Name>)
    requires IsDir(m, p) && name in Names(m[p]) && name != [] && m1 == Deleted(m, p, name) && Spells(m1, t1, ops + 1)
    requires p in t && t[p] == Names(m[p]) && news != [] && Components(news) && NewPlace(t1, news)
    ensures var q := Resolve(t1, ROOT_INUM, Init(news));
      && Walkable(m1, ROOT_INUM, Init(news)) && Walk(m1, ROOT_INUM, Init(news)) == q
      && (q < 0 ==> Spells(m1, t1, ops))
      && (q >= 0 ==> q in m && Spells(Moved(m, p, name, q, Last(news)), t1[q := t1[q][Last(news) := t[p][name]]], ops))
  {
    ParentIs(m1, t1, ops, news);
    var q := Resolve(t1, ROOT_INUM, Init(news));
    if q >= 0 {
      DeletedFacts(m, p, name);
      RenamedEntry(m, p, name, Last(news));
      LinkSpells(m1, t1, ops, q, Renamed(EntryOf(m, p, name), Last(news)));
    }
  }

  // ---------- which renames lose the name ----------

  // Looking the components up passes through the entry `name` of directory p.
  predicate Through(t: Tree, cur: int, names: seq<Name>, p: nat, name: Name)
    requires Resolvable(t, cur, names)
    decreases |names|
  {
    names != [] && names[0] in t[cur] &&
    ((cur == p && names[0] == name) || Through(t, t[cur][names[0]], names[1..], p, name))
  }

  // Without an entry, the paths through it no longer resolve, and the others do as before.
  lemma {:induction false} ResolveDropped(t: Tree, cur: int, names: seq<Name>, p: nat, name: Name)
    requires Resolvable(t, cur, names) && p in t
    ensures Resolvable(Dropped(t, p, name), cur, names)
    ensures Resolve(Dropped(t, p, name), cur, names) ==
      if Through(t, cur, names, p, name) then -1 else Resolve(t, cur, names)
    decreases |names|
  {
    if names != [] && names[0] in t[cur] { ResolveDropped(t, t[cur][names[0]], names[1..], p, name); }
  }

  predicate Placed(t: Tree, olds: seq<Name>, news: seq<Name>)
  {
    olds != [] && news != [] && Components(olds) && Components(news) && ParentIn(t, olds) && ParentIn(t, news)
  }

  // The old name exists.
  predicate Named(t: Tree, olds: seq<Name>)
    requires olds != [] && Resolvable(t, ROOT_INUM, Init(olds))
  {
    var p := Resolve(t, ROOT_INUM, Init(olds)); p >= 0 && p in t && Last(olds) in t[p]
  }

  // The new parent does not resolve, or only through the old name.
  predicate Loses(t: Tree, olds: seq<Name>, news: seq<Name>)
    requires Placed(t, olds, news) && Named(t, olds)
  {
    || Resolve(t, ROOT_INUM, Init(news)) < 0
    || Through(t, ROOT_INUM, Init(news), Resolve(t, ROOT_INUM, Init(olds)), Last(olds))
  }

  // pcd_rename by the maps before the call: without an old name it fails and changes nothing, and with one it fails
  // exactly if Loses holds, the name gone, and else moves it.
  lemma RenameLoses(m: FileMap, t: Tree, ops: nat, olds: seq<Name>, news: seq<Name>)
    requires Spells(m, t, ops + 1) && Placed(t, olds, news)
    ensures Renamable(m, olds, news)
    ensures var (status, m') := Renaming(m, olds, news);
      if !Named(t, olds) then status == -ENOENT && m' == m
      else
        var p, q, name := Resolve(t, ROOT_INUM, Init(olds)), Resolve(t, ROOT_INUM, Init(news)), Last(olds);
        && IsDir(m, p) && Names(m[p]) == t[p]
        && (status == -ENOENT <==> Loses(t, olds, news))
        && (Loses(t, olds, news) ==> m' == Deleted(m, p, name) && Spells(m', Dropped(t, p, name), ops))
        && (!Loses(t, olds, news) ==> status == 0 && m' == Moved(m, p, name, q, Last(news)))
  {
    WalkIs(m, t, ops + 1, ROOT_INUM, Init(olds));
    var p, name := Resolve(t, ROOT_INUM, Init(olds)), Last(olds);
    if p >= 0 {
      assert t[p] == t[p];
      if name in t[p] {
        DeletedSpells(m, t, ops, p, name);
        ResolveDropped(t, ROOT_INUM, Init(news), p, name);
        ParentIs(Deleted(m, p, name), Dropped(t, p, name), ops, news);
      }
    }
  }

  // Moving a directory below itself always loses it.
  lemma {:induction false} BelowItself(t: Tree, cur: int, olds: seq<Name>, names: seq<Name>)
    requires olds != [] && olds <= names && Resolvable(t, cur, names)
    requires Resolvable(t, cur, Init(olds))
    requires var p := Resolve(t, cur, Init(olds)); p >= 0 && p in t && Last(olds) in t[p]
    ensures Through(t, cur, names, Resolve(t, cur, Init(olds)), Last(olds))
    decreases |olds|
  {
    assert names[0] == olds[0];
    if |olds| > 1 {
      assert Init(olds)[0] == olds[0] && Init(olds)[1..] == Init(olds[1..]);
      BelowItself(t, t[cur][olds[0]], olds[1..], names[1..]);
    }
  }

  // rename("/a", "/a/b"): the new parent resolves before the call, and the name is lost all the same.
  lemma RenameBelowItself(m: FileMap, t: Tree)
    requires t == map[ROOT_INUM := map[[97] := 5], 5 := map[]] && Spells(m, t, 1)
    ensures Resolve(t, ROOT_INUM, Init([[97], [98]])) == 5 && Renamable(m, [[97]], [[97], [98]])
    ensures var (status, m') := Renaming(m, [[97]], [[97], [98]]);
      status == -ENOENT && Names(m[ROOT_INUM]) == map[[97] := 5] && Names(m'[ROOT_INUM]) == map[]
  {
    var a: Name, b: Name := [97], [98];
    var olds, news := [a], [a, b];
    assert Init(olds) == [] && Init(news) == olds && Last(olds) == a && olds <= Init(news);
    assert Resolve(t, 5, []) == 5;
    BelowItself(t, ROOT_INUM, olds, Init(news));
    RenameLoses(m, t, 0, olds, news);
    assert t[ROOT_INUM] == map[a := 5] && Dropped(t, ROOT_INUM, a)[ROOT_INUM] == map[];
  }

  method ChangeLink(s: Device, dir: nat, e: seq<Byte>, ghost m: FileMap, ghost t: Tree, ghost ops: nat)
    returns (ghost m': FileMap)
    requires Holds(s, m) && |s.free| >= 6 && Spells(m, t, ops + 1) && Possible(t, Link(dir, e))
    modifies s.log, s`blocks, s`chain, s`free, s`own
    ensures Holds(s, m') && Spells(m', Change(t, Link(dir, e)), ops) && |s.free| >= |old(s.free)| - 6
    ensures AttributesKept(old(s.blocks), s.blocks, s.live)
  {
    assert t[dir] == t[dir];
    EntryRoomBound(|m[dir]|);
    LinkSpells(m, t, ops, dir, e);
    AddEntry(s, dir, e, m);
    m' := m[dir := m[dir] + e];
  }

  method ChangeUnlink(s: Device, dir: nat, name: Name, ghost m: FileMap, ghost t: Tree, ghost ops: nat)
    returns (status: int, ghost m': FileMap)
    requires Holds(s, m) && Spells(m, t, ops + 1) && Possible(t, Unlink(dir, name))
    modifies s.log, s`blocks, s`chain, s`free, s`own
    ensures Holds(s, m') && Spells(m', Change(t, Unlink(dir, name)), ops) && |s.free| >= |old(s.free)|
    ensures AttributesKept(old(s.blocks), s.blocks, s.live)
    ensures status == Answered(t, Unlink(dir, name))
  {
    assert t[dir] == t[dir];
    UnlinkSpells(m, t, ops, dir, name);
    ghost var k := FindFrom(Items(m[dir]), 2, name);
    var entry;
    status, entry := DeleteDirent(s, dir, name, m);
    m' := if k < Count(m[dir]) then m[dir := Put(m[dir], k, Tomb(At(m[dir], k)))] else m;
  }

  method ChangeTree(s: Device, op: DirOp, ghost m: FileMap, ghost t: Tree, ghost ops: nat)
    returns (r: int, ghost m': FileMap)
    requires Holds(s, m) && |s.free| >= 6 && Spells(m, t, ops + 1) && Possible(t, op)
    modifies s.log, s`blocks, s`chain, s`free, s`own
    ensures Holds(s, m') && Spells(m', Change(t, op), ops) && r == Answered(t, op) && |s.free| >= |old(s.free)| - 6
    ensures AttributesKept(old(s.blocks), s.blocks, s.live)
  {
    r, m' := 0, m;
    AttributesSame(s.blocks, s.live);
    match op {
      case Link(dir, e) => m' := ChangeLink(s, dir, e, m, t, ops);
      case Unlink(dir, name) => r, m' := ChangeUnlink(s, dir, name, m, t, ops);
      case Move(olds, news) =>
        MoveRenamable(m, t, ops, olds, news);
        MoveSpells(m, t, ops, olds, news);
        r, m' := Rename(s, PathOf(olds), PathOf(news), olds, news, m);
      case Find(names) =>
        WalkIs(m, t, ops + 1, ROOT_INUM, names);
        TokensOf(names);
        r := FindInode(s, PathOf(names), m);
      case Empty(dir) =>
        assert t[dir] == t[dir];
        var b := IsEmptyDir(s, dir, m);
        r := if b then 1 else 0;
    }
  }

  function ChangeAll(t: Tree, ops: seq<DirOp>): Tree
    requires AllPossible(t, ops)
  {
    if ops == [] then t else ChangeAll(Change(t, ops[0]), ops[1..])
  }

  predicate AllPossible(t: Tree, ops: seq<DirOp>)
  {
    ops == [] || (Possible(t, ops[0]) && AllPossible(Change(t, ops[0]), ops[1..]))
  }

  function AllAnswered(t: Tree, ops: seq<DirOp>): seq<int>
    requires AllPossible(t, ops)
  {
    if ops == [] then [] else [Answered(t, ops[0])] + AllAnswered(Change(t, ops[0]), ops[1..])
  }

  // Any run of such operations over any number of directories: the logs on the device go on spelling the name maps, and
  // every status, lookup of a path and test for emptiness is answered as the maps say.
  method RunTree(s: Device, ops: seq<DirOp>, ghost m: FileMap, ghost t: Tree)
    returns (answers: seq<int>, ghost m': FileMap)
    requires Holds(s, m) && Spells(m, t, |ops|) && AllPossible(t, ops) && |s.free| >= 6 * |ops|
    modifies s.log, s`blocks, s`chain, s`free, s`own
    ensures Holds(s, m') && Spells(m', ChangeAll(t, ops), 0) && answers == AllAnswered(t, ops)
    ensures AttributesKept(old(s.blocks), s.blocks, s.live)
    decreases |ops|
  {
    ghost var d := s.blocks;
    if ops == [] {
      AttributesSame(d, s.live);
      return [], m;
    }
    var r;
    r, m' := ChangeTree(s, ops[0], m, t, |ops| - 1);
    ghost var d1 := s.blocks;
    answers, m' := RunTree(s, ops[1..], m', Change(t, ops[0]));
    AttributesThen(d, d1, s.blocks, s.live);
    answers := [r] + answers;
  }
}
