// Which inode refers to which block, and from where.  Every nonzero reference of a live inode (direct entries, the
// single and double indirect blocks, and the entries of index blocks) names its own block: a data block that is not
// free and that nothing else refers to.

module Ownership {
  import opened Blocks
  import opened Store
  import opened Inodes

  const INDIR_ID_NUM := 1024
  // First block numbers of the single and double indirect regions, and the first beyond the latter.
  const FIRST_SINGLE := DIR_ID_NUM
  const FIRST_DOUBLE := DIR_ID_NUM + INDIR_ID_NUM
  const FIRST_TRIPLE := DIR_ID_NUM + INDIR_ID_NUM + INDIR_ID_NUM * INDIR_ID_NUM

  type Owners = map<nat, Owner>

  // Entry i of index block b; none if there is no such block.
  function Entry(d: Disk, b: nat, i: nat): nat
    requires i < ENTRIES
  {
    if b == 0 then 0 else W(d, b)[i]
  }

  // Place of block number num in the double indirect tree.
  function Outer(num: nat): (j: nat)
    requires FIRST_DOUBLE <= num < FIRST_TRIPLE
    ensures j < INDIR_ID_NUM
  {
    (num - FIRST_DOUBLE) / INDIR_ID_NUM
  }

  function Inner(num: nat): (i: nat)
    requires FIRST_DOUBLE <= num < FIRST_TRIPLE
    ensures i < INDIR_ID_NUM
  {
    (num - FIRST_DOUBLE) % INDIR_ID_NUM
  }

  // The block id at a reference of the inode record n, or 0.
  function IdAt(d: Disk, n: Inode, r: Ref): nat
  {
    match r
    case Single => n[SINGLE]
    case Double => n[DOUBLE]
    case Ind(j) => if j < INDIR_ID_NUM then Entry(d, n[DOUBLE], j) else 0
    case Data(num) =>
      if num < FIRST_SINGLE then n[DIRECT + num]
      else if num < FIRST_DOUBLE then Entry(d, n[SINGLE], num - FIRST_SINGLE)
      else if num < FIRST_TRIPLE then Entry(d, Entry(d, n[DOUBLE], Outer(num)), Inner(num))
      else 0
  }

  // The block id at a reference of inode inum.
  function Id(d: Disk, inum: nat, r: Ref): nat
  {
    IdAt(d, InodeAt(d, inum), r)
  }

  predicate IsIndex(r: Ref)
  {
    !r.Data?
  }

  // own maps exactly the referenced blocks of live inodes to their one reference.
  ghost predicate OwnOk(d: Disk, own: Owners, live: set<nat>)
  {
    && (forall i, r {:trigger Id(d, i, r)} :: i in live && Id(d, i, r) != 0 ==>
          Id(d, i, r) in own && own[Id(d, i, r)] == Owner(i, r))
    && (forall id {:trigger own[id]} {:trigger id in own} :: id in own ==>
          own[id].inum in live && Id(d, own[id].inum, own[id].ref) == id && InData(d, id))
  }

  // Two references of live inodes that hold the same nonzero id are the same reference.
  lemma OneReference(d: Disk, own: Owners, live: set<nat>, i: nat, r: Ref, j: nat, q: Ref)
    requires OwnOk(d, own, live) && i in live && j in live
    requires Id(d, i, r) == Id(d, j, q) != 0
    ensures i == j && r == q
  {
  }

  // ---------- changes ----------

  predicate SameRefs(n: Inode, n': Inode)
  {
    forall w :: DIRECT <= w < TRIPLE ==> n'[w] == n[w]
  }

  // An inode whose record and index blocks keep their references keeps them all.
  lemma SameIds(d: Disk, d': Disk, own: Owners, live: set<nat>, i: nat)
    requires OwnOk(d, own, live) && i in live && SameRefs(InodeAt(d, i), InodeAt(d', i))
    requires forall id :: id in own && own[id].inum == i && IsIndex(own[id].ref) ==> W(d', id) == W(d, id)
    ensures forall r :: Id(d', i, r) == Id(d, i, r)
  {
    var n := InodeAt(d, i);
    assert Id(d, i, Single) == n[SINGLE] && Id(d, i, Double) == n[DOUBLE];
    forall r
      ensures Id(d', i, r) == Id(d, i, r)
    {
      if r.Data? && FIRST_DOUBLE <= r.num < FIRST_TRIPLE {
        assert Id(d, i, Ind(Outer(r.num))) == Entry(d, n[DOUBLE], Outer(r.num));
      }
    }
  }

  // Changes outside the data region that keep the references of every live record.
  lemma KeptIds(d: Disk, d': Disk, own: Owners, live: set<nat>)
    requires OwnOk(d, own, live) && NumBlock(d') == NumBlock(d)
    requires forall i :: i in live ==> SameRefs(InodeAt(d, i), InodeAt(d', i))
    requires forall b :: b >= START_DATA_BLOCK ==> W(d', b) == W(d, b)
    ensures OwnOk(d', own, live)
    ensures forall i, r {:trigger Id(d', i, r)} :: i in live ==> Id(d', i, r) == Id(d, i, r)
  {
    assert forall id :: id in own ==> W(d', id) == W(d, id);
    forall i | i in live
      ensures forall r :: Id(d', i, r) == Id(d, i, r)
    {
      SameIds(d, d', own, live, i);
    }
  }

  // ---------- rewriting one reference ----------

  // The index block that stores reference q of record n; 0 if the record itself does.
  function CellBlock(d: Disk, n: Inode, q: Ref): nat
  {
    match q
    case Single => 0
    case Double => 0
    case Ind(_) => n[DOUBLE]
    case Data(num) =>
      if num < FIRST_SINGLE then 0
      else if num < FIRST_DOUBLE then n[SINGLE]
      else if num < FIRST_TRIPLE then Entry(d, n[DOUBLE], Outer(num))
      else 0
  }

  function CellIndex(q: Ref): (i: nat)
    ensures i < ENTRIES
  {
    match q
    case Single => SINGLE
    case Double => DOUBLE
    case Ind(j) => if j < INDIR_ID_NUM then j else 0
    case Data(num) =>
      if num < FIRST_SINGLE then DIRECT + num
      else if num < FIRST_DOUBLE then num - FIRST_SINGLE
      else if num < FIRST_TRIPLE then Inner(num)
      else 0
  }

  predicate RefOk(q: Ref)
  {
    match q
    case Ind(j) => j < INDIR_ID_NUM
    case Data(num) => num < FIRST_TRIPLE
    case _ => true
  }

  // r is stored in the index block that q points to, or below it.
  predicate Under(r: Ref, q: Ref)
  {
    match q
    case Single => r.Data? && FIRST_SINGLE <= r.num < FIRST_DOUBLE
    case Double => r.Ind? || (r.Data? && FIRST_DOUBLE <= r.num < FIRST_TRIPLE)
    case Ind(j) => r.Data? && FIRST_DOUBLE <= r.num < FIRST_TRIPLE && Outer(r.num) == j
    case Data(_) => false
  }

  // What setting reference q of inum gives up: the block it held and every block recorded under it.
  predicate Lost(o: Owner, inum: nat, q: Ref)
  {
    o.inum == inum && (o.ref == q || Under(o.ref, q))
  }

  // d' is d with reference q of inode inum set to x.  An index block that x brings in is empty.
  predicate RefSet(d: Disk, d': Disk, own: Owners, live: set<nat>, inum: nat, q: Ref, x: nat)
  {
    var n := InodeAt(d, inum);
    var b := CellBlock(d, n, q);
    && RefOk(q) && x <= UINT_MAX
    && (if q.Single? || q.Double? || (q.Data? && q.num < FIRST_SINGLE)
        then InodeAt(d', inum) == n[CellIndex(q) := x]
        else b != 0 && InodeAt(d', inum) == n && W(d', b) == W(d, b)[CellIndex(q) := x])
    && (forall i :: i in live && i != inum ==> InodeAt(d', i) == InodeAt(d, i))
    && (forall id {:trigger own[id]} :: id in own && IsIndex(own[id].ref) && id != b && !Lost(own[id], inum, q) ==>
          W(d', id) == W(d, id))
    && (IsIndex(q) && x != 0 ==> forall i :: 0 <= i < ENTRIES ==> W(d', x)[i] == 0)
  }

  // The reference to the index block that stores q.
  function Parent(q: Ref): Ref
    requires RefOk(q) && !q.Single? && !q.Double? && !(q.Data? && q.num < FIRST_SINGLE)
  {
    match q
    case Ind(_) => Double
    case Data(num) => if num < FIRST_DOUBLE then Single else Ind(Outer(num))
  }

  lemma CellOwned(d: Disk, own: Owners, live: set<nat>, inum: nat, q: Ref)
    requires OwnOk(d, own, live) && inum in live
    ensures var b := CellBlock(d, InodeAt(d, inum), q);
      b != 0 && RefOk(q) ==> b in own && own[b] == Owner(inum, Parent(q))
  {
    var n := InodeAt(d, inum);
    assert Id(d, inum, Single) == n[SINGLE] && Id(d, inum, Double) == n[DOUBLE];
    if q.Data? && FIRST_DOUBLE <= q.num < FIRST_TRIPLE {
      assert Id(d, inum, Ind(Outer(q.num))) == Entry(d, n[DOUBLE], Outer(q.num));
    }
  }

  // An index block holding r is unchanged, replaced along with q, or the one that holds q.
  lemma RefSetCell(d: Disk, d': Disk, own: Owners, live: set<nat>, inum: nat, q: Ref, x: nat, p: Ref, b: nat)
    requires OwnOk(d, own, live) && inum in live && RefSet(d, d', own, live, inum, q, x)
    requires IsIndex(p) && b == Id(d, inum, p) != 0 && p != q && !Under(p, q)
    ensures b == CellBlock(d, InodeAt(d, inum), q) ==> W(d', b) == W(d, b)[CellIndex(q) := x] && RefOk(q)
    ensures b != CellBlock(d, InodeAt(d, inum), q) ==> W(d', b) == W(d, b)
  {
    assert b in own && own[b] == Owner(inum, p);
  }

  // The record of inum changes only where q is.
  lemma RefSetTop(d: Disk, d': Disk, own: Owners, live: set<nat>, inum: nat, q: Ref, x: nat)
    requires RefSet(d, d', own, live, inum, q, x)
    ensures Id(d', inum, Single) == if q.Single? then x else Id(d, inum, Single)
    ensures Id(d', inum, Double) == if q.Double? then x else Id(d, inum, Double)
    ensures forall k :: 0 <= k < FIRST_SINGLE ==>
      Id(d', inum, Data(k)) == if q == Data(k) then x else Id(d, inum, Data(k))
  {
  }

  lemma RefSetSingle(d: Disk, d': Disk, own: Owners, live: set<nat>, inum: nat, q: Ref, x: nat, num: nat)
    requires OwnOk(d, own, live) && inum in live && RefSet(d, d', own, live, inum, q, x) && x !in own
    requires FIRST_SINGLE <= num < FIRST_DOUBLE
    ensures Id(d', inum, Data(num)) == if q == Data(num) then x else if q.Single? then 0 else Id(d, inum, Data(num))
  {
    RefSetTop(d, d', own, live, inum, q, x);
    var b := Id(d, inum, Single);
    if b != 0 && !q.Single? {
      SingleCell(d, own, live, inum, q);
      RefSetCell(d, d', own, live, inum, q, x, Single, b);
      SingleEntry(d, d', inum, q, x, num);
    } else if q.Single? {
      assert Id(d', inum, Data(num)) == Entry(d', x, num - FIRST_SINGLE);
    }
  }

  lemma SingleEntry(d: Disk, d': Disk, inum: nat, q: Ref, x: nat, num: nat)
    requires FIRST_SINGLE <= num < FIRST_DOUBLE && x <= UINT_MAX
    requires var b := Id(d, inum, Single);
      && b != 0 && Id(d', inum, Single) == b
      && W(d', b) == if q.Data? && FIRST_SINGLE <= q.num < FIRST_DOUBLE then W(d, b)[q.num - FIRST_SINGLE := x]
           else W(d, b)
    ensures Id(d', inum, Data(num)) == if q == Data(num) then x else Id(d, inum, Data(num))
  {
  }

  lemma SingleCell(d: Disk, own: Owners, live: set<nat>, inum: nat, q: Ref)
    requires OwnOk(d, own, live) && inum in live && RefOk(q) && Id(d, inum, Single) != 0
    ensures Id(d, inum, Single) == CellBlock(d, InodeAt(d, inum), q) <==>
      q.Data? && FIRST_SINGLE <= q.num < FIRST_DOUBLE
  {
    CellOwned(d, own, live, inum, q);
    assert own[Id(d, inum, Single)] == Owner(inum, Single);
  }

  lemma RefSetInd(d: Disk, d': Disk, own: Owners, live: set<nat>, inum: nat, q: Ref, x: nat, j: nat)
    requires OwnOk(d, own, live) && inum in live && RefSet(d, d', own, live, inum, q, x) && x !in own
    requires j < INDIR_ID_NUM
    ensures Id(d', inum, Ind(j)) == if q == Ind(j) then x else if q.Double? then 0 else Id(d, inum, Ind(j))
  {
    CellOwned(d, own, live, inum, q);
    RefSetTop(d, d', own, live, inum, q, x);
    var b := Id(d, inum, Double);
    if b != 0 && !q.Double? {
      RefSetCell(d, d', own, live, inum, q, x, Double, b);
      assert own[b] == Owner(inum, Double);
    }
  }

  lemma RefSetDouble(d: Disk, d': Disk, own: Owners, live: set<nat>, inum: nat, q: Ref, x: nat, num: nat)
    requires OwnOk(d, own, live) && inum in live && RefSet(d, d', own, live, inum, q, x) && x !in own
    requires FIRST_DOUBLE <= num < FIRST_TRIPLE
    ensures Id(d', inum, Data(num)) == if q == Data(num) then x else if Under(Data(num), q) then 0
      else Id(d, inum, Data(num))
  {
    var j := Outer(num);
    CellOwned(d, own, live, inum, q);
    RefSetInd(d, d', own, live, inum, q, x, j);
    var b := Id(d, inum, Ind(j));
    assert num - FIRST_DOUBLE == INDIR_ID_NUM * j + Inner(num);
    if b != 0 && !Under(Data(num), q) {
      RefSetCell(d, d', own, live, inum, q, x, Ind(j), b);
      assert own[b] == Owner(inum, Ind(j));
      if q.Data? && FIRST_DOUBLE <= q.num < FIRST_TRIPLE {
        assert q.num - FIRST_DOUBLE == INDIR_ID_NUM * Outer(q.num) + Inner(q.num);
      }
    }
  }

  // Only q and what lies under it change.
  lemma RefSetIds(d: Disk, d': Disk, own: Owners, live: set<nat>, inum: nat, q: Ref, x: nat, r: Ref)
    requires OwnOk(d, own, live) && inum in live && RefSet(d, d', own, live, inum, q, x) && x !in own
    ensures Id(d', inum, r) == if r == q then x else if Under(r, q) then 0 else Id(d, inum, r)
  {
    RefSetTop(d, d', own, live, inum, q, x);
    match r
    case Ind(j) => if j < INDIR_ID_NUM { RefSetInd(d, d', own, live, inum, q, x, j); }
    case Data(num) =>
      if FIRST_SINGLE <= num < FIRST_DOUBLE { RefSetSingle(d, d', own, live, inum, q, x, num); }
      else if FIRST_DOUBLE <= num < FIRST_TRIPLE { RefSetDouble(d, d', own, live, inum, q, x, num); }
    case _ =>
  }

  function News(inum: nat, q: Ref, x: nat): Owners
  {
    if x == 0 then map[] else map[x := Owner(inum, q)]
  }

  // Ownership after setting reference q of inum to x.
  function OwnSet(own: Owners, inum: nat, q: Ref, x: nat): Owners
  {
    (map id | id in own && !Lost(own[id], inum, q) :: own[id])
    + News(inum, q, x)
  }

  lemma RefSetAllIds(d: Disk, d': Disk, own: Owners, live: set<nat>, inum: nat, q: Ref, x: nat)
    requires OwnOk(d, own, live) && inum in live && RefSet(d, d', own, live, inum, q, x) && x !in own
    ensures forall i, r {:trigger Id(d', i, r)} :: i in live ==>
      Id(d', i, r) == if i != inum then Id(d, i, r) else if r == q then x else if Under(r, q) then 0 else Id(d, i, r)
  {
    CellOwned(d, own, live, inum, q);
    forall i, r | i in live
      ensures Id(d', i, r) ==
        if i != inum then Id(d, i, r) else if r == q then x else if Under(r, q) then 0 else Id(d, i, r)
    {
      if i == inum { RefSetIds(d, d', own, live, inum, q, x, r); } else { SameIds(d, d', own, live, i); }
    }
  }

  // What is recorded in OwnSet.
  lemma OwnSetAt(own: Owners, inum: nat, q: Ref, x: nat, id: nat)
    requires x !in own
    ensures var own' := OwnSet(own, inum, q, x);
      && (id in own' <==> (id in own && !Lost(own[id], inum, q)) || (id == x && x != 0))
      && (id in own' ==> own'[id] == if id == x then Owner(inum, q) else own[id])
  {
  }

  lemma RefSetOwned(d: Disk, d': Disk, own: Owners, live: set<nat>, inum: nat, q: Ref, x: nat, i: nat, r: Ref)
    requires OwnOk(d, own, live) && inum in live && i in live && x !in own && !Under(q, q) && Id(d', i, r) != 0
    requires Id(d', i, r) == if i != inum then Id(d, i, r) else if r == q then x else if Under(r, q) then 0
      else Id(d, i, r)
    ensures var own' := OwnSet(own, inum, q, x); Id(d', i, r) in own' && own'[Id(d', i, r)] == Owner(i, r)
  {
    var id := Id(d', i, r);
    OwnSetAt(own, inum, q, x, id);
    if i != inum || r != q { assert id == Id(d, i, r) && own[id] == Owner(i, r); }
  }

  lemma RefSetOwner(d: Disk, d': Disk, own: Owners, live: set<nat>, inum: nat, q: Ref, x: nat, id: nat)
    requires OwnOk(d, own, live) && inum in live && x !in own && (x != 0 ==> InData(d, x))
    requires id in OwnSet(own, inum, q, x)
    requires forall i, r {:trigger Id(d', i, r)} :: i in live ==>
      Id(d', i, r) == if i != inum then Id(d, i, r) else if r == q then x else if Under(r, q) then 0 else Id(d, i, r)
    ensures var o := OwnSet(own, inum, q, x)[id]; o.inum in live && Id(d', o.inum, o.ref) == id && InData(d, id)
  {
    OwnSetAt(own, inum, q, x, id);
    if id != x { assert Id(d, own[id].inum, own[id].ref) == id; }
  }

  lemma RefSetOwn(d: Disk, d': Disk, own: Owners, live: set<nat>, inum: nat, q: Ref, x: nat)
    requires OwnOk(d, own, live) && inum in live && NumBlock(d') == NumBlock(d) && x !in own
    requires x != 0 ==> InData(d, x)
    requires forall i, r {:trigger Id(d', i, r)} :: i in live ==>
      Id(d', i, r) == if i != inum then Id(d, i, r) else if r == q then x else if Under(r, q) then 0 else Id(d, i, r)
    requires !Under(q, q)
    ensures OwnOk(d', OwnSet(own, inum, q, x), live)
  {
    var own' := OwnSet(own, inum, q, x);
    forall i, r | i in live && Id(d', i, r) != 0
      ensures Id(d', i, r) in own' && own'[Id(d', i, r)] == Owner(i, r)
    {
      RefSetOwned(d, d', own, live, inum, q, x, i, r);
    }
    forall id | id in own'
      ensures own'[id].inum in live && Id(d', own'[id].inum, own'[id].ref) == id && InData(d', id)
    {
      RefSetOwner(d, d', own, live, inum, q, x, id);
    }
  }
}
