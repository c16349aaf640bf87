// The device side of Billing: which blocks a change takes from the free list, and whether it accounts for all of them.

module Ledger {
  import opened Blocks
  import opened Store
  import opened Inodes
  import opened Ownership
  import opened BlockMap
  import opened Extend
  import opened Growth
  import opened Billing

  // Of the blocks `total`, owned or free before, the inode's books say what st says.
  ghost predicate Booked(total: set<nat>, d: Disk, free: set<nat>, own: Owners, inum: nat, st: Books)
  {
    match st
    case Exact => own.Keys + free == total && Shape(d, inum, BlocksOf(InodeAt(d, inum)))
    case Over => own.Keys + free == total && Shape(d, inum, BlocksOf(InodeAt(d, inum)) + 1)
    case Lost => own.Keys + free != total
  }

  // The change takes and does to the books of inum what the bill says.
  ghost predicate CountedAll(d0: Disk, free0: set<nat>, own0: Owners, d: Disk, free: set<nat>, own: Owners,
                             inum: nat, b: Bill)
  {
    var n, total := BlocksOf(InodeAt(d0, inum)), own0.Keys + free0;
    && free <= free0 && |free| + b.taken == |free0| && own.Keys + free <= total
    && (Shape(d0, inum, n) ==> Booked(total, d, free, own, inum, b.exact))
    && (Shape(d0, inum, n + 1) ==> Booked(total, d, free, own, inum, b.over))
  }

  // Sealed like Linked.
  ghost predicate Counted(d0: Disk, free0: set<nat>, own0: Owners, d: Disk, free: set<nat>, own: Owners,
                          inum: nat, b: Bill)
  {
    forall w {:trigger Opened(w)} :: Opened(w) ==> CountedAll(d0, free0, own0, d, free, own, inum, b)
  }

  // The references of inum are the same.  Sealed like Linked.
  ghost predicate SameMap(d: Disk, d': Disk, inum: nat)
  {
    forall w {:trigger Opened(w)} :: Opened(w) ==> forall r {:trigger Id(d', inum, r)} ::
      Id(d', inum, r) == Id(d, inum, r)
  }

  lemma SameMapThen(d: Disk, d1: Disk, d2: Disk, inum: nat)
    requires SameMap(d, d1, inum) && SameMap(d1, d2, inum)
    ensures SameMap(d, d2, inum)
  {
    assert Opened(true);
    forall r
      ensures Id(d2, inum, r) == Id(d, inum, r)
    {
      assert Id(d1, inum, r) == Id(d, inum, r);
    }
  }

  lemma SameShape(d: Disk, d': Disk, inum: nat, n: nat)
    requires SameMap(d, d', inum) && Shape(d, inum, n)
    ensures Shape(d', inum, n)
  {
    assert Opened(true);
    forall r
      ensures Id(d', inum, r) != 0 <==> Within(r, n)
    {
      assert Id(d', inum, r) == Id(d, inum, r);
    }
  }

  // Nothing taken, and the references and the number of blocks the same.
  lemma CountedSame(d: Disk, d': Disk, free: set<nat>, own: Owners, inum: nat)
    requires SameMap(d, d', inum) && BlocksOf(InodeAt(d', inum)) == BlocksOf(InodeAt(d, inum))
    ensures Counted(d, free, own, d', free, own, inum, NO_BILL)
  {
    var n := BlocksOf(InodeAt(d, inum));
    if Shape(d, inum, n) { SameShape(d, d', inum, n); }
    if Shape(d, inum, n + 1) { SameShape(d, d', inum, n + 1); }
  }

  lemma CountedNothing(d: Disk, free: set<nat>, own: Owners, inum: nat)
    ensures Counted(d, free, own, d, free, own, inum, NO_BILL)
  {
  }

  // One bill after the other.
  lemma CountedThen(d0: Disk, free0: set<nat>, own0: Owners, d1: Disk, free1: set<nat>, own1: Owners,
                    d2: Disk, free2: set<nat>, own2: Owners, inum: nat, b: Bill, c: Bill, bc: Bill)
    requires IsThen(b, c, bc) && Counted(d0, free0, own0, d1, free1, own1, inum, b)
    requires Counted(d1, free1, own1, d2, free2, own2, inum, c)
    ensures Counted(d0, free0, own0, d2, free2, own2, inum, bc)
  {
    assert bc == Then(b, c) by { assert Settled(true); }
    assert Opened(true);
    var n := BlocksOf(InodeAt(d0, inum));
    if Shape(d0, inum, n) { BookedThen(own0.Keys + free0, d1, free1, own1, d2, free2, own2, inum, b.exact, c); }
    if Shape(d0, inum, n + 1) { BookedThen(own0.Keys + free0, d1, free1, own1, d2, free2, own2, inum, b.over, c); }
  }

  lemma BookedThen(total: set<nat>, d1: Disk, free1: set<nat>, own1: Owners, d2: Disk, free2: set<nat>,
                   own2: Owners, inum: nat, st: Books, c: Bill)
    requires own1.Keys + free1 <= total && Booked(total, d1, free1, own1, inum, st)
    requires CountedAll(d1, free1, own1, d2, free2, own2, inum, c)
    ensures Booked(total, d2, free2, own2, inum, After(c, st))
  {
  }

  // add_block, and a size that grows by w bytes.
  lemma TurnCounted(d: Disk, free: set<nat>, own: Owners, d1: Disk, free1: set<nat>, own1: Owners,
                    d2: Disk, live: set<nat>, inum: nat, x: nat, cur: nat, w: nat)
    requires FsOk(d, free, own, live) && inum in live && BlocksFor(cur) == BlocksOf(InodeAt(d, inum))
    requires Added(d, free, own, d1, free1, own1, live, inum, x) && SameMap(d1, d2, inum)
    requires BlocksOf(InodeAt(d2, inum)) == BlocksFor(cur + w) && 0 < w <= DB_SIZE
    ensures Counted(d, free, own, d2, free1, own1, inum, TurnBill(cur, w))
  {
    var n := BlocksFor(cur);
    if Shape(d, inum, n) { TurnBooked(d, free, own, d1, free1, own1, d2, live, inum, n, x, cur, w); }
    if Shape(d, inum, n + 1) { Stranded(d, free, own, d1, free1, own1, live, inum, n, x); }
  }

  lemma TurnBooked(d: Disk, free: set<nat>, own: Owners, d1: Disk, free1: set<nat>, own1: Owners,
                   d2: Disk, live: set<nat>, inum: nat, n: nat, x: nat, cur: nat, w: nat)
    requires n == BlocksOf(InodeAt(d, inum)) == BlocksFor(cur) && Shape(d, inum, n)
    requires Added(d, free, own, d1, free1, own1, live, inum, x) && SameMap(d1, d2, inum)
    requires BlocksOf(InodeAt(d2, inum)) == BlocksFor(cur + w) && 0 < w <= DB_SIZE
    ensures Booked(own.Keys + free, d2, free1, own1, inum, TurnBill(cur, w).exact)
  {
    TurnBlocks(cur, w);
    SameShape(d1, d2, inum, n + 1);
  }

  lemma TurnBlocks(cur: nat, w: nat)
    requires 0 < w <= DB_SIZE
    ensures BlocksFor(cur) <= BlocksFor(cur + w) <= BlocksFor(cur) + 1
  {
  }

  // The block that was mapped too early is written over: it is neither owned nor free.
  lemma Stranded(d: Disk, free: set<nat>, own: Owners, d1: Disk, free1: set<nat>, own1: Owners,
                 live: set<nat>, inum: nat, n: nat, x: nat)
    requires FsOk(d, free, own, live) && inum in live && n == BlocksOf(InodeAt(d, inum)) && Id(d, inum, Data(n)) != 0
    requires Added(d, free, own, d1, free1, own1, live, inum, x)
    ensures var y := Id(d, inum, Data(n)); y in own && y !in own1 && y !in free1
    ensures own1.Keys + free1 != own.Keys + free
  {
    OpenOwn(d, free, own, live);
    var y := Id(d, inum, Data(n));
    assert y in own.Keys + free && y !in own1.Keys + free1;
  }

  // From an exact shape: every block is accounted for afterwards, and the shape exact again, exactly if the bill says
  // so.
  lemma CountedExactly(d0: Disk, free0: set<nat>, own0: Owners, d: Disk, free: set<nat>, own: Owners,
                       inum: nat, b: Bill)
    requires Counted(d0, free0, own0, d, free, own, inum, b) && Shape(d0, inum, BlocksOf(InodeAt(d0, inum)))
    ensures Shape(d, inum, BlocksOf(InodeAt(d, inum))) && own.Keys + free == own0.Keys + free0 <==> b.exact == Exact
  {
    assert Opened(true);
    var n := BlocksOf(InodeAt(d, inum));
    if b.exact == Over {
      assert Id(d, inum, Data(n)) != 0 <==> Within(Data(n), n + 1);
    }
  }

  lemma CountedFree(d0: Disk, free0: set<nat>, own0: Owners, d: Disk, free: set<nat>, own: Owners,
                    inum: nat, b: Bill)
    requires Counted(d0, free0, own0, d, free, own, inum, b)
    ensures free <= free0 && |free| + b.taken == |free0| && own.Keys + free <= own0.Keys + free0
  {
    assert Opened(true);
  }
}
