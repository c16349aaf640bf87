// What write_file and truncate_file take from the free list, and whether a block gets lost on the way (inode.c).
//
// write_file calls add_block for every chunk that ends beyond the size, also when the chunk ends inside the last block.
// Then one number too many is mapped, and the next add_block writes over its reference: that block is neither owned nor
// free any more.

module Billing {
  import opened Blocks
  import opened BlockMap
  import opened Growth

  // Where an inode's blocks stand: its size accounts for all of them, one number too many is mapped, or a block has
  // been lost.
  datatype Books = Exact | Over | Lost

  // Blocks taken, and how an inode that starts out exact, or with one number too many, ends up.
  datatype Bill = Bill(taken: nat, exact: Books, over: Books)

  const NO_BILL := Bill(0, Exact, Over)

  function After(b: Bill, st: Books): Books
  {
    match st
    case Exact => b.exact
    case Over => b.over
    case Lost => Lost
  }

  function Then(b: Bill, c: Bill): Bill
  {
    Bill(b.taken + c.taken, After(c, b.exact), After(c, b.over))
  }

  lemma ThenAssociative(a: Bill, b: Bill, c: Bill)
    ensures Then(Then(a, b), c) == Then(a, Then(b, c))
  {
  }

  // A turn that adds a block and grows the size from cur by w, at most a block.
  function TurnBill(cur: nat, w: nat): Bill
  {
    Bill(Needed(BlocksFor(cur)), if BlocksFor(cur + w) == BlocksFor(cur) then Over else Exact, Lost)
  }

  // The bytes of the chunk at pos, with `rest` bytes to go.
  function ChunkLength(pos: nat, rest: nat): (w: nat)
    ensures w <= rest && (rest > 0 ==> w > 0) && w <= DB_SIZE - pos % DB_SIZE
  {
    if rest >= DB_SIZE - pos % DB_SIZE then DB_SIZE - pos % DB_SIZE else rest
  }

  // The loop of write_file from pos on, with `rest` bytes to go and the size at cur.
  function LoopBill(cur: nat, pos: nat, rest: nat): Bill
    decreases rest
  {
    if rest == 0 then NO_BILL
    else
      var w := ChunkLength(pos, rest);
      if pos + w > cur then Then(TurnBill(cur, w), LoopBill(cur + w, pos + w, rest - w))
      else LoopBill(cur, pos + w, rest - w)
  }

  // The loop of truncate_file that writes `rest` zeroes at the end, a block at a time.
  function ZeroBill(size: nat, rest: nat): Bill
    decreases rest
  {
    if rest == 0 then NO_BILL
    else
      var n := if rest >= DB_SIZE then DB_SIZE else rest;
      Then(LoopBill(size, size, n), ZeroBill(size + n, rest - n))
  }

  // write_file as a whole.
  function WriteBill(inodeSize: nat, offset: nat, size: nat): Bill
  {
    if offset > inodeSize then Then(ZeroBill(inodeSize, offset - inodeSize), LoopBill(offset, offset, size))
    else LoopBill(inodeSize, offset, size)
  }

  // ---------- closed forms ----------

  // Blocks of a write at a block boundary.
  function Pages(rest: nat): nat
    requires rest > 0
  {
    (rest - 1) / DB_SIZE + 1
  }

  // Bytes in the last of them.
  function LastLength(rest: nat): nat
    requires rest > 0
  {
    (rest - 1) % DB_SIZE + 1
  }

  // Turns that extend a file whose size is `over` bytes ahead of a block boundary, from there on: all but a last one
  // that fits in what the size is ahead.
  function Extending(over: nat, rest: nat): nat
    requires rest > 0
  {
    Pages(rest) - if LastLength(rest) <= over then 1 else 0
  }

  // From a block boundary.
  function AlignedBill(over: nat, first: nat, rest: nat): Bill
    requires rest > 0
  {
    var k := Extending(over, rest);
    CostGrows(first, first + k);
    Bill(Cost(first + k) - Cost(first),
         if over == 0 || LastLength(rest) <= over || over + LastLength(rest) > DB_SIZE then Exact else Over,
         if k == 0 then Over else Lost)
  }

  lemma BlocksAhead(j: nat, over: nat)
    requires over <= DB_SIZE
    ensures BlocksFor(DB_SIZE * j + over) == j + if over > 0 then 1 else 0
  {
    if over == DB_SIZE { assert DB_SIZE * j + over == DB_SIZE * (j + 1); }
  }

  lemma PagesStep(rest: nat)
    requires rest > DB_SIZE
    ensures Pages(rest) == Pages(rest - DB_SIZE) + 1 && LastLength(rest) == LastLength(rest - DB_SIZE)
  {
  }

  // pos is a block boundary, the size is `over` bytes ahead of it, and `first` is the next number to be mapped.
  predicate Ahead(cur: nat, pos: nat, j: nat, over: nat, first: nat)
  {
    pos == DB_SIZE * j && cur == pos + over && over < DB_SIZE && first == j + if over > 0 then 1 else 0
  }

  lemma AlignedTurn(cur: nat, pos: nat, j: nat, over: nat, first: nat, w: nat)
    requires Ahead(cur, pos, j, over, first) && over < w <= DB_SIZE
    ensures TurnBill(cur, w)
      == Bill(Cost(first + 1) - Cost(first), if over == 0 || over + w > DB_SIZE then Exact else Over, Lost)
  {
    BlocksAhead(j, over);
    CostStep(first);
    if over + w <= DB_SIZE { BlocksAhead(j, over + w); } else { BlocksAhead(j + 1, over + w - DB_SIZE); }
  }

  lemma AtBoundary(j: nat, rest: nat)
    ensures ChunkLength(DB_SIZE * j, rest) == if rest >= DB_SIZE then DB_SIZE else rest
  {
  }

  // The key of the sealed predicates on bills.
  ghost predicate Settled(w: bool)
  {
    true
  }

  // Then and ChunkLength, sealed by Settled.
  ghost predicate IsThen(b: Bill, c: Bill, d: Bill)
  {
    forall w {:trigger Settled(w)} :: Settled(w) ==> d == Then(b, c)
  }

  ghost predicate IsChunk(pos: nat, rest: nat, w: nat)
  {
    w <= rest && forall v {:trigger Settled(v)} :: Settled(v) ==> w == ChunkLength(pos, rest)
  }

  // b, then t, then c.
  lemma ThenNext(b: Bill, c: Bill, goal: Bill, t: Bill, c': Bill, b': Bill)
    requires IsThen(b, c, goal) && IsThen(t, c', c) && IsThen(b, t, b')
    ensures IsThen(b', c', goal)
  {
    assert Settled(true);
    ThenAssociative(b, t, c');
  }

  lemma ThenNothing(b: Bill, goal: Bill)
    requires IsThen(b, NO_BILL, goal)
    ensures b == goal
  {
    assert Settled(true);
  }

  // LoopBill, sealed by Settled.
  ghost predicate LoopIs(cur: nat, pos: nat, rest: nat, b: Bill)
  {
    forall w {:trigger Settled(w)} :: Settled(w) ==> LoopBill(cur, pos, rest) == b
  }

  lemma LoopNext(cur: nat, pos: nat, rest: nat, w: nat, b: Bill)
    requires rest > 0 && w == ChunkLength(pos, rest)
    requires LoopIs(if pos + w > cur then cur + w else cur, pos + w, rest - w, b)
    ensures LoopIs(cur, pos, rest, if pos + w > cur then Then(TurnBill(cur, w), b) else b)
  {
    assert Settled(true);
  }

  // What is left after a turn.
  lemma LoopSplit(cur: nat, pos: nat, rest: nat, w: nat, b: Bill, cur': nat, pos': nat, rest': nat) returns (c: Bill)
    requires LoopIs(cur, pos, rest, b) && rest > 0 && w == ChunkLength(pos, rest)
    requires cur' == (if pos + w > cur then cur + w else cur) && pos' == pos + w && rest' == rest - w
    ensures LoopIs(cur', pos', rest', c) && b == if pos + w > cur then Then(TurnBill(cur, w), c) else c
  {
    assert Settled(true);
    c := LoopBill(cur', pos', rest');
  }

  lemma LoopOver(cur: nat, pos: nat, b: Bill)
    requires LoopIs(cur, pos, 0, b)
    ensures b == NO_BILL
  {
    assert Settled(true);
  }

  lemma LoopEnd(cur: nat, pos: nat)
    ensures LoopIs(cur, pos, 0, NO_BILL)
  {
  }

  // The last turn.
  lemma AlignedLast(cur: nat, pos: nat, j: nat, over: nat, first: nat, rest: nat)
    requires Ahead(cur, pos, j, over, first) && 0 < rest <= DB_SIZE
    ensures LoopIs(cur, pos, rest, AlignedBill(over, first, rest))
  {
    AtBoundary(j, rest);
    assert Pages(rest) == 1 && LastLength(rest) == rest;
    assert Extending(over, rest) == if rest <= over then 0 else 1;
    LoopEnd(if rest > over then cur + rest else cur, pos + rest);
    LoopNext(cur, pos, rest, rest, NO_BILL);
    if rest > over { AlignedTurn(cur, pos, j, over, first, rest); }
  }

  lemma AlignedStep(over: nat, first: nat, rest: nat)
    requires over < DB_SIZE && rest > DB_SIZE
    ensures Then(Bill(Cost(first + 1) - Cost(first), Exact, Lost), AlignedBill(over, first + 1, rest - DB_SIZE))
            == AlignedBill(over, first, rest)
  {
    PagesStep(rest);
    CostGrows(first, first + 1);
  }

  lemma AlignedFirst(cur: nat, pos: nat, j: nat, over: nat, first: nat, rest: nat)
    requires Ahead(cur, pos, j, over, first) && rest > DB_SIZE
    requires LoopIs(cur + DB_SIZE, pos + DB_SIZE, rest - DB_SIZE, AlignedBill(over, first + 1, rest - DB_SIZE))
    ensures LoopIs(cur, pos, rest, AlignedBill(over, first, rest))
  {
    AtBoundary(j, rest);
    AlignedTurn(cur, pos, j, over, first, DB_SIZE);
    LoopNext(cur, pos, rest, DB_SIZE, AlignedBill(over, first + 1, rest - DB_SIZE));
    AlignedStep(over, first, rest);
  }

  lemma {:induction false} AlignedIs(cur: nat, pos: nat, j: nat, over: nat, first: nat, rest: nat)
    requires Ahead(cur, pos, j, over, first) && rest > 0
    ensures LoopIs(cur, pos, rest, AlignedBill(over, first, rest))
    decreases rest
  {
    if rest <= DB_SIZE {
      AlignedLast(cur, pos, j, over, first, rest);
    } else {
      assert DB_SIZE * (j + 1) == DB_SIZE * j + DB_SIZE;
      AlignedIs(cur + DB_SIZE, pos + DB_SIZE, j + 1, over, first + 1, rest - DB_SIZE);
      AlignedFirst(cur, pos, j, over, first, rest);
    }
  }

  // ---------- a write from inside the file or from its end ----------

  // Where the first extending chunk starts, when there is one.
  function FirstBeyond(inodeSize: nat, offset: nat): nat
  {
    var start := inodeSize / DB_SIZE * DB_SIZE;
    if offset > start then offset else start
  }

  // Where the last chunk starts.
  function LastChunk(offset: nat, size: nat): nat
    requires size > 0
  {
    var start := (offset + size - 1) / DB_SIZE * DB_SIZE;
    if offset > start then offset else start
  }

  // The chunks before the first extending one take nothing.
  lemma {:induction false} SkipInside(inodeSize: nat, offset: nat, size: nat, e: nat, b: Bill)
    requires offset <= inodeSize < offset + size && e == FirstBeyond(inodeSize, offset)
    requires LoopIs(inodeSize, e, offset + size - e, b)
    ensures LoopIs(inodeSize, offset, size, b)
    decreases size
  {
    var w := ChunkLength(offset, size);
    SkipOne(inodeSize, offset, size, w);
    if e != offset {
      SkipInside(inodeSize, offset + w, size - w, e, b);
      LoopNext(inodeSize, offset, size, w, b);
    }
  }

  lemma SkipOne(inodeSize: nat, offset: nat, size: nat, w: nat)
    requires offset <= inodeSize < offset + size && w == ChunkLength(offset, size)
    ensures var e := FirstBeyond(inodeSize, offset);
      e != offset ==> offset + w <= e <= inodeSize && FirstBeyond(inodeSize, offset + w) == e
  {
  }

  // Bytes in the last chunk.
  function LastBytes(offset: nat, size: nat): nat
    requires size > 0
  {
    offset + size - LastChunk(offset, size)
  }

  // Extending turns of a write that ends beyond the size: those from the first extending chunk on, without a last chunk
  // that fits in what the size has got ahead.
  function Turns(inodeSize: nat, offset: nat, size: nat): nat
    requires offset <= inodeSize < offset + size
  {
    var e := FirstBeyond(inodeSize, offset);
    var last := (offset + size - 1) / DB_SIZE;
    last - e / DB_SIZE + if LastBytes(offset, size) <= inodeSize - e then 0 else 1
  }

  // Its bill.  An append to an unaligned file (the first case) maps the same number twice if it leaves the last block.
  function BeyondBill(inodeSize: nat, offset: nat, size: nat): Bill
    requires offset <= inodeSize < offset + size
  {
    var n, k, end := BlocksFor(inodeSize), Turns(inodeSize, offset, size), offset + size;
    var over := inodeSize - FirstBeyond(inodeSize, offset);
    CostGrows(n, n + k);
    CostGrows(n, n + k - 1);
    if offset == inodeSize && inodeSize % DB_SIZE != 0 then
      Bill(Needed(n) + Cost(n + k - 1) - Cost(n), if k > 1 then Lost else Over, Lost)
    else
      Bill(Cost(n + k) - Cost(n),
           if inodeSize % DB_SIZE == 0 || LastBytes(offset, size) <= over
             || end + over > DB_SIZE * ((end - 1) / DB_SIZE + 1)
           then Exact else Over,
           Lost)
  }

  lemma FirstAligned(inodeSize: nat, offset: nat, size: nat, e: nat, j: nat, over: nat)
    requires offset <= inodeSize < offset + size && e == FirstBeyond(inodeSize, offset) == DB_SIZE * j
    requires over == inodeSize - e
    ensures over < DB_SIZE && BlocksFor(inodeSize) == j + if over > 0 then 1 else 0
    ensures var rest := offset + size - e;
      LastLength(rest) == LastBytes(offset, size) && Extending(over, rest) == Turns(inodeSize, offset, size) > 0
    ensures AlignedBill(over, BlocksFor(inodeSize), offset + size - e) == BeyondBill(inodeSize, offset, size)
  {
    BlocksAhead(j, over);
    var rest := offset + size - e;
    assert offset + size - 1 == DB_SIZE * (j + (rest - 1) / DB_SIZE) + (rest - 1) % DB_SIZE;
    assert (offset + size - 1) / DB_SIZE == j + (rest - 1) / DB_SIZE;
  }

  // The first extending chunk starts inside a block.
  predicate Middle(inodeSize: nat, offset: nat, size: nat, j: nat, a: nat, over: nat)
  {
    && 0 < a && offset == DB_SIZE * j + a == FirstBeyond(inodeSize, offset) && offset <= inodeSize < offset + size
    && over == inodeSize - offset && a + over < DB_SIZE
  }

  lemma MiddleStart(inodeSize: nat, offset: nat, size: nat)
    requires offset <= inodeSize < offset + size && FirstBeyond(inodeSize, offset) % DB_SIZE != 0
    ensures Middle(inodeSize, offset, size, offset / DB_SIZE, offset % DB_SIZE, inodeSize - offset)
  {
    var j := inodeSize / DB_SIZE;
    assert (j * DB_SIZE) % DB_SIZE == 0;
    assert offset / DB_SIZE == j;
  }

  lemma MiddleLength(inodeSize: nat, offset: nat, size: nat, j: nat, a: nat, over: nat)
    requires Middle(inodeSize, offset, size, j, a, over)
    ensures ChunkLength(offset, size) == if size >= DB_SIZE - a then DB_SIZE - a else size
    ensures inodeSize % DB_SIZE != 0
  {
    assert inodeSize == DB_SIZE * j + (a + over);
  }

  // Its turn.
  lemma MiddleTurn(inodeSize: nat, offset: nat, size: nat, j: nat, a: nat, over: nat, w: nat)
    requires Middle(inodeSize, offset, size, j, a, over) && w <= DB_SIZE - a
    ensures BlocksFor(inodeSize) == j + 1
    ensures TurnBill(inodeSize, w)
      == Bill(Cost(j + 2) - Cost(j + 1), if a + over + w <= DB_SIZE then Over else Exact, Lost)
  {
    BlocksAhead(j, a + over);
    CostStep(j + 1);
    if a + over + w <= DB_SIZE { BlocksAhead(j, a + over + w); } else { BlocksAhead(j + 1, a + over + w - DB_SIZE); }
  }

  // The last chunk is the same one or a later one.
  lemma MiddleLast(inodeSize: nat, offset: nat, size: nat, j: nat, a: nat, over: nat)
    requires Middle(inodeSize, offset, size, j, a, over)
    ensures size <= DB_SIZE - a ==> LastBytes(offset, size) == size && Turns(inodeSize, offset, size) == 1
    ensures var rest := size - (DB_SIZE - a);
      rest > 0 ==>
        LastBytes(offset, size) == LastLength(rest) && Turns(inodeSize, offset, size) == 1 + Extending(over, rest)
    ensures (offset + size - 1) / DB_SIZE + 1 == j + 1 + if size <= DB_SIZE - a then 0 else Pages(size - (DB_SIZE - a))
  {
    var rest := size - (DB_SIZE - a);
    if rest > 0 {
      assert offset + size - 1 == DB_SIZE * (j + 1 + (rest - 1) / DB_SIZE) + (rest - 1) % DB_SIZE;
    }
    assert (offset + size - 1) / DB_SIZE == if rest <= 0 then j else j + 1 + (rest - 1) / DB_SIZE;
    assert offset / DB_SIZE == j;
  }

  lemma MiddleOnly(inodeSize: nat, offset: nat, size: nat, j: nat, a: nat, over: nat)
    requires Middle(inodeSize, offset, size, j, a, over) && size <= DB_SIZE - a
    ensures TurnBill(inodeSize, size) == BeyondBill(inodeSize, offset, size)
  {
    MiddleTurn(inodeSize, offset, size, j, a, over, size);
    MiddleLast(inodeSize, offset, size, j, a, over);
    MiddleLength(inodeSize, offset, size, j, a, over);
    CostStep(j + 1);
  }

  // Beyond the block, what matters is how far the last chunk gets in its own.
  lemma MiddleEnd(inodeSize: nat, offset: nat, size: nat, j: nat, a: nat, over: nat, rest: nat)
    requires Middle(inodeSize, offset, size, j, a, over) && rest == size - (DB_SIZE - a) > 0
    ensures offset + size + over > DB_SIZE * ((offset + size - 1) / DB_SIZE + 1) <==> over + LastLength(rest) > DB_SIZE
  {
    MiddleLast(inodeSize, offset, size, j, a, over);
    assert DB_SIZE * ((offset + size - 1) / DB_SIZE + 1) == DB_SIZE * (j + 1) + DB_SIZE * Pages(rest);
    assert offset + size == DB_SIZE * (j + 1) + rest;
  }

  lemma MiddleAside(inodeSize: nat, offset: nat, size: nat, j: nat, a: nat, rest: nat)
    requires Middle(inodeSize, offset, size, j, a, 0) && rest == size - (DB_SIZE - a) > 0
    ensures Then(TurnBill(inodeSize, DB_SIZE - a), AlignedBill(0, j + 1, rest)) == BeyondBill(inodeSize, offset, size)
  {
    MiddleTurn(inodeSize, offset, size, j, a, 0, DB_SIZE - a);
    MiddleLast(inodeSize, offset, size, j, a, 0);
    MiddleLength(inodeSize, offset, size, j, a, 0);
    CostStep(j + 1);
  }

  // The closed form, when the size is ahead of the offset.
  lemma MiddleBill(inodeSize: nat, offset: nat, size: nat, j: nat, a: nat, over: nat, rest: nat, k: nat)
    requires Middle(inodeSize, offset, size, j, a, over) && rest == size - (DB_SIZE - a) > 0 && over > 0
    requires k == j + 2 + Extending(over, rest)
    ensures Cost(k) >= Cost(j + 1)
    ensures BeyondBill(inodeSize, offset, size)
      == Bill(Cost(k) - Cost(j + 1), if LastLength(rest) <= over || over + LastLength(rest) > DB_SIZE then Exact
        else Over, Lost)
  {
    var l := LastLength(rest);
    assert BlocksFor(inodeSize) == j + 1 by { BlocksAhead(j, a + over); }
    assert l == LastBytes(offset, size) && Turns(inodeSize, offset, size) == 1 + Extending(over, rest) by {
      MiddleLast(inodeSize, offset, size, j, a, over);
    }
    MiddleEnd(inodeSize, offset, size, j, a, over, rest);
    assert inodeSize % DB_SIZE != 0 by { MiddleLength(inodeSize, offset, size, j, a, over); }
    BeyondAhead(inodeSize, offset, size, j + 1, k, over, l, over + l > DB_SIZE);
  }

  lemma BeyondAhead(inodeSize: nat, offset: nat, size: nat, n: nat, k: nat, over: nat, l: nat, past: bool)
    requires offset < inodeSize < offset + size && inodeSize % DB_SIZE != 0
    requires n == BlocksFor(inodeSize) && k == n + Turns(inodeSize, offset, size) && l == LastBytes(offset, size)
    requires over == inodeSize - FirstBeyond(inodeSize, offset)
    requires past <==> offset + size + over > DB_SIZE * ((offset + size - 1) / DB_SIZE + 1)
    ensures Cost(k) >= Cost(n)
    ensures BeyondBill(inodeSize, offset, size)
      == Bill(Cost(k) - Cost(n), if l <= over || past then Exact else Over, Lost)
  {
    CostGrows(n, k);
  }

  lemma MiddleAhead(inodeSize: nat, offset: nat, size: nat, j: nat, a: nat, over: nat, rest: nat)
    requires Middle(inodeSize, offset, size, j, a, over) && rest == size - (DB_SIZE - a) > 0 && over > 0
    ensures Then(TurnBill(inodeSize, DB_SIZE - a), AlignedBill(over, j + 2, rest))
      == BeyondBill(inodeSize, offset, size)
  {
    MiddleTurn(inodeSize, offset, size, j, a, over, DB_SIZE - a);
    MiddleBill(inodeSize, offset, size, j, a, over, rest, j + 2 + Extending(over, rest));
  }

  // The bill of write_file's loop, in closed form.
  lemma LoopBillIs(inodeSize: nat, offset: nat, size: nat)
    requires offset <= inodeSize
    ensures LoopBill(inodeSize, offset, size)
      == if offset + size <= inodeSize then NO_BILL else BeyondBill(inodeSize, offset, size)
  {
    if offset + size <= inodeSize {
      InsideBill(inodeSize, offset, size);
    } else {
      BeyondIs(inodeSize, offset, size);
      assert Settled(true);
    }
  }

  lemma {:induction false} InsideBill(inodeSize: nat, offset: nat, size: nat)
    requires offset + size <= inodeSize
    ensures LoopBill(inodeSize, offset, size) == NO_BILL
    decreases size
  {
    if size > 0 {
      var w := ChunkLength(offset, size);
      InsideBill(inodeSize, offset + w, size - w);
    }
  }

  lemma BeyondIs(inodeSize: nat, offset: nat, size: nat)
    requires offset <= inodeSize < offset + size
    ensures LoopIs(inodeSize, offset, size, BeyondBill(inodeSize, offset, size))
  {
    var e := FirstBeyond(inodeSize, offset);
    if e % DB_SIZE == 0 {
      var over := inodeSize - e;
      FirstAligned(inodeSize, offset, size, e, e / DB_SIZE, over);
      AlignedIs(inodeSize, e, e / DB_SIZE, over, BlocksFor(inodeSize), offset + size - e);
      SkipInside(inodeSize, offset, size, e, BeyondBill(inodeSize, offset, size));
    } else {
      MiddleStart(inodeSize, offset, size);
      MiddleIs(inodeSize, offset, size, offset / DB_SIZE, offset % DB_SIZE, inodeSize - offset);
    }
  }

  lemma MiddleIs(inodeSize: nat, offset: nat, size: nat, j: nat, a: nat, over: nat)
    requires Middle(inodeSize, offset, size, j, a, over)
    ensures LoopIs(inodeSize, offset, size, BeyondBill(inodeSize, offset, size))
  {
    MiddleLength(inodeSize, offset, size, j, a, over);
    if size <= DB_SIZE - a {
      MiddleOnly(inodeSize, offset, size, j, a, over);
      LoopEnd(inodeSize + size, offset + size);
      LoopNext(inodeSize, offset, size, size, NO_BILL);
    } else {
      MiddleThen(inodeSize, offset, size, j, a, over, size - (DB_SIZE - a));
    }
  }

  lemma MiddleThen(inodeSize: nat, offset: nat, size: nat, j: nat, a: nat, over: nat, rest: nat)
    requires Middle(inodeSize, offset, size, j, a, over) && rest == size - (DB_SIZE - a) > 0
    ensures LoopIs(inodeSize, offset, size, BeyondBill(inodeSize, offset, size))
  {
    var b := BeyondBill(inodeSize, offset, size);
    if over > 0 {
      MiddleAhead(inodeSize, offset, size, j, a, over, rest);
      MiddleRest(inodeSize, offset, size, j, a, over, j + 2, rest, b);
    } else {
      MiddleAside(inodeSize, offset, size, j, a, rest);
      MiddleRest(inodeSize, offset, size, j, a, 0, j + 1, rest, b);
    }
  }

  lemma MiddleRest(inodeSize: nat, offset: nat, size: nat, j: nat, a: nat, over: nat, first: nat, rest: nat, b: Bill)
    requires Middle(inodeSize, offset, size, j, a, over) && rest == size - (DB_SIZE - a) > 0
    requires first == if over > 0 then j + 2 else j + 1
    requires b == Then(TurnBill(inodeSize, DB_SIZE - a), AlignedBill(over, first, rest))
    ensures LoopIs(inodeSize, offset, size, b)
  {
    var w := DB_SIZE - a;
    MiddleLength(inodeSize, offset, size, j, a, over);
    assert Ahead(inodeSize + w, offset + w, j + 1, over, first);
    AlignedIs(inodeSize + w, offset + w, j + 1, over, first, rest);
    LoopNext(inodeSize, offset, size, w, AlignedBill(over, first, rest));
  }

  // ---------- zeroes at the end ----------

  lemma ZeroPageAligned(j: nat, n: nat)
    requires 0 < n <= DB_SIZE
    ensures LoopBill(DB_SIZE * j, DB_SIZE * j, n) == Bill(Cost(j + 1) - Cost(j), Exact, Lost)
  {
    AlignedIs(DB_SIZE * j, DB_SIZE * j, j, 0, j, n);
    assert Settled(true);
    assert Pages(n) == 1;
  }

  lemma ZeroPageAside(j: nat, a: nat, n: nat)
    requires 0 < n <= DB_SIZE && 0 < a < DB_SIZE
    ensures var size, k := DB_SIZE * j + a, if n <= DB_SIZE - a then 1 else 2;
      LoopBill(size, size, n) == Bill(k * Needed(j + 1), if k == 1 then Over else Lost, Lost)
  {
    var size, k := DB_SIZE * j + a, if n <= DB_SIZE - a then 1 else 2;
    BlocksAhead(j, a);
    CostStep(j + 1);
    LoopBillIs(size, size, n);
    assert size % DB_SIZE == a && size / DB_SIZE == j;
    assert Turns(size, size, n) == k;
  }

  // ZeroBill, sealed by Settled.
  ghost predicate ZeroIs(size: nat, rest: nat, b: Bill)
  {
    forall w {:trigger Settled(w)} :: Settled(w) ==> ZeroBill(size, rest) == b
  }

  lemma ZeroNext(size: nat, rest: nat, n: nat, b: Bill, c: Bill)
    requires rest > 0 && n == (if rest >= DB_SIZE then DB_SIZE else rest)
    requires LoopBill(size, size, n) == b && ZeroIs(size + n, rest - n, c)
    ensures ZeroIs(size, rest, Then(b, c))
  {
    assert Settled(true);
  }

  lemma ZeroEnd(size: nat)
    ensures ZeroIs(size, 0, NO_BILL)
  {
  }

  lemma ZeroAlignedLast(size: nat, j: nat, rest: nat)
    requires 0 < rest <= DB_SIZE && size == DB_SIZE * j
    ensures ZeroIs(size, rest, Bill(Cost(j + 1) - Cost(j), Exact, Lost))
  {
    ZeroPageAligned(j, rest);
    ZeroEnd(size + rest);
    ZeroNext(size, rest, rest, Bill(Cost(j + 1) - Cost(j), Exact, Lost), NO_BILL);
  }

  lemma ZeroAlignedFirst(size: nat, j: nat, rest: nat, size': nat, rest': nat, t: nat, taken: nat)
    requires rest > DB_SIZE && size == DB_SIZE * j && size' == size + DB_SIZE && rest' == rest - DB_SIZE
    requires ZeroIs(size', rest', Bill(t, Exact, Lost)) && Cost(j + 1) >= Cost(j) && taken == Cost(j + 1) - Cost(j) + t
    ensures ZeroIs(size, rest, Bill(taken, Exact, Lost))
  {
    ZeroPageAligned(j, DB_SIZE);
    ZeroNext(size, rest, DB_SIZE, Bill(Cost(j + 1) - Cost(j), Exact, Lost), Bill(t, Exact, Lost));
  }

  // k is the number of blocks afterwards.
  lemma {:induction false} ZeroAligned(size: nat, j: nat, k: nat, rest: nat, taken: nat)
    requires rest > 0 && size == DB_SIZE * j && DB_SIZE * (k - 1) < size + rest <= DB_SIZE * k
    requires taken == Cost(k) - Cost(j)
    ensures ZeroIs(size, rest, Bill(taken, Exact, Lost))
    decreases rest
  {
    CostGrows(j, j + 1);
    if rest <= DB_SIZE {
      assert k == j + 1;
      ZeroAlignedLast(size, j, rest);
    } else {
      var size', rest' := size + DB_SIZE, rest - DB_SIZE;
      CostGrows(j + 1, k);
      var t: nat := Cost(k) - Cost(j + 1);
      ZeroAligned(size', j + 1, k, rest', t);
      ZeroAlignedFirst(size, j, rest, size', rest', t, taken);
    }
  }

  // Taken by zeroes beyond n blocks, the last one with a bytes in it.
  function AsideTaken(n: nat, a: nat, rest: nat): nat
    requires a < DB_SIZE
  {
    var p, r := rest / DB_SIZE, rest % DB_SIZE;
    CostGrows(n, n + p);
    2 * (Cost(n + p) - Cost(n)) + (if r == 0 then 0 else if r <= DB_SIZE - a then Needed(n + p) else 2 * Needed(n + p))
  }

  lemma AsideLast(n: nat, a: nat, rest: nat)
    requires 0 < a < DB_SIZE && 0 < rest <= DB_SIZE
    ensures AsideTaken(n, a, rest) == (if rest <= DB_SIZE - a then 1 else 2) * Needed(n)
  {
    CostStep(n);
    if rest == DB_SIZE { assert rest / DB_SIZE == 1 && rest % DB_SIZE == 0; } else { assert rest / DB_SIZE == 0; }
  }

  lemma AsideMore(n: nat, a: nat, rest: nat)
    requires 0 < a < DB_SIZE < rest
    ensures AsideTaken(n, a, rest) == 2 * Needed(n) + AsideTaken(n + 1, a, rest - DB_SIZE)
  {
    CostStep(n);
    assert rest / DB_SIZE == (rest - DB_SIZE) / DB_SIZE + 1 && rest % DB_SIZE == (rest - DB_SIZE) % DB_SIZE;
  }

  function AsideBill(n: nat, a: nat, rest: nat): Bill
    requires a < DB_SIZE
  {
    Bill(AsideTaken(n, a, rest), if rest <= DB_SIZE - a then Over else Lost, Lost)
  }

  lemma ZeroAsideLast(size: nat, j: nat, a: nat, rest: nat)
    requires 0 < rest <= DB_SIZE && size == DB_SIZE * j + a && 0 < a < DB_SIZE
    ensures ZeroIs(size, rest, AsideBill(j + 1, a, rest))
  {
    AsideLast(j + 1, a, rest);
    ZeroPageAside(j, a, rest);
    ZeroEnd(size + rest);
    ZeroNext(size, rest, rest, AsideBill(j + 1, a, rest), NO_BILL);
  }

  lemma ZeroAsideFirst(size: nat, j: nat, a: nat, rest: nat, b: Bill)
    requires rest > DB_SIZE && size == DB_SIZE * j + a && 0 < a < DB_SIZE && ZeroIs(size + DB_SIZE, rest - DB_SIZE, b)
    ensures ZeroIs(size, rest, Bill(2 * Needed(j + 1) + b.taken, Lost, Lost))
  {
    ZeroPageAside(j, a, DB_SIZE);
    ZeroNext(size, rest, DB_SIZE, Bill(2 * Needed(j + 1), Lost, Lost), b);
  }

  lemma {:induction false} ZeroAside(size: nat, j: nat, a: nat, rest: nat)
    requires rest > 0 && size == DB_SIZE * j + a && 0 < a < DB_SIZE
    ensures ZeroIs(size, rest, AsideBill(j + 1, a, rest))
    decreases rest
  {
    if rest <= DB_SIZE {
      ZeroAsideLast(size, j, a, rest);
    } else {
      ZeroAside(size + DB_SIZE, j + 1, a, rest - DB_SIZE);
      AsideMore(j + 1, a, rest);
      ZeroAsideFirst(size, j, a, rest, AsideBill(j + 2, a, rest - DB_SIZE));
    }
  }

  // From a block boundary no block is lost; otherwise every page writes twice over the number that the last one left
  // mapped.
  function ZeroesBill(size: nat, rest: nat): Bill
    requires rest > 0
  {
    CostGrows(BlocksFor(size), BlocksFor(size + rest));
    if size % DB_SIZE == 0 then Bill(Cost(BlocksFor(size + rest)) - Cost(BlocksFor(size)), Exact, Lost)
    else AsideBill(BlocksFor(size), size % DB_SIZE, rest)
  }

  // The bill of an extension by zeroes, in closed form.
  lemma ZeroBillIs(size: nat, rest: nat)
    requires rest > 0
    ensures ZeroBill(size, rest) == ZeroesBill(size, rest)
  {
    if size % DB_SIZE == 0 {
      ZeroesAligned(size, size / DB_SIZE, rest);
    } else {
      ZeroesAside(size, size / DB_SIZE, size % DB_SIZE, rest);
    }
  }

  lemma BlocksBounds(size: nat, k: nat)
    requires size > 0 && k == BlocksFor(size)
    ensures DB_SIZE * (k - 1) < size <= DB_SIZE * k
  {
  }

  lemma ZeroesAligned(size: nat, j: nat, rest: nat)
    requires rest > 0 && size == DB_SIZE * j
    ensures ZeroBill(size, rest) == ZeroesBill(size, rest)
  {
    var k := BlocksFor(size + rest);
    BlocksBounds(size + rest, k);
    BlocksAhead(j, 0);
    CostGrows(j, k);
    ZeroAligned(size, j, k, rest, Cost(k) - Cost(j));
    assert Settled(true);
  }

  lemma ZeroesAside(size: nat, j: nat, a: nat, rest: nat)
    requires rest > 0 && size == DB_SIZE * j + a && 0 < a < DB_SIZE
    ensures ZeroBill(size, rest) == ZeroesBill(size, rest)
  {
    BlocksAhead(j, a);
    ZeroAside(size, j, a, rest);
    assert Settled(true);
  }

  // WriteBill, sealed by Settled.
  ghost predicate WriteIs(inodeSize: nat, offset: nat, size: nat, b: Bill)
  {
    forall w {:trigger Settled(w)} :: Settled(w) ==> WriteBill(inodeSize, offset, size) == b
  }

  // Inside or at the end it is the loop alone.
  lemma WriteInside(inodeSize: nat, offset: nat, size: nat, b: Bill)
    requires WriteIs(inodeSize, offset, size, b) && offset <= inodeSize
    ensures LoopIs(inodeSize, offset, size, b)
  {
    assert Settled(true);
  }

  lemma InsideWrite(inodeSize: nat, offset: nat, size: nat, b: Bill)
    requires LoopIs(inodeSize, offset, size, b) && offset <= inodeSize
    ensures WriteIs(inodeSize, offset, size, b)
  {
    assert Settled(true);
  }

  lemma WriteBeyond(inodeSize: nat, offset: nat, size: nat, b: Bill) returns (zeroes: Bill, loop: Bill)
    requires WriteIs(inodeSize, offset, size, b) && offset > inodeSize
    ensures ZeroIs(inodeSize, offset - inodeSize, zeroes) && LoopIs(offset, offset, size, loop)
    ensures IsThen(zeroes, loop, b)
    ensures b.taken == zeroes.taken + loop.taken
  {
    assert Settled(true);
    zeroes, loop := ZeroBill(inodeSize, offset - inodeSize), LoopBill(offset, offset, size);
  }

  lemma ZeroSplit(size: nat, rest: nat, n: nat, size': nat, rest': nat, b: Bill) returns (page: Bill, c: Bill)
    requires ZeroIs(size, rest, b) && rest > 0 && n == (if rest >= DB_SIZE then DB_SIZE else rest)
    requires size' == size + n && rest' == rest - n
    ensures LoopIs(size, size, n, page) && ZeroIs(size', rest', c) && IsThen(page, c, b)
  {
    assert Settled(true);
    page, c := LoopBill(size, size, n), ZeroBill(size', rest');
  }

  lemma ZeroOver(size: nat, b: Bill)
    requires ZeroIs(size, 0, b)
    ensures b == NO_BILL
  {
    assert Settled(true);
  }

  // ---------- writes that lose no block ----------

  // A write inside the file; to a file that ends at a block boundary; one whose last chunk fits in what the size has
  // got ahead by then; or one whose new size lies beyond the block of its last byte.  A write beyond the end needs both
  // the end and the offset at a block boundary.
  predicate LosesNothing(inodeSize: nat, offset: nat, size: nat)
    requires size > 0
  {
    if offset > inodeSize then inodeSize % DB_SIZE == 0 && offset % DB_SIZE == 0
    else
      var end, over := offset + size, inodeSize - FirstBeyond(inodeSize, offset);
      || end <= inodeSize || inodeSize % DB_SIZE == 0
      || LastBytes(offset, size) <= over || end + over > DB_SIZE * ((end - 1) / DB_SIZE + 1)
  }

  lemma LosesNothingExactly(inodeSize: nat, offset: nat, size: nat)
    requires size > 0
    ensures WriteBill(inodeSize, offset, size).exact == Exact <==> LosesNothing(inodeSize, offset, size)
  {
    if offset > inodeSize {
      ZeroBillIs(inodeSize, offset - inodeSize);
      LoopBillIs(offset, offset, size);
    } else {
      LoopBillIs(inodeSize, offset, size);
      if offset == inodeSize && inodeSize % DB_SIZE != 0 { AppendInside(inodeSize, size); }
    }
  }

  lemma AppendInside(inodeSize: nat, size: nat)
    requires size > 0 && inodeSize % DB_SIZE != 0
    ensures !LosesNothing(inodeSize, inodeSize, size)
  {
    assert FirstBeyond(inodeSize, inodeSize) == inodeSize;
    var end := inodeSize + size;
    assert end - 1 == DB_SIZE * ((end - 1) / DB_SIZE) + (end - 1) % DB_SIZE;
  }
}
