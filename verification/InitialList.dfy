// The free list that db_init builds (db.c): index block i takes the place START_DATA_BLOCK + 1024 i and lists the 1023
// blocks after it.

module InitialList {
  import opened Blocks
  import opened Store
  import opened FreeList

  function IndexId(i: nat): nat
  {
    START_DATA_BLOCK + ENTRIES * i
  }

  // Index blocks for n free blocks.
  function IndexCount(n: nat): nat
  {
    (n + ENTRIES - 1) / ENTRIES
  }

  predicate FitsWords(n: nat)
  {
    IndexId(IndexCount(n)) + ENTRIES <= UINT_MAX
  }

  // Word j of index block i: a full one links to the next, which for a count divisible by 1024 may not exist; a partial
  // one links to itself.
  function IndexWord(n: nat, i: nat, j: nat): Word
    requires FitsWords(n) && i < IndexCount(n) && j < ENTRIES
  {
    if i < n / ENTRIES then (if j == 0 then IndexId(i + 1) else IndexId(i) + j)
    else if j < n % ENTRIES then IndexId(i) + j
    else 0
  }

  predicate Between(x: nat, lo: nat, hi: nat)
  {
    lo <= x < hi
  }

  function Range(lo: nat, hi: nat): (r: set<nat>)
    ensures forall x: nat {:trigger x in r} :: x in r <==> lo <= x < hi
  {
    set x: nat | lo <= x < hi && Between(x, lo, hi)
  }

  lemma {:induction false} RangeSize(lo: nat, hi: nat)
    requires lo <= hi
    ensures |Range(lo, hi)| == hi - lo
    decreases hi - lo
  {
    if lo < hi {
      RangeSize(lo, hi - 1);
      assert Range(lo, hi) == Range(lo, hi - 1) + {hi - 1};
    } else {
      assert Range(lo, hi) == {};
    }
  }

  // d holds what db_init writes.
  ghost predicate Laid(d: Disk, n: nat)
  {
    && FitsWords(n)
    && forall i, j :: 0 <= i < IndexCount(n) && 0 <= j < ENTRIES ==> W(d, IndexId(i))[j] == IndexWord(n, i, j)
  }

  // The index blocks from i on.
  function ChainFrom(i: nat, count: nat): (c: seq<nat>)
    requires i <= count
    ensures |c| == count - i && (i < count ==> c[0] == IndexId(i))
    decreases count - i
  {
    if i == count then [] else [IndexId(i)] + ChainFrom(i + 1, count)
  }

  // End of the stretch that index block i lists.
  function StretchEnd(n: nat, i: nat): nat
  {
    if i < n / ENTRIES then IndexId(i + 1) else START_DATA_BLOCK + n
  }

  lemma LaidEntries(d: Disk, n: nat, i: nat)
    requires Laid(d, n) && i < IndexCount(n)
    ensures IndexId(i) < StretchEnd(n, i) <= START_DATA_BLOCK + n
    ensures Entries(W(d, IndexId(i))) == Range(IndexId(i) + 1, StretchEnd(n, i)) && NoDoubles(W(d, IndexId(i)))
  {
    var ws := W(d, IndexId(i));
    assert n == ENTRIES * (n / ENTRIES) + n % ENTRIES;
    assert forall j :: 0 <= j < ENTRIES ==> ws[j] == IndexWord(n, i, j);
    forall x | x in Range(IndexId(i) + 1, StretchEnd(n, i))
      ensures x in Entries(ws)
    {
      assert ws[x - IndexId(i)] == x;
    }
  }

  lemma {:induction false} LaidChain(d: Disk, n: nat, i: nat)
    requires Laid(d, n) && i <= IndexCount(n) && START_DATA_BLOCK + n <= NumBlock(d)
    ensures ChainOk(d, ChainFrom(i, IndexCount(n)))
    ensures FreeSet(d, ChainFrom(i, IndexCount(n))) == Range(IndexId(i), START_DATA_BLOCK + n)
    decreases IndexCount(n) - i
  {
    var m := IndexCount(n);
    assert n == ENTRIES * (n / ENTRIES) + n % ENTRIES;
    if i < m {
      LaidChain(d, n, i + 1);
      LaidEntries(d, n, i);
      var chain := ChainFrom(i, m);
      assert chain[1..] == ChainFrom(i + 1, m);
      if i + 1 < m { assert W(d, IndexId(i))[0] == IndexWord(n, i, 0); }
    }
  }

  lemma InitialChain(d: Disk, n: nat, chain: seq<nat>)
    requires Laid(d, n) && START_DATA_BLOCK + n <= NumBlock(d) && chain == ChainFrom(0, IndexCount(n))
    ensures ChainOk(d, chain) && FreeSet(d, chain) == Range(START_DATA_BLOCK, START_DATA_BLOCK + n)
    ensures chain != [] ==> chain[0] == START_DATA_BLOCK
  {
    LaidChain(d, n, 0);
  }

  // The list that db_init leaves is well formed and records exactly the n blocks from START_DATA_BLOCK on, whether or
  // not the last index block is full.
  lemma InitialListOk(d: Disk, n: nat)
    requires Laid(d, n) && Sized(d) && START_DATA_BLOCK + n <= NumBlock(d) && NumFree(d) == n
    requires FreeHead(d) == START_DATA_BLOCK
    ensures Ok(d, ChainFrom(0, IndexCount(n)))
    ensures Records(d, ChainFrom(0, IndexCount(n)), Range(START_DATA_BLOCK, START_DATA_BLOCK + n))
  {
    var chain := ChainFrom(0, IndexCount(n));
    InitialChain(d, n, chain);
    RangeSize(START_DATA_BLOCK, START_DATA_BLOCK + n);
    Recorded(d, chain);
  }

  // Most free blocks for which every index block lands on its own place of the device.
  const MOST := 1023 * 1024

  // db_init writes each index block to its own place exactly up to MOST free blocks; the next index block lands in the
  // inode table.
  lemma PlacesExact(n: nat)
    ensures (forall i :: 0 <= i < IndexCount(n) ==> Position(IndexId(i)) == IndexId(i)) <==> n <= MOST
    ensures n > MOST ==> 1023 < IndexCount(n) && START_ILIST <= Position(IndexId(1023)) < START_DATA_BLOCK
  {
    forall i | 0 <= i < IndexCount(n) && n <= MOST
      ensures Position(IndexId(i)) == IndexId(i)
    {
      PositionWraps(IndexId(i));
    }
    if n > MOST { PositionWraps(IndexId(1023)); }
  }
}
