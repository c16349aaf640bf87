// The free list of db.c: a chain of index blocks that are themselves free.  Word 0 of an index block is the next index
// block; words 1.. are ids of free blocks, or 0.

module FreeList {
  import opened Blocks
  import opened Store
  import CacheSpec
  import Calls

  // The ids in words 1.. of an index block.
  function Entries(ws: WordBlock): set<nat>
  {
    set k | 1 <= k < ENTRIES && ws[k] != 0 :: ws[k]
  }

  predicate NoDoubles(ws: WordBlock)
  {
    forall k, l :: 1 <= k < l < ENTRIES && ws[k] != 0 ==> ws[k] != ws[l]
  }

  // The free blocks that a chain of index blocks records.
  function FreeSet(d: Disk, chain: seq<nat>): set<nat>
  {
    if chain == [] then {} else {chain[0]} + Entries(W(d, chain[0])) + FreeSet(d, chain[1..])
  }

  // Every id in the chain is a data block and appears once; index blocks link to the next one.  The last link is
  // whatever db_init or db_free left there.
  predicate ChainOk(d: Disk, chain: seq<nat>)
  {
    chain == [] ||
    var h := chain[0];
    && InData(d, h)
    && NoDoubles(W(d, h)) && h !in Entries(W(d, h))
    && (forall c :: c in Entries(W(d, h)) ==> InData(d, c))
    && ({h} + Entries(W(d, h))) !! FreeSet(d, chain[1..])
    && (|chain| > 1 ==> W(d, h)[0] == chain[1])
    && ChainOk(d, chain[1..])
  }

  // The free list is well formed and NUM_FREE_BLOCK counts it.
  predicate Ok(d: Disk, chain: seq<nat>)
  {
    && Sized(d) && ChainOk(d, chain)
    && |FreeSet(d, chain)| == NumFree(d)
    && (chain != [] ==> FreeHead(d) == chain[0])
  }

  // Blocks outside the free set do not matter to it, block 0 aside from NUM_BLOCK.
  lemma {:induction false} ChainFrame(d: Disk, d': Disk, chain: seq<nat>)
    requires NumBlock(d) == NumBlock(d') && |d| == |d'|
    requires forall c :: c in FreeSet(d, chain) && c < |d| ==> d'[c] == d[c]
    ensures FreeSet(d', chain) == FreeSet(d, chain)
    ensures ChainOk(d', chain) <==> ChainOk(d, chain)
  {
    if chain != [] {
      ChainFrame(d, d', chain[1..]);
      assert chain[0] in FreeSet(d, chain);
    }
  }

  lemma {:induction false} ChainInData(d: Disk, chain: seq<nat>)
    requires ChainOk(d, chain)
    ensures forall c :: c in FreeSet(d, chain) ==> InData(d, c)
  {
    if chain != [] { ChainInData(d, chain[1..]); }
  }

  // ---------- allocation ----------

  lemma EntriesUpdate(ws: WordBlock, k: nat, w: Word)
    requires 1 <= k < ENTRIES && NoDoubles(ws) && w !in Entries(ws) && (ws[k] == 0 || w == 0)
    ensures NoDoubles(ws[k := w])
    ensures Entries(ws[k := w]) == Entries(ws) - (if ws[k] == 0 then {} else {ws[k]}) + (if w == 0 then {} else {w})
  {
    var ws' := ws[k := w];
    forall c | c in Entries(ws)
      ensures c == ws[k] || c in Entries(ws')
    {
      var l :| 1 <= l < ENTRIES && ws[l] != 0 && ws[l] == c;
      assert l == k || ws'[l] == c;
    }
    assert w != 0 ==> ws'[k] == w;
    forall c | c in Entries(ws')
      ensures c == w || (c in Entries(ws) && c != ws[k])
    {
      var l :| 1 <= l < ENTRIES && ws'[l] != 0 && ws'[l] == c;
    }
  }

  // The superblock keeps its other fields.
  predicate SameSuper(d: Disk, d': Disk)
  {
    forall i :: 0 <= i < SB_WORDS && i != NUM_FREE_BLOCK && i != FREE_LIST ==> W(d', 0)[i] == W(d, 0)[i]
  }

  // d' differs from d at most in the superblock's free-list fields and in block b.
  predicate OnlyAt(d: Disk, d': Disk, b: nat)
  {
    |d'| == |d| && SameSuper(d, d') && forall c :: 0 < c < |d| && c != b ==> d'[c] == d[c]
  }

  lemma HeadRest(d: Disk, d': Disk, chain: seq<nat>)
    requires Sized(d) && chain != [] && ChainOk(d, chain) && OnlyAt(d, d', chain[0])
    ensures FreeSet(d', chain[1..]) == FreeSet(d, chain[1..])
    ensures ChainOk(d', chain[1..])
    ensures forall c :: c in FreeSet(d, chain) ==> InData(d, c)
  {
    ChainInData(d, chain);
    forall c | c in FreeSet(d, chain[1..]) && c < |d|
      ensures d'[c] == d[c]
    {
      assert c in FreeSet(d, chain);
      assert c != chain[0] by { assert chain[0] in {chain[0]} + Entries(W(d, chain[0])); }
    }
    ChainFrame(d, d', chain[1..]);
  }

  // Rewriting one entry of the head index block keeps the chain well formed...
  lemma HeadUpdateOk(d: Disk, d': Disk, chain: seq<nat>, k: nat, w: Word)
    requires Sized(d) && chain != [] && ChainOk(d, chain) && OnlyAt(d, d', chain[0])
    requires 1 <= k < ENTRIES && (W(d, chain[0])[k] == 0 || w == 0)
    requires w != 0 ==> InData(d, w) && w !in FreeSet(d, chain)
    requires W(d', chain[0]) == W(d, chain[0])[k := w]
    ensures ChainOk(d', chain)
  {
    var ws := W(d, chain[0]);
    HeadRest(d, d', chain);
    assert !InData(d, 0);
    EntriesUpdate(ws, k, w);
    assert ({chain[0]} + Entries(ws[k := w])) !! FreeSet(d, chain[1..]);
  }

  // ... and adds or removes just that id.
  lemma HeadUpdate(d: Disk, d': Disk, chain: seq<nat>, k: nat, w: Word)
    requires Sized(d) && chain != [] && ChainOk(d, chain) && OnlyAt(d, d', chain[0])
    requires 1 <= k < ENTRIES && (W(d, chain[0])[k] == 0 || w == 0)
    requires w != 0 ==> InData(d, w) && w !in FreeSet(d, chain)
    requires W(d', chain[0]) == W(d, chain[0])[k := w]
    ensures FreeSet(d', chain) == FreeSet(d, chain) - {W(d, chain[0])[k]} + (if w == 0 then {} else {w})
  {
    var ws := W(d, chain[0]);
    var rest := FreeSet(d, chain[1..]);
    HeadRest(d, d', chain);
    assert !InData(d, 0);
    EntriesUpdate(ws, k, w);
    assert ws[k] != 0 ==> ws[k] in Entries(ws);
    HeadSets(chain[0], Entries(ws), rest, ws[k], w);
  }

  lemma HeadSets(h: nat, entries: set<nat>, rest: set<nat>, gone: nat, come: nat)
    requires 0 !in {h} + entries + rest && ({h} + entries) !! rest && h !in entries
    requires gone == 0 || (come == 0 && gone in entries)
    ensures var e := entries - (if gone == 0 then {} else {gone}) + (if come == 0 then {} else {come});
      {h} + e + rest == {h} + entries + rest - {gone} + (if come == 0 then {} else {come})
  {
  }

  lemma TakeEntry(d: Disk, d': Disk, chain: seq<nat>, k: nat)
    requires Ok(d, chain) && chain != [] && OnlyAt(d, d', chain[0])
    requires 1 <= k < ENTRIES && W(d, chain[0])[k] != 0 && W(d', chain[0]) == W(d, chain[0])[k := 0]
    requires NumFree(d') == NumFree(d) - 1 && FreeHead(d') == FreeHead(d)
    ensures Ok(d', chain)
    ensures W(d, chain[0])[k] in FreeSet(d, chain)
    ensures FreeSet(d', chain) == FreeSet(d, chain) - {W(d, chain[0])[k]}
  {
    HeadUpdateOk(d, d', chain, k, 0);
    HeadUpdate(d, d', chain, k, 0);
    assert W(d, chain[0])[k] in Entries(W(d, chain[0]));
  }

  // An index block with no entries left is itself handed out; the chain goes on at its link.
  lemma TakeHead(d: Disk, d': Disk, chain: seq<nat>)
    requires Ok(d, chain) && chain != [] && OnlyAt(d, d', chain[0])
    requires forall k :: 1 <= k < ENTRIES ==> W(d, chain[0])[k] == 0
    requires var link := W(d, chain[0])[0];
      if link == chain[0] then NumFree(d') == 0 else NumFree(d') == NumFree(d) - 1 && FreeHead(d') == link
    ensures Ok(d', chain[1..])
    ensures chain[0] in FreeSet(d, chain)
    ensures FreeSet(d', chain[1..]) == FreeSet(d, chain) - {chain[0]}
  {
    var rest := chain[1..];
    HeadRest(d, d', chain);
    assert Entries(W(d, chain[0])) == {};
    if rest != [] {
      assert rest[0] in FreeSet(d, rest);
    }
  }

  lemma Exhausted(d: Disk, chain: seq<nat>)
    requires Ok(d, chain)
    ensures NumFree(d) == 0 <==> chain == []
    ensures NumFree(d) == 0 <==> FreeSet(d, chain) == {}
    ensures NumFree(d) > 0 ==> FreeHead(d) < UINT_MAX && InData(d, FreeHead(d))
  {
    if chain != [] {
      assert chain[0] in FreeSet(d, chain);
    }
  }

  // The effect of an allocation that returns r.
  ghost predicate Allocated(d: Disk, chain: seq<nat>, d': Disk, chain': seq<nat>, r: Option<nat>)
  {
    && Ok(d', chain')
    && (r.None? <==> FreeSet(d, chain) == {})
    && (r.Some? ==> r.value in FreeSet(d, chain))
    && FreeSet(d', chain') == FreeSet(d, chain) - (if r.Some? then {r.value} else {})
    && OnlyAt(d, d', if r.Some? then FreeHead(d) else 0)
  }

  // The first entry of an index block that is in use, from k on, and the first that is not; ENTRIES if there is none.
  function FirstUsed(ws: WordBlock, k: nat): (i: nat)
    requires k <= ENTRIES
    ensures k <= i <= ENTRIES && (i < ENTRIES ==> ws[i] != 0) && forall j :: k <= j < i ==> ws[j] == 0
    decreases ENTRIES - k
  {
    if k == ENTRIES || ws[k] != 0 then k else FirstUsed(ws, k + 1)
  }

  function FirstHole(ws: WordBlock, k: nat): (i: nat)
    requires k <= ENTRIES
    ensures k <= i <= ENTRIES && (i < ENTRIES ==> ws[i] == 0) && forall j :: k <= j < i ==> ws[j] != 0
    decreases ENTRIES - k
  {
    if k == ENTRIES || ws[k] == 0 then k else FirstHole(ws, k + 1)
  }

  // Which block is handed out, and what becomes of the head index block: its first entry in use is handed out and
  // zeroed; if there is none, the index block itself is handed out as it is.
  ghost predicate FirstOut(d: Disk, d': Disk, b: nat)
  {
    var ws, ws' := W(d, FreeHead(d)), W(d', FreeHead(d));
    var i := FirstUsed(ws, 1);
    if i < ENTRIES then b == ws[i] && ws' == ws[i := 0] else b == FreeHead(d) && ws' == ws
  }

  // The block that db_allocate hands out next.
  function NextFree(d: Disk): nat
  {
    var ws := W(d, FreeHead(d));
    var i := FirstUsed(ws, 1);
    if i < ENTRIES then ws[i] else FreeHead(d)
  }

  // The call that does so, as the device sees it.
  ghost function TakeCall(d: Disk, d': Disk): Calls.Call
  {
    if FirstUsed(W(d, FreeHead(d)), 1) < ENTRIES
    then Calls.ChangeEntry(FreeHead(d), Bytes(W(d', FreeHead(d))), Bytes(W(d', 0)))
    else Calls.HandOutHead(FreeHead(d), Bytes(W(d', 0)))
  }

  // Its writes.
  ghost function TakeWrites(d: Disk, d': Disk): seq<CacheSpec.Op>
  {
    var head, super := FreeHead(d), CacheSpec.Write(0, Bytes(W(d', 0)));
    if FirstUsed(W(d, head), 1) < ENTRIES then HeadWrites(head, d') else [super]
  }

  lemma TakeAccesses(d: Disk, d': Disk, ops: seq<CacheSpec.Op>, ops': seq<CacheSpec.Op>)
    requires NumFree(d) != 0 && FreeHead(d) != UINT_MAX
    requires ops' == ops + [CacheSpec.Read(0)] + [CacheSpec.Read(FreeHead(d))] + TakeWrites(d, d')
    ensures ops' == ops + Calls.Trace(AllocateCalls(d, d'))
  {
    Calls.TraceOne(TakeCall(d, d'));
    assert Calls.Accesses(TakeCall(d, d')) == [CacheSpec.Read(0), CacheSpec.Read(FreeHead(d))] + TakeWrites(d, d');
  }

  // Resetting an empty list writes the superblock unless both fields say so.
  ghost function RefuseWrites(d: Disk, d': Disk): seq<CacheSpec.Op>
  {
    if NumFree(d) == 0 && FreeHead(d) == UINT_MAX then [] else [CacheSpec.Write(0, Bytes(W(d', 0)))]
  }

  // What db_allocate asks of the device between d and d'.
  ghost function AllocateCalls(d: Disk, d': Disk): seq<Calls.Call>
  {
    if NumFree(d) == 0 && FreeHead(d) == UINT_MAX then [Calls.SbRead]
    else if NumFree(d) == 0 || FreeHead(d) == UINT_MAX then [Calls.SbRead, Calls.SbWrite(Bytes(W(d', 0)))]
    else [TakeCall(d, d')]
  }

  // A head field that says "empty" beside a count that does not: db_allocate and db_free repair this.
  predicate Broken(d: Disk)
  {
    Sized(d) && FreeHead(d) == UINT_MAX && NumFree(d) > 0
  }

  // The branch of db_allocate for an empty list: both fields are reset.
  method Refuse(s: Device, super0: SuperBlock)
    requires Sized(s.blocks) && (NumFree(s.blocks) == 0 || FreeHead(s.blocks) == UINT_MAX)
    requires forall i :: 0 <= i < SB_WORDS ==> super0[i] == W(s.blocks, 0)[i]
    modifies s.log, s`blocks, s`chain
    ensures Ok(s.blocks, s.chain) && s.chain == [] && FreeHead(s.blocks) == UINT_MAX
    ensures OnlyAt(old(s.blocks), s.blocks, 0)
    ensures s.log.ops == old(s.log.ops) + RefuseWrites(old(s.blocks), s.blocks)
  {
    var super := super0;
    if super[FREE_LIST] != UINT_MAX {
      super := super[FREE_LIST := UINT_MAX];
      SbWrite(s, super);
    }
    if super[NUM_FREE_BLOCK] != 0 {
      super := super[NUM_FREE_BLOCK := 0];
      SbWrite(s, super);
    }
    s.chain := [];
  }

  // The head index block and the superblock are written.
  ghost function HeadWrites(head: nat, d': Disk): seq<CacheSpec.Op>
  {
    [CacheSpec.Write(head, Bytes(W(d', head))), CacheSpec.Write(0, Bytes(W(d', 0)))]
  }

  method WriteHead(s: Device, buffer: WordBlock, super: SuperBlock)
    requires 0 < super[FREE_LIST] < |s.blocks|
    modifies s.log, s`blocks
    ensures var head := super[FREE_LIST];
      && |s.blocks| == |old(s.blocks)| && s.blocks[head] == buffer
      && (forall c :: 0 < c < |s.blocks| && c != head ==> s.blocks[c] == old(s.blocks[c]))
      && s.log.ops == old(s.log.ops) + HeadWrites(head, s.blocks)
    ensures forall i :: 0 <= i < SB_WORDS ==> s.blocks[0][i] == super[i]
  {
    s.Write(buffer, super[FREE_LIST]);
    SbWrite(s, super);
  }

  // The branch of db_allocate that hands out entry i of the head index block; super already counts one less.
  method HandOutEntry(s: Device, super: SuperBlock, buffer: WordBlock, i: nat)
    requires Ok(s.blocks, s.chain) && s.chain != [] && buffer == W(s.blocks, s.chain[0])
    requires 1 <= i < ENTRIES && buffer[i] != 0
    requires NumFree(s.blocks) > 0
    requires forall j :: 0 <= j < SB_WORDS ==>
      super[j] == if j == NUM_FREE_BLOCK then NumFree(s.blocks) - 1 else W(s.blocks, 0)[j]
    modifies s.log, s`blocks, s`chain
    ensures Allocated(old(s.blocks), old(s.chain), s.blocks, s.chain, Some(buffer[i]))
    ensures W(s.blocks, old(s.chain)[0]) == buffer[i := 0]
    ensures s.log.ops == old(s.log.ops) + HeadWrites(old(s.chain)[0], s.blocks)
  {
    ghost var d := s.blocks;
    WriteHead(s, buffer[i := 0], super);
    TakeEntry(d, s.blocks, s.chain, i);
  }

  // The branch of db_allocate that hands out the index block itself.
  method HandOutHead(s: Device, super0: SuperBlock, buffer: WordBlock)
    requires Ok(s.blocks, s.chain) && s.chain != [] && buffer == W(s.blocks, s.chain[0])
    requires forall k :: 1 <= k < ENTRIES ==> buffer[k] == 0
    requires NumFree(s.blocks) > 0
    requires forall j :: 0 <= j < SB_WORDS ==>
      super0[j] == if j == NUM_FREE_BLOCK then NumFree(s.blocks) - 1 else W(s.blocks, 0)[j]
    modifies s.log, s`blocks, s`chain
    ensures Allocated(old(s.blocks), old(s.chain), s.blocks, s.chain, Some(old(s.chain)[0]))
    ensures W(s.blocks, old(s.chain)[0]) == buffer
    ensures s.log.ops == old(s.log.ops) + [CacheSpec.Write(0, Bytes(W(s.blocks, 0)))]
  {
    ghost var d := s.blocks;
    var super := super0;
    var prev := super[FREE_LIST];
    if buffer[0] == prev {
      super := super[NUM_FREE_BLOCK := 0];
      super := super[FREE_LIST := UINT_MAX];
    } else {
      super := super[FREE_LIST := buffer[0]];
    }
    SbWrite(s, super);
    TakeHead(d, s.blocks, s.chain);
    s.chain := s.chain[1..];
  }

  // The search of db_allocate: the first entry in use is handed out, else the index block itself.
  method HandOut(s: Device, super: SuperBlock, buffer: WordBlock) returns (r: nat)
    requires Ok(s.blocks, s.chain) && s.chain != [] && buffer == W(s.blocks, s.chain[0])
    requires NumFree(s.blocks) > 0
    requires forall j :: 0 <= j < SB_WORDS ==>
      super[j] == if j == NUM_FREE_BLOCK then NumFree(s.blocks) - 1 else W(s.blocks, 0)[j]
    modifies s.log, s`blocks, s`chain
    ensures Allocated(old(s.blocks), old(s.chain), s.blocks, s.chain, Some(r)) && FirstOut(old(s.blocks), s.blocks, r)
    ensures s.log.ops == old(s.log.ops) + TakeWrites(old(s.blocks), s.blocks)
  {
    r := super[FREE_LIST];
    for i := 1 to ENTRIES
      invariant FirstUsed(buffer, 1) == FirstUsed(buffer, i) && forall k :: 1 <= k < i ==> buffer[k] == 0
      invariant s.blocks == old(s.blocks) && s.chain == old(s.chain) && s.log.ops == old(s.log.ops)
    {
      if buffer[i] != 0 {
        r := buffer[i];
        HandOutEntry(s, super, buffer, i);
        return;
      }
    }
    HandOutHead(s, super, buffer);
  }

  // db_allocate: removes and returns one free block, and fails exactly when there is none.
  method DbAllocate(s: Device) returns (r: Option<nat>)
    requires Ok(s.blocks, s.chain) || Broken(s.blocks)
    modifies s.log, s`blocks, s`chain
    ensures !old(Broken(s.blocks)) ==> Allocated(old(s.blocks), old(s.chain), s.blocks, s.chain, r)
    ensures r.Some? ==> FirstOut(old(s.blocks), s.blocks, r.value)
    ensures s.log.ops == old(s.log.ops) + Calls.Trace(AllocateCalls(old(s.blocks), s.blocks))
    ensures old(Broken(s.blocks)) ==>
      r.None? && Ok(s.blocks, s.chain) && s.chain == [] && OnlyAt(old(s.blocks), s.blocks, 0)
  {
    ghost var d, chain, ops := s.blocks, s.chain, s.log.ops;
    var super := SbRead(s);
    var bid := super[FREE_LIST];
    if super[NUM_FREE_BLOCK] == 0 || bid == UINT_MAX {
      if !Broken(d) { Exhausted(d, chain); }
      Refuse(s, super);
      RefusedCalls(d, s.blocks, ops, s.log.ops);
      return None;
    }
    Exhausted(d, chain);
    super := super[NUM_FREE_BLOCK := super[NUM_FREE_BLOCK] - 1];
    var buffer := s.Read(bid);
    var b := HandOut(s, super, buffer);
    r := Some(b);
    TakeAccesses(d, s.blocks, ops, s.log.ops);
  }

  lemma RefusedCalls(d: Disk, d': Disk, ops: seq<CacheSpec.Op>, ops': seq<CacheSpec.Op>)
    requires NumFree(d) == 0 || FreeHead(d) == UINT_MAX
    requires ops' == ops + Calls.Accesses(Calls.SbRead) + RefuseWrites(d, d')
    ensures ops' == ops + Calls.Trace(AllocateCalls(d, d'))
  {
    Calls.TraceOne(Calls.SbRead);
    if NumFree(d) != 0 || FreeHead(d) != UINT_MAX {
      var write := Calls.SbWrite(Bytes(W(d', 0)));
      Calls.TraceSnoc([Calls.SbRead], write);
      assert [Calls.SbRead] + [write] == [Calls.SbRead, write];
    }
  }

  // ---------- release ----------

  lemma GiveEntry(d: Disk, d': Disk, chain: seq<nat>, k: nat, b: nat)
    requires Ok(d, chain) && chain != [] && OnlyAt(d, d', chain[0])
    requires InData(d, b) && b !in FreeSet(d, chain)
    requires 1 <= k < ENTRIES && W(d, chain[0])[k] == 0 && W(d', chain[0]) == W(d, chain[0])[k := b]
    requires NumFree(d') == NumFree(d) + 1 && FreeHead(d') == FreeHead(d)
    ensures Ok(d', chain) && FreeSet(d', chain) == FreeSet(d, chain) + {b}
  {
    GiveFresh(d, chain, b);
    HeadUpdateOk(d, d', chain, k, b);
    HeadUpdate(d, d', chain, k, b);
    Counted(FreeSet(d, chain), b);
  }

  lemma GiveFresh(d: Disk, chain: seq<nat>, b: nat)
    requires ChainOk(d, chain) && InData(d, b) && b !in FreeSet(d, chain)
    ensures b != 0 && (forall c :: c in FreeSet(d, chain) ==> InData(d, c)) && 0 !in FreeSet(d, chain)
    ensures chain != [] ==> b !in Entries(W(d, chain[0])) && b != chain[0]
  {
    ChainInData(d, chain);
    assert !InData(d, 0);
  }

  lemma Counted(free: set<nat>, b: nat)
    requires b !in free
    ensures |free + {b}| == |free| + 1
  {
  }

  // A released block that becomes an index block heads the chain.
  lemma GiveHead(d: Disk, d': Disk, chain: seq<nat>, b: nat)
    requires Ok(d, chain) && OnlyAt(d, d', b)
    requires InData(d, b) && b !in FreeSet(d, chain)
    requires forall k :: 1 <= k < ENTRIES ==> W(d', b)[k] == 0
    requires chain != [] ==> W(d', b)[0] == chain[0]
    requires NumFree(d') == NumFree(d) + 1 && FreeHead(d') == b
    ensures Ok(d', [b] + chain) && FreeSet(d', [b] + chain) == FreeSet(d, chain) + {b}
  {
    GiveFrame(d, d', chain, b);
    ChainCons(d', b, chain);
    Counted(FreeSet(d, chain), b);
    assert FreeSet(d', [b] + chain) == FreeSet(d, chain) + {b};
  }

  lemma GiveFrame(d: Disk, d': Disk, chain: seq<nat>, b: nat)
    requires Sized(d) && ChainOk(d, chain) && OnlyAt(d, d', b) && b !in FreeSet(d, chain)
    ensures Sized(d') && NumBlock(d') == NumBlock(d) && ChainOk(d', chain) && FreeSet(d', chain) == FreeSet(d, chain)
  {
    ChainInData(d, chain);
    ChainFrame(d, d', chain);
  }

  lemma ChainCons(d: Disk, b: nat, chain: seq<nat>)
    requires ChainOk(d, chain) && InData(d, b) && b !in FreeSet(d, chain)
    requires forall k :: 1 <= k < ENTRIES ==> W(d, b)[k] == 0
    requires chain != [] ==> W(d, b)[0] == chain[0]
    ensures ChainOk(d, [b] + chain) && FreeSet(d, [b] + chain) == {b} + FreeSet(d, chain)
  {
    var chain' := [b] + chain;
    assert chain'[1..] == chain && chain'[0] == b;
    assert Entries(W(d, b)) == {};
  }

  // The effect of releasing block b.
  ghost predicate Released(d: Disk, chain: seq<nat>, d': Disk, chain': seq<nat>, b: nat)
  {
    && Ok(d', chain')
    && FreeSet(d', chain') == FreeSet(d, chain) + {b}
    && |d'| == |d| && SameSuper(d, d')
    && (forall c :: 0 < c < |d| && c != b && !(c == FreeHead(d) && c in FreeSet(d, chain)) ==> d'[c] == d[c])
  }

  // A data block that the list does not record yet.
  ghost predicate Returnable(d: Disk, chain: seq<nat>, b: nat)
  {
    InData(d, b) && b !in FreeSet(d, chain)
  }

  // The list of d is well formed and records exactly the blocks of `all`.
  ghost predicate Lists(d: Disk, all: set<nat>)
  {
    exists chain: seq<nat> :: Ok(d, chain) && FreeSet(d, chain) == all
  }

  lemma NotData(d: Disk, all: set<nat>, b: nat)
    requires b in all && !InData(d, b)
    ensures !Lists(d, all)
  {
    forall chain: seq<nat> | Ok(d, chain)
      ensures FreeSet(d, chain) != all
    {
      ChainInData(d, chain);
    }
  }

  lemma NotCounted(d: Disk, all: set<nat>)
    requires NumFree(d) != |all|
    ensures !Lists(d, all)
  {
  }

  // A block that is not returnable spoils the list, when the count grows or the superblock is lost.
  lemma Spoils(d: Disk, d': Disk, chain: seq<nat>, b: nat)
    requires Ok(d, chain) && !Returnable(d, chain, b)
    requires NumBlock(d') == NumBlock(d) || b == 0
    requires NumFree(d') == NumFree(d) + 1 || b == 0
    ensures !Lists(d', FreeSet(d, chain) + {b})
  {
    if b in FreeSet(d, chain) && InData(d, b) {
      assert FreeSet(d, chain) + {b} == FreeSet(d, chain);
      NotCounted(d', FreeSet(d, chain) + {b});
    } else {
      NotData(d', FreeSet(d, chain) + {b}, b);
    }
  }

  // A block with one link word and no entries, as calloc and memcpy build it.
  method LinkBlock(s: Device, link: Word, b: nat)
    requires b < |s.blocks|
    modifies s.log, s`blocks
    ensures |s.blocks| == |old(s.blocks)|
    ensures Linking(W(s.blocks, b), link)
    ensures forall c :: 0 <= c < |s.blocks| && c != b ==> s.blocks[c] == old(s.blocks[c])
    ensures s.log.ops == old(s.log.ops) + [CacheSpec.Write(b, Bytes(W(s.blocks, b)))]
  {
    var ws: WordBlock := seq(ENTRIES, _ => 0);
    s.Write(ws[0 := link], b);
  }

  // What db_free does with block b: the list takes it in exactly if it is returnable.
  ghost predicate TakenIn(d: Disk, chain: seq<nat>, d': Disk, chain': seq<nat>, b: nat)
  {
    if Returnable(d, chain, b) then Released(d, chain, d', chain', b) else !Lists(d', FreeSet(d, chain) + {b})
  }

  // What becomes of the contents: the first hole of the head index block takes b; if there is none, or no list, b
  // becomes an index block without entries, linked to the old head or to itself.
  ghost predicate FirstIn(d: Disk, d': Disk, b: nat)
  {
    var head := FreeHead(d);
    var i := FirstHole(W(d, head), 1);
    if NumFree(d) != 0 && head != UINT_MAX && i < ENTRIES then b <= UINT_MAX && W(d', head) == W(d, head)[i := b]
    else Linking(W(d', b), if NumFree(d) == 0 || head == UINT_MAX then b else head)
  }

  predicate Linking(ws: WordBlock, link: nat)
  {
    ws[0] == link && forall k :: 1 <= k < ENTRIES ==> ws[k] == 0
  }

  // The call that does so, as the device sees it; `super` is written to block 0 before anything else is.
  ghost function FreeCall(d: Disk, d': Disk, b: nat, super: Block): Calls.Call
  {
    var head := FreeHead(d);
    if b > NumBlock(d) then Calls.SbRead
    else if NumFree(d) == 0 || head == UINT_MAX then Calls.Restart(super, b, Bytes(W(d', b)))
    else if FirstHole(W(d, head), 1) < ENTRIES then Calls.ChangeEntry(head, Bytes(W(d', head)), super)
    else Calls.PushHead(head, super, b, Bytes(W(d', b)))
  }

  // What it asks of the device behind the read of the superblock.
  ghost function FreeOps(d: Disk, d': Disk, b: nat, super: Block): seq<CacheSpec.Op>
  {
    var head, first := FreeHead(d), CacheSpec.Write(0, super);
    if b > NumBlock(d) then []
    else if NumFree(d) == 0 || head == UINT_MAX then [first, CacheSpec.Write(b, Bytes(W(d', b)))]
    else if FirstHole(W(d, head), 1) < ENTRIES
    then [CacheSpec.Read(head), CacheSpec.Write(head, Bytes(W(d', head))), first]
    else [CacheSpec.Read(head), first, CacheSpec.Write(b, Bytes(W(d', b)))]
  }

  lemma FreeAccesses(d: Disk, d': Disk, b: nat, super: Block, ops: seq<CacheSpec.Op>, ops': seq<CacheSpec.Op>)
    requires ops' == ops + [CacheSpec.Read(0)] + FreeOps(d, d', b, super)
    ensures ops' == ops + Calls.Accesses(FreeCall(d, d', b, super))
  {
    assert Calls.Accesses(FreeCall(d, d', b, super)) == [CacheSpec.Read(0)] + FreeOps(d, d', b, super);
  }

  // The branch of db_free that fills hole i of the head index block.
  method FillHole(s: Device, super: SuperBlock, buffer: WordBlock, i: nat, b: nat)
    requires Ok(s.blocks, s.chain) && s.chain != [] && buffer == W(s.blocks, s.chain[0]) && b <= UINT_MAX
    requires 1 <= i < ENTRIES && buffer[i] == 0
    requires forall j :: 0 <= j < SB_WORDS ==>
      super[j] == if j == NUM_FREE_BLOCK then NumFree(s.blocks) + 1 else W(s.blocks, 0)[j]
    modifies s.log, s`blocks, s`chain
    ensures TakenIn(old(s.blocks), old(s.chain), s.blocks, s.chain, b)
    ensures W(s.blocks, old(s.chain)[0]) == buffer[i := b]
    ensures s.log.ops == old(s.log.ops) + HeadWrites(old(s.chain)[0], s.blocks)
  {
    ghost var d := s.blocks;
    WriteHead(s, buffer[i := b], super);
    Filled(d, s.blocks, s.chain, i, b);
  }

  lemma Filled(d: Disk, d': Disk, chain: seq<nat>, i: nat, b: nat)
    requires Ok(d, chain) && chain != [] && OnlyAt(d, d', chain[0]) && b <= UINT_MAX
    requires 1 <= i < ENTRIES && W(d, chain[0])[i] == 0 && W(d', chain[0]) == W(d, chain[0])[i := b]
    requires NumFree(d') == NumFree(d) + 1 && FreeHead(d') == FreeHead(d)
    ensures TakenIn(d, chain, d', chain, b)
  {
    if Returnable(d, chain, b) { GiveEntry(d, d', chain, i, b); } else { Spoils(d, d', chain, b); }
  }

  // The branch of db_free that makes b the head, linked to `link`.
  method PushHead(s: Device, super: SuperBlock, link: Word, b: nat) returns (ghost written: Block)
    requires Ok(s.blocks, s.chain) && (s.chain != [] ==> link == s.chain[0]) && b <= NumBlock(s.blocks)
    requires forall j :: 0 <= j < SB_WORDS ==>
      super[j] == if j == NUM_FREE_BLOCK then NumFree(s.blocks) + 1 else if j == FREE_LIST then b else W(s.blocks, 0)[j]
    modifies s.log, s`blocks, s`chain
    ensures TakenIn(old(s.blocks), old(s.chain), s.blocks, s.chain, b) && Linking(W(s.blocks, b), link)
    ensures b != 0 ==> written == Bytes(W(s.blocks, 0))
    ensures s.log.ops == old(s.log.ops) + [CacheSpec.Write(0, written), CacheSpec.Write(b, Bytes(W(s.blocks, b)))]
  {
    ghost var d, chain := s.blocks, s.chain;
    SbWrite(s, super);
    written := Bytes(W(s.blocks, 0));
    LinkBlock(s, link, b);
    s.chain := [b] + chain;
    Pushed(d, s.blocks, chain, link, b);
  }

  lemma Pushed(d: Disk, d': Disk, chain: seq<nat>, link: Word, b: nat)
    requires Ok(d, chain) && (chain != [] ==> link == chain[0]) && b < |d'| == |d|
    requires W(d', b)[0] == link && forall k :: 1 <= k < ENTRIES ==> W(d', b)[k] == 0
    requires b != 0 ==> OnlyAt(d, d', b) && NumFree(d') == NumFree(d) + 1 && FreeHead(d') == b
    ensures TakenIn(d, chain, d', [b] + chain, b)
  {
    if Returnable(d, chain, b) {
      assert b != 0;
      GiveHead(d, d', chain, b);
    } else {
      Spoils(d, d', chain, b);
    }
  }

  // The search of db_free: the first hole of the head index block takes b, else b becomes the head.
  method TakeIn(s: Device, super0: SuperBlock, b: nat) returns (ghost written: Block)
    requires Ok(s.blocks, s.chain) && s.chain != [] && b <= NumBlock(s.blocks)
    requires forall j :: 0 <= j < SB_WORDS ==> super0[j] == W(s.blocks, 0)[j]
    modifies s.log, s`blocks, s`chain
    ensures TakenIn(old(s.blocks), old(s.chain), s.blocks, s.chain, b) && FirstIn(old(s.blocks), s.blocks, b)
    ensures b != 0 ==> written == Bytes(W(s.blocks, 0))
    ensures s.log.ops == old(s.log.ops) + FreeOps(old(s.blocks), s.blocks, b, written)
  {
    ghost var d, chain, ops := s.blocks, s.chain, s.log.ops;
    CountBound(d, chain);
    Exhausted(d, chain);
    var super := super0[NUM_FREE_BLOCK := super0[NUM_FREE_BLOCK] + 1];
    var buffer := s.Read(super[FREE_LIST]);
    for i := 1 to ENTRIES
      invariant s.blocks == d && s.chain == chain && s.log.ops == ops + [CacheSpec.Read(chain[0])]
      invariant FirstHole(buffer, 1) == FirstHole(buffer, i)
    {
      if buffer[i] == 0 {
        FillHole(s, super, buffer, i, b);
        written := Bytes(W(s.blocks, 0));
        FilledOps(d, s.blocks, b, ops, s.log.ops);
        return;
      }
    }
    var prev := super[FREE_LIST];
    written := PushHead(s, super[FREE_LIST := b], prev, b);
    PushedOps(d, s.blocks, b, written, ops, s.log.ops);
  }

  lemma FilledOps(d: Disk, d': Disk, b: nat, ops: seq<CacheSpec.Op>, ops': seq<CacheSpec.Op>)
    requires b <= NumBlock(d) && NumFree(d) != 0 && FreeHead(d) != UINT_MAX && FirstHole(W(d, FreeHead(d)), 1) < ENTRIES
    requires ops' == ops + [CacheSpec.Read(FreeHead(d))] + HeadWrites(FreeHead(d), d')
    ensures ops' == ops + FreeOps(d, d', b, Bytes(W(d', 0)))
  {
  }

  lemma PushedOps(d: Disk, d': Disk, b: nat, super: Block, ops: seq<CacheSpec.Op>, ops': seq<CacheSpec.Op>)
    requires b <= NumBlock(d) && NumFree(d) != 0 && FreeHead(d) != UINT_MAX
    requires FirstHole(W(d, FreeHead(d)), 1) == ENTRIES
    requires ops' == ops + [CacheSpec.Read(FreeHead(d))] +
      [CacheSpec.Write(0, super), CacheSpec.Write(b, Bytes(W(d', b)))]
    ensures ops' == ops + FreeOps(d, d', b, super)
  {
  }

  // What db_free makes of an empty list: the list of b alone, exactly if b is a data block.
  ghost predicate Restarted(d: Disk, d': Disk, chain': seq<nat>, b: nat)
  {
    if InData(d, b) then Ok(d', chain') && FreeSet(d', chain') == {b} && OnlyAt(d, d', b) else !Lists(d', {b})
  }

  // The branch of db_free for an empty list: b alone is the list, linked to itself.
  method Restart(s: Device, super0: SuperBlock, b: nat) returns (ghost written: Block)
    requires Sized(s.blocks) && b <= NumBlock(s.blocks)
    requires forall j :: 0 <= j < SB_WORDS ==> super0[j] == W(s.blocks, 0)[j]
    modifies s.log, s`blocks, s`chain
    ensures Restarted(old(s.blocks), s.blocks, s.chain, b) && Linking(W(s.blocks, b), b)
    ensures b != 0 ==> written == Bytes(W(s.blocks, 0))
    ensures s.log.ops == old(s.log.ops) + [CacheSpec.Write(0, written), CacheSpec.Write(b, Bytes(W(s.blocks, b)))]
  {
    ghost var d := s.blocks;
    var super := super0[NUM_FREE_BLOCK := 1];
    super := super[FREE_LIST := b];
    SbWrite(s, super);
    written := Bytes(W(s.blocks, 0));
    LinkBlock(s, b, b);
    s.chain := [b];
    if InData(d, b) {
      ChainCons(s.blocks, b, []);
      assert [b] == [b] + [];
    } else {
      NotData(s.blocks, {b}, b);
    }
  }

  // db_free.  Ids above NUM_BLOCK are refused.  Of the others the list takes in exactly the data blocks that are not
  // free: for them it is well formed afterwards and records one block more, and for no other id (TakenExactly).
  method DbFree(s: Device, b: nat) returns (status: int, ghost super: Block)
    requires Ok(s.blocks, s.chain) || Broken(s.blocks)
    modifies s.log, s`blocks, s`chain
    ensures status == if b > NumBlock(old(s.blocks)) then -1 else 0
    ensures status == -1 ==> s.blocks == old(s.blocks) && s.chain == old(s.chain)
    ensures status == 0 && !old(Broken(s.blocks)) ==> TakenIn(old(s.blocks), old(s.chain), s.blocks, s.chain, b)
    ensures status == 0 && old(Broken(s.blocks)) ==> Restarted(old(s.blocks), s.blocks, s.chain, b)
    ensures status == 0 ==> FirstIn(old(s.blocks), s.blocks, b) && (b != 0 ==> super == Bytes(W(s.blocks, 0)))
    ensures s.log.ops == old(s.log.ops) + Calls.Accesses(FreeCall(old(s.blocks), s.blocks, b, super))
  {
    ghost var d, chain, ops := s.blocks, s.chain, s.log.ops;
    super := Bytes(W(d, 0));
    var sb := SbRead(s);
    if b > sb[NUM_BLOCK] {
      FreeAccesses(d, d, b, super, ops, s.log.ops);
      return -1, super;
    }
    if !Broken(d) { Exhausted(d, chain); }
    var bid := sb[FREE_LIST];
    if bid == UINT_MAX || sb[NUM_FREE_BLOCK] == 0 {
      super := Restart(s, sb, b);
      if !Broken(d) { RestartedIn(d, chain, s.blocks, s.chain, b); }
      FreeAccesses(d, s.blocks, b, super, ops, s.log.ops);
      return 0, super;
    }
    super := TakeIn(s, sb, b);
    FreeAccesses(d, s.blocks, b, super, ops, s.log.ops);
    status := 0;
  }

  lemma TakenExactly(d: Disk, chain: seq<nat>, d': Disk, chain': seq<nat>, b: nat)
    requires Ok(d, chain) && TakenIn(d, chain, d', chain', b)
    ensures Lists(d', FreeSet(d, chain) + {b}) <==> InData(d, b) && b !in FreeSet(d, chain)
  {
    if Returnable(d, chain, b) { assert Ok(d', chain'); }
  }

  lemma RestartedIn(d: Disk, chain: seq<nat>, d': Disk, chain': seq<nat>, b: nat)
    requires Ok(d, chain) && FreeSet(d, chain) == {} && Restarted(d, d', chain', b)
    ensures TakenIn(d, chain, d', chain', b)
  {
    assert FreeSet(d, chain) + {b} == {b};
  }

  // The counter cannot overflow: there are fewer free blocks than block ids.
  lemma CountBound(d: Disk, chain: seq<nat>)
    requires Ok(d, chain)
    ensures NumFree(d) < NumBlock(d) <= UINT_MAX
  {
    ChainInData(d, chain);
    BelowSize(NumBlock(d));
    assert !InData(d, 0);
    Smaller(FreeSet(d, chain), Below(NumBlock(d)), 0);
  }

  ghost function Below(n: nat): set<nat>
  {
    if n == 0 then {} else Below(n - 1) + {n - 1}
  }

  lemma {:induction false} BelowSize(n: nat)
    ensures |Below(n)| == n && forall c :: c in Below(n) ==> c < n
    ensures forall c: nat {:trigger c in Below(n)} :: c < n ==> c in Below(n)
  {
    if n > 0 { BelowSize(n - 1); }
  }

  lemma Smaller(a: set<nat>, b: set<nat>, x: nat)
    requires a <= b && x in b && x !in a
    ensures |a| < |b|
  {
    assert b == a + (b - a);
  }

  // ---------- the allocator as a set ----------

  ghost predicate Unsealed(w: bool)
  {
    true
  }

  // The free list of d is well formed and records exactly `free`.  The definition is sealed: it is used only where
  // Unsealed is mentioned.
  ghost predicate Records(d: Disk, chain: seq<nat>, free: set<nat>)
  {
    forall w {:trigger Unsealed(w)} :: Unsealed(w) ==> Ok(d, chain) && FreeSet(d, chain) == free
  }

  lemma RecordsFacts(d: Disk, chain: seq<nat>, free: set<nat>)
    requires Records(d, chain, free)
    ensures Sized(d) && forall c :: c in free ==> InData(d, c)
  {
    assert Unsealed(true);
    ChainInData(d, chain);
  }

  lemma Recorded(d: Disk, chain: seq<nat>)
    requires Ok(d, chain)
    ensures Records(d, chain, FreeSet(d, chain))
  {
  }

  // NUM_FREE_BLOCK is the number of free blocks.
  lemma RecordsCount(d: Disk, chain: seq<nat>, free: set<nat>)
    requires Records(d, chain, free)
    ensures NumFree(d) == |free|
  {
    assert Unsealed(true);
  }

  // Only the superblock and free blocks matter to the record.
  lemma RecordsFrame(d: Disk, d': Disk, chain: seq<nat>, free: set<nat>)
    requires Records(d, chain, free) && 0 < |d'| == |d| && d'[0] == d[0]
    requires forall c :: c in free && c < |d| ==> d'[c] == d[c]
    ensures Records(d', chain, free)
  {
    assert Unsealed(true);
    ChainFrame(d, d', chain);
  }

  // Nothing but the superblock's free-list fields and blocks of `free` has changed.
  ghost predicate OnlyFree(d: Disk, d': Disk, free: set<nat>)
  {
    |d'| == |d| && SameSuper(d, d') && forall c :: 0 < c < |d| && c !in free ==> d'[c] == d[c]
  }

  // db_allocate as seen by callers that hold a well-formed list.
  method Allocate(s: Device) returns (r: Option<nat>)
    requires Records(s.blocks, s.chain, s.free)
    modifies s.log, s`blocks, s`chain, s`free
    ensures r.None? <==> old(s.free) == {}
    ensures r.Some? ==> r.value in old(s.free) && r.value == NextFree(old(s.blocks))
    ensures s.free == if r.Some? then old(s.free) - {r.value} else old(s.free)
    ensures Records(s.blocks, s.chain, s.free) && OnlyFree(old(s.blocks), s.blocks, old(s.free))
    ensures s.log.ops == old(s.log.ops) + Calls.Trace(AllocateCalls(old(s.blocks), s.blocks))
  {
    assert Unsealed(true);
    Exhausted(s.blocks, s.chain);
    r := DbAllocate(s);
    if r.Some? {
      assert FreeHead(old(s.blocks)) in old(FreeSet(s.blocks, s.chain)) by { HeadIsFree(old(s.blocks), old(s.chain)); }
      s.free := s.free - {r.value};
    }
    Recorded(s.blocks, s.chain);
  }

  lemma HeadIsFree(d: Disk, chain: seq<nat>)
    requires Ok(d, chain) && FreeSet(d, chain) != {}
    ensures FreeHead(d) in FreeSet(d, chain)
  {
  }

  // db_free as seen by callers that hold a well-formed list and release a block they own.
  method Release(s: Device, b: nat)
    requires Records(s.blocks, s.chain, s.free) && Sized(s.blocks) && InData(s.blocks, b) && b !in s.free
    modifies s.log, s`blocks, s`chain, s`free
    ensures s.free == old(s.free) + {b}
    ensures Records(s.blocks, s.chain, s.free) && OnlyFree(old(s.blocks), s.blocks, s.free)
    ensures s.log.ops == old(s.log.ops) +
      Calls.Accesses(FreeCall(old(s.blocks), s.blocks, b, Bytes(W(s.blocks, 0))))
  {
    assert Unsealed(true);
    Exhausted(s.blocks, s.chain);
    if s.free != {} { HeadIsFree(s.blocks, s.chain); }
    var _, _ := DbFree(s, b);
    s.free := s.free + {b};
    Recorded(s.blocks, s.chain);
  }
}
