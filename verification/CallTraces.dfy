// The traces that the calls of sb.c and db.c put to the cache, and which of them it gets right.
//
// Every call reads the superblock first, so that block is always one of the two most recent.  The only block accessed
// twice in a row is the head of the free list, where db_allocate or db_free changes an entry of it.

module CallTraces {
  import opened Blocks
  import opened CacheSpec
  import opened CacheTraces
  import opened CacheRuns
  import opened DiskCache
  import opened Calls

  // Block b is the least recently used one of a full cache.
  predicate AtTail(ops: seq<Op>, b: nat, k: nat)
    requires 2 <= k
  {
    |Recency(ops)| >= k && Recency(ops)[k - 1] == b
  }

  // No head whose entry is changed is at the tail when the call comes.
  predicate HeadsClear(calls: seq<Call>, k: nat)
    requires 2 <= k
  {
    calls == [] ||
    var prior, last := calls[..|calls| - 1], calls[|calls| - 1];
    HeadsClear(prior, k) && (last.ChangeEntry? ==> !AtTail(Trace(prior), last.head, k))
  }

  // ---------- between accesses ----------

  // The superblock is one of the two most recent blocks, and no tail hit of it has to be minded.
  predicate Between(ops: seq<Op>, k: nat)
    requires 2 <= k
  {
    ops == [] ||
    var r := Recency(ops);
    && r != [] && (r[0] == 0 || (|r| > 1 && r[1] == 0))
    && (r[0] == 0 ==> !TailHit(ops, k))
  }

  // The superblock is the most recent block.
  predicate AfterSuper(ops: seq<Op>, k: nat)
    requires 2 <= k
  {
    Recency(ops) != [] && Recency(ops)[0] == 0 && !TailHit(ops, k)
  }

  lemma Snoc(ops: seq<Op>, op: Op, k: nat)
    requires 2 <= k && IsAccess(op)
    ensures Recency(ops + [op]) == [op.block] + Without(Recency(ops), op.block)
    ensures TailHit(ops + [op], k) <==> AtTail(ops, op.block, k)
    ensures SafeTrace(ops + [op], k) <==>
      SafeTrace(ops, k) && !(TailHit(ops, k) && IndexOf(Recency(ops), op.block) == 0)
  {
    assert (ops + [op])[..|ops|] == ops;
  }

  lemma Apart(ops: seq<Op>, i: nat, j: nat)
    requires i < j < |Recency(ops)|
    ensures Recency(ops)[i] != Recency(ops)[j]
  {
    RecencyOrder(ops, i, j);
  }

  lemma SuperAccess(ops: seq<Op>, op: Op, k: nat, b: nat)
    requires 3 <= k && Between(ops, k) && IsAccess(op) && op.block == 0
    ensures SafeTrace(ops + [op], k) <==> SafeTrace(ops, k)
    ensures AfterSuper(ops + [op], k) && (AtTail(ops + [op], b, k) <==> AtTail(ops, b, k))
  {
    var r := Recency(ops);
    Snoc(ops, op, k);
    if TailHit(ops, k) { TailHitAccessed(ops, k); }
    WithoutAt(r, 0, k - 2);
    if |r| >= k { Apart(ops, if r[0] == 0 then 0 else 1, k - 1); }
  }

  lemma OtherAccess(ops: seq<Op>, op: Op, k: nat)
    requires 3 <= k && AfterSuper(ops, k) && IsAccess(op)
    ensures SafeTrace(ops + [op], k) <==> SafeTrace(ops, k)
    ensures Between(ops + [op], k) && Recency(ops + [op]) != [] && Recency(ops + [op])[0] == op.block
    ensures TailHit(ops + [op], k) <==> AtTail(ops, op.block, k)
  {
    Snoc(ops, op, k);
    WithoutAt(Recency(ops), op.block, 0);
    if |Recency(ops)| >= k { Apart(ops, 0, k - 1); }
  }

  lemma SameAccess(ops: seq<Op>, op: Op, k: nat)
    requires 3 <= k && Between(ops, k) && IsAccess(op) && Recency(ops) != [] && Recency(ops)[0] == op.block
    ensures SafeTrace(ops + [op], k) <==> SafeTrace(ops, k) && !TailHit(ops, k)
    ensures Between(ops + [op], k)
  {
    Snoc(ops, op, k);
    assert [op.block] + Recency(ops)[1..] == Recency(ops);
    if |Recency(ops)| >= k { Apart(ops, 0, k - 1); }
  }

  // ---------- one call ----------

  lemma TwoAccesses(ops: seq<Op>, op: Op, k: nat)
    requires 3 <= k && Between(ops, k) && IsAccess(op)
    ensures var ops' := ops + [Read(0), op]; (SafeTrace(ops', k) <==> SafeTrace(ops, k)) && Between(ops', k)
    ensures op.block == 0 ==> AfterSuper(ops + [Read(0), op], k)
  {
    var ops1 := ops + [Read(0)];
    SuperAccess(ops, Read(0), k, 0);
    OtherAccess(ops1, op, k);
    if op.block == 0 { SuperAccess(ops1, op, k, 0); }
    assert ops1 + [op] == ops + [Read(0), op];
  }

  lemma ChangeAccesses(ops: seq<Op>, head: nat, data: Block, super: Block, k: nat)
    requires 3 <= k && Between(ops, k)
    ensures var ops' := ops + Accesses(ChangeEntry(head, data, super));
      (SafeTrace(ops', k) <==> SafeTrace(ops, k) && !AtTail(ops, head, k)) && Between(ops', k)
  {
    var ops1 := ops + [Read(0)];
    var ops2 := ops1 + [Read(head)];
    var ops3 := ops2 + [Write(head, data)];
    SuperAccess(ops, Read(0), k, head);
    OtherAccess(ops1, Read(head), k);
    SameAccess(ops2, Write(head, data), k);
    SuperAccess(ops3, Write(0, super), k, 0);
    assert ops3 + [Write(0, super)] == ops + Accesses(ChangeEntry(head, data, super));
  }

  lemma HeadAccesses(ops: seq<Op>, head: nat, super: Block, k: nat)
    requires 3 <= k && Between(ops, k)
    ensures var ops' := ops + [Read(0), Read(head), Write(0, super)];
      (SafeTrace(ops', k) <==> SafeTrace(ops, k)) && AfterSuper(ops', k)
  {
    var ops2 := ops + [Read(0), Read(head)];
    TwoAccesses(ops, Read(head), k);
    SuperAccess(ops2, Write(0, super), k, 0);
    assert ops2 + [Write(0, super)] == ops + [Read(0), Read(head), Write(0, super)];
  }

  lemma PushAccesses(ops: seq<Op>, head: nat, super: Block, b: nat, data: Block, k: nat)
    requires 3 <= k && Between(ops, k)
    ensures var ops' := ops + Accesses(PushHead(head, super, b, data));
      (SafeTrace(ops', k) <==> SafeTrace(ops, k)) && Between(ops', k)
  {
    var ops3 := ops + [Read(0), Read(head), Write(0, super)];
    HeadAccesses(ops, head, super, k);
    OtherAccess(ops3, Write(b, data), k);
    assert ops3 + [Write(b, data)] == ops + Accesses(PushHead(head, super, b, data));
  }

  lemma RestartAccesses(ops: seq<Op>, super: Block, b: nat, data: Block, k: nat)
    requires 3 <= k && Between(ops, k)
    ensures var ops' := ops + Accesses(Restart(super, b, data));
      (SafeTrace(ops', k) <==> SafeTrace(ops, k)) && Between(ops', k)
  {
    var ops2 := ops + [Read(0), Write(0, super)];
    TwoAccesses(ops, Write(0, super), k);
    OtherAccess(ops2, Write(b, data), k);
    assert ops2 + [Write(b, data)] == ops + Accesses(Restart(super, b, data));
  }

  lemma OneCall(ops: seq<Op>, c: Call, k: nat)
    requires 3 <= k && Between(ops, k)
    ensures Between(ops + Accesses(c), k)
    ensures SafeTrace(ops + Accesses(c), k) <==> SafeTrace(ops, k) && (c.ChangeEntry? ==> !AtTail(ops, c.head, k))
  {
    match c {
      case SbRead => SuperAccess(ops, Read(0), k, 0);
      case SbWrite(super) => SuperAccess(ops, Write(0, super), k, 0);
      case DbRead(b) => TwoAccesses(ops, Read(b), k);
      case DbWrite(b, data) => TwoAccesses(ops, Write(b, data), k);
      case ChangeEntry(head, data, super) => ChangeAccesses(ops, head, data, super, k);
      case HandOutHead(head, super) => HeadAccesses(ops, head, super, k);
      case PushHead(head, super, b, data) => PushAccesses(ops, head, super, b, data, k);
      case Restart(super, b, data) => RestartAccesses(ops, super, b, data, k);
    }
  }

  // ---------- runs of calls ----------

  // With three buffers or more, any run of calls leaves the list of the cache intact exactly if db_allocate and db_free
  // never change an entry of an index block that is the least recently used block of a full cache.
  lemma {:induction false} CallsSafe(calls: seq<Call>, k: nat)
    requires 3 <= k
    ensures Between(Trace(calls), k) && (SafeTrace(Trace(calls), k) <==> HeadsClear(calls, k))
  {
    if calls != [] {
      var prior, last := calls[..|calls| - 1], calls[|calls| - 1];
      CallsSafe(prior, k);
      OneCall(Trace(prior), last, k);
    }
  }

  // The block ids are ones that 32-bit offsets can address.
  predicate Addressed(ops: seq<Op>)
  {
    forall i :: 0 <= i < |ops| && !ops[i].Sync? ==> ops[i].block < RAW_BLOCKS
  }

  lemma {:induction false} AccessesSound(ops: seq<Op>, k: nat)
    requires 2 <= k && forall i :: 0 <= i < |ops| ==> IsAccess(ops[i])
    ensures Sound(ops, k) <==> SafeTrace(ops, k) && Addressed(ops)
  {
    if ops != [] {
      var prior := ops[..|ops| - 1];
      AccessesSound(prior, k);
      assert Addressed(ops) <==> Addressed(prior) && ops[|ops| - 1].block < RAW_BLOCKS;
    }
  }

  lemma {:induction false} TraceAccesses(calls: seq<Call>)
    ensures forall i :: 0 <= i < |Trace(calls)| ==> IsAccess(Trace(calls)[i])
  {
    if calls != [] { TraceAccesses(calls[..|calls| - 1]); }
  }

  // The cache gets a run of calls right exactly if that is so and the ids can be addressed.
  lemma CallsSound(calls: seq<Call>, k: nat)
    requires 3 <= k
    ensures Sound(Trace(calls), k) <==> HeadsClear(calls, k) && Addressed(Trace(calls))
  {
    CallsSafe(calls, k);
    TraceAccesses(calls);
    AccessesSound(Trace(calls), k);
  }

  // On such a run the pointer structure of the cache answers like a plain array of blocks.
  method RunCalls(k: nat, raw: seq<Block>, calls: seq<Call>) returns (c: Cache, outs: seq<Option<Block>>)
    requires 3 <= k && |raw| == RAW_BLOCKS && HeadsClear(calls, k) && Addressed(Trace(calls))
    ensures c.Valid() && outs == Answers(raw, Trace(calls), |Trace(calls)|)
  {
    CallsSound(calls, k);
    c, outs := RunTrace(k, raw, Trace(calls));
  }
}
