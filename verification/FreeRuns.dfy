// Runs of db_allocate and db_free (db.c): the free list as a set over any client's history.

module FreeRuns {
  import opened Blocks
  import opened Store
  import opened FreeList
  import Calls

  // A client that fills every block it gets and gives back blocks of its choice.
  datatype Request = Take(data: WordBlock) | GiveBack(k: nat)

  datatype Lent = Lent(id: nat, data: WordBlock)

  ghost function Ids(held: seq<Lent>): set<nat>
  {
    set i | 0 <= i < |held| :: held[i].id
  }

  // The blocks lent are distinct, hold what the client wrote, and together with the free ones are all of `all`.
  ghost predicate Balanced(s: Device, held: seq<Lent>, all: set<nat>)
    reads s
  {
    && Records(s.blocks, s.chain, s.free)
    && (forall i, j :: 0 <= i < j < |held| ==> held[i].id != held[j].id)
    && (forall i :: 0 <= i < |held| ==>
         held[i].id !in s.free && InData(s.blocks, held[i].id) && held[i].id < |s.blocks|)
    && (forall i :: 0 <= i < |held| ==> W(s.blocks, held[i].id) == held[i].data)
    && Ids(held) + s.free == all
  }

  // Nothing outside `all` but the free-list fields of the superblock changes.
  ghost predicate Outside(d: Disk, d': Disk, all: set<nat>)
  {
    |d'| == |d| && NumBlock(d') == NumBlock(d) && forall c :: 0 < c < |d| && c !in all ==> d'[c] == d[c]
  }

  lemma IdsPush(held: seq<Lent>, x: Lent)
    ensures Ids(held + [x]) == Ids(held) + {x.id}
  {
    var held' := held + [x];
    assert held'[|held|] == x;
    forall id
      ensures id in Ids(held') <==> id in Ids(held) || id == x.id
    {
      if id in Ids(held) {
        var i :| 0 <= i < |held| && held[i].id == id;
        assert held'[i].id == id;
      }
    }
  }

  lemma IdsDrop(held: seq<Lent>, k: nat)
    requires k < |held| && forall i, j :: 0 <= i < j < |held| ==> held[i].id != held[j].id
    ensures var held' := held[..k] + held[k + 1..];
      Ids(held') == Ids(held) - {held[k].id} && forall i :: 0 <= i < |held'| ==>
        held'[i] == held[if i < k then i else i + 1]
  {
    var held' := held[..k] + held[k + 1..];
    forall i | 0 <= i < |held'|
      ensures held'[i] == held[if i < k then i else i + 1]
    {
    }
    forall id
      ensures id in Ids(held') <==> id in Ids(held) && id != held[k].id
    {
      if id in Ids(held) && id != held[k].id {
        var i :| 0 <= i < |held| && held[i].id == id;
        assert held'[if i < k then i else i - 1].id == id;
      }
      if id in Ids(held') {
        var i :| 0 <= i < |held'| && held'[i].id == id;
        assert held[if i < k then i else i + 1].id == id;
      }
    }
  }

  // db_allocate, and the client writes the block.
  method Borrow(s: Device, data: WordBlock) returns (r: Option<nat>, ghost calls: seq<Calls.Call>)
    requires Records(s.blocks, s.chain, s.free)
    modifies s.log, s`blocks, s`chain, s`free
    ensures Records(s.blocks, s.chain, s.free) && OnlyFree(old(s.blocks), s.blocks, old(s.free))
    ensures r.None? <==> old(s.free) == {}
    ensures s.free == if r.Some? then old(s.free) - {r.value} else old(s.free)
    ensures r.Some? ==>
      r.value in old(s.free) && InData(s.blocks, r.value) && r.value < |s.blocks| && W(s.blocks, r.value) == data
    ensures s.log.ops == old(s.log.ops) + Calls.Trace(calls)
  {
    RecordsFacts(s.blocks, s.chain, s.free);
    ghost var d0 := s.blocks;
    r := Allocate(s);
    calls := AllocateCalls(d0, s.blocks);
    if r.Some? {
      Calls.TraceSnoc(calls, Calls.DbWrite(r.value, Bytes(data)));
      calls := calls + [Calls.DbWrite(r.value, Bytes(data))];
      WriteLent(s, data, r.value);
    }
  }

  // db_write of a block that is not free.
  method WriteLent(s: Device, data: WordBlock, b: nat)
    requires Records(s.blocks, s.chain, s.free) && InData(s.blocks, b) && b !in s.free
    modifies s.log, s`blocks
    ensures Records(s.blocks, s.chain, s.free) && b < |old(s.blocks)| && s.blocks == old(s.blocks)[b := data]
    ensures s.log.ops == old(s.log.ops) + Calls.Accesses(Calls.DbWrite(b, Bytes(data)))
  {
    ghost var d := s.blocks;
    RecordsFacts(d, s.chain, s.free);
    var _ := DbWrite(s, data, b);
    RecordsFrame(d, s.blocks, s.chain, s.free);
  }

  lemma LentKept(d: Disk, d': Disk, free: set<nat>, held: seq<Lent>)
    requires OnlyFree(d, d', free)
    requires forall i :: 0 <= i < |held| ==> held[i].id !in free && InData(d, held[i].id) && held[i].id < |d|
    requires forall i :: 0 <= i < |held| ==> W(d, held[i].id) == held[i].data
    ensures forall i :: 0 <= i < |held| ==> W(d', held[i].id) == held[i].data
    ensures forall i :: 0 <= i < |held| ==> InData(d', held[i].id)
  {
  }

  method Lend(s: Device, held: seq<Lent>, data: WordBlock, ghost all: set<nat>)
    returns (held': seq<Lent>, ghost calls: seq<Calls.Call>)
    requires Balanced(s, held, all)
    modifies s.log, s`blocks, s`chain, s`free
    ensures Balanced(s, held', all) && Outside(old(s.blocks), s.blocks, all)
    ensures if old(s.free) == {} then held' == held
            else |held'| == |held| + 1 && held'[..|held|] == held && held'[|held|].id in old(s.free)
    ensures s.log.ops == old(s.log.ops) + Calls.Trace(calls)
  {
    ghost var d, free := s.blocks, s.free;
    var r;
    r, calls := Borrow(s, data);
    LentKept(d, s.blocks, free, held);
    if r.None? {
      return held, calls;
    }
    held' := held + [Lent(r.value, data)];
    IdsPush(held, Lent(r.value, data));
    assert Ids(held') + s.free == Ids(held) + free;
  }

  method Drop(s: Device, b: nat) returns (ghost calls: seq<Calls.Call>)
    requires Records(s.blocks, s.chain, s.free) && Sized(s.blocks) && InData(s.blocks, b) && b !in s.free
    modifies s.log, s`blocks, s`chain, s`free
    ensures s.free == old(s.free) + {b}
    ensures Records(s.blocks, s.chain, s.free) && OnlyFree(old(s.blocks), s.blocks, s.free)
    ensures s.log.ops == old(s.log.ops) + Calls.Trace(calls)
  {
    ghost var d := s.blocks;
    Release(s, b);
    calls := [FreeCall(d, s.blocks, b, Bytes(W(s.blocks, 0)))];
    Calls.TraceOne(calls[0]);
  }

  // db_free of a block the client holds.
  method Return(s: Device, held: seq<Lent>, k: nat, ghost all: set<nat>)
    returns (held': seq<Lent>, ghost calls: seq<Calls.Call>)
    requires Balanced(s, held, all) && k < |held|
    modifies s.log, s`blocks, s`chain, s`free
    ensures Balanced(s, held', all) && Outside(old(s.blocks), s.blocks, all)
    ensures held' == held[..k] + held[k + 1..] && s.free == old(s.free) + {held[k].id}
    ensures s.log.ops == old(s.log.ops) + Calls.Trace(calls)
  {
    RecordsFacts(s.blocks, s.chain, s.free);
    calls := Drop(s, held[k].id);
    RecordsFacts(s.blocks, s.chain, s.free);
    held' := held[..k] + held[k + 1..];
    IdsDrop(held, k);
  }

  method Serve(s: Device, held: seq<Lent>, request: Request, ghost all: set<nat>)
    returns (held': seq<Lent>, ghost calls: seq<Calls.Call>)
    requires Balanced(s, held, all)
    modifies s.log, s`blocks, s`chain, s`free
    ensures Balanced(s, held', all) && Outside(old(s.blocks), s.blocks, all)
    ensures s.log.ops == old(s.log.ops) + Calls.Trace(calls)
  {
    held', calls := held, [];
    match request {
      case Take(data) => held', calls := Lend(s, held, data, all);
      case GiveBack(k) =>
        if k < |held| {
          held', calls := Return(s, held, k, all);
        }
    }
  }

  lemma HeldCount(held: seq<Lent>, free: set<nat>)
    requires forall i, j :: 0 <= i < j < |held| ==> held[i].id != held[j].id
    requires forall i :: 0 <= i < |held| ==> held[i].id !in free
    ensures |Ids(held) + free| == |held| + |free|
    decreases |held|
  {
    if held == [] {
      assert Ids(held) + free == free;
    } else {
      var n := |held| - 1;
      HeldCount(held[..n], free);
      IdsPush(held[..n], held[n]);
      assert held[..n] + [held[n]] == held;
      assert held[n].id !in Ids(held[..n]);
      assert Ids(held) + free == Ids(held[..n]) + free + {held[n].id};
    }
  }

  // Any run of allocations and releases: free and lent blocks always make up the original free set, the lent ones are
  // distinct and keep what was written, NUM_FREE_BLOCK counts the free ones, and nothing else changes.  What the device
  // below sees are the accesses of `calls`.
  method RunRequests(s: Device, requests: seq<Request>) returns (held: seq<Lent>, ghost calls: seq<Calls.Call>)
    requires Records(s.blocks, s.chain, s.free)
    modifies s.log, s`blocks, s`chain, s`free
    ensures Balanced(s, held, old(s.free)) && Outside(old(s.blocks), s.blocks, old(s.free))
    ensures NumFree(s.blocks) + |held| == old(NumFree(s.blocks))
    ensures s.log.ops == old(s.log.ops) + Calls.Trace(calls)
  {
    ghost var all, ops := s.free, s.log.ops;
    RecordsCount(s.blocks, s.chain, s.free);
    held, calls := [], [];
    for i := 0 to |requests|
      invariant Balanced(s, held, all) && Outside(old(s.blocks), s.blocks, all)
      invariant s.log.ops == ops + Calls.Trace(calls)
    {
      ghost var ops1, more := s.log.ops, [];
      held, more := Serve(s, held, requests[i], all);
      calls := Calls.Logged(ops, ops1, s.log.ops, calls, more);
    }
    HeldCount(held, s.free);
    RecordsCount(s.blocks, s.chain, s.free);
  }

  // Allocating until db_allocate fails yields every free block exactly once.
  method Drain(s: Device, data: WordBlock) returns (held: seq<Lent>)
    requires Records(s.blocks, s.chain, s.free)
    modifies s.log, s`blocks, s`chain, s`free
    ensures Balanced(s, held, old(s.free)) && s.free == {} && Ids(held) == old(s.free) && |held| == |old(s.free)|
  {
    held := [];
    ghost var all := s.free;
    var more := true;
    while more
      invariant Balanced(s, held, all) && (!more ==> s.free == {})
      decreases |s.free|, more
    {
      ghost var free := s.free;
      var held', _ := Lend(s, held, data, all);
      more := |held'| > |held|;
      if more { Fewer(held, held', free, s.free, all); }
      held := held';
    }
    HeldCount(held, {});
  }

  lemma Fewer(held: seq<Lent>, held': seq<Lent>, free: set<nat>, free': set<nat>, all: set<nat>)
    requires |held'| == |held| + 1 && held'[..|held|] == held
    requires forall i, j :: 0 <= i < j < |held'| ==> held'[i].id != held'[j].id
    requires forall i :: 0 <= i < |held| ==> held[i].id !in free
    requires forall i :: 0 <= i < |held'| ==> held'[i].id !in free'
    requires Ids(held) + free == all == Ids(held') + free'
    ensures |free'| < |free|
  {
    assert forall i :: 0 <= i < |held| ==> held[i] == held'[i];
    HeldCount(held, free);
    HeldCount(held', free');
  }
}
