// Running a whole trace on the pointer structure of the cache.

module CacheRuns {
  import opened Blocks
  import opened CacheSpec
  import opened CacheTraces
  import opened DiskCache

  method Perform(c: Cache, op: Op) returns (out: Option<Block>)
    requires c.Valid() && !Trips(c.abs, op)
    modifies c`add, c`abs, c.list, c.list.members, c.hashTable, c.hashTable.list, c.hashTable.Repr, c.buffer, c.log
    ensures c.Valid() && c.abs == Step(old(c.abs), op) && fresh(c.hashTable.Repr - old(c.hashTable.Repr))
    ensures out == if op.Read? then Some(View(old(c.abs), op.block)) else None
    ensures c.log.ops == old(c.log.ops) + [op]
  {
    out := None;
    match op {
      case Read(b) =>
        var data := c.DiskRead(b);
        out := Some(data);
      case Write(b, data) => c.DiskWrite(data, b);
      case Bypass(b, data) => c.DiskBypass(data, b);
      case Sync => c.SyncAll();
    }
  }

  // What operation i of a trace answers on a plain array of blocks: the last value written before it.
  function Answer(raw: seq<Block>, ops: seq<Op>, i: nat): Option<Block>
    requires i < |ops| && |raw| == RAW_BLOCKS
  {
    if ops[i].Read? then Some(LastWrite(raw[Position(ops[i].block)], ops[..i], ops[i].block)) else None
  }

  // The answers to the first n operations.
  function Answers(raw: seq<Block>, ops: seq<Op>, n: nat): (r: seq<Option<Block>>)
    requires n <= |ops| && |raw| == RAW_BLOCKS
    ensures |r| == n && forall i :: 0 <= i < n ==> r[i] == Answer(raw, ops, i)
  {
    if n == 0 then [] else Answers(raw, ops, n - 1) + [Answer(raw, ops, n - 1)]
  }

  lemma AnswerSeen(k: nat, raw: seq<Block>, ops: seq<Op>, i: nat)
    requires 2 <= k && |raw| == RAW_BLOCKS && Sound(ops, k) && i < |ops|
    ensures ops[i].Read? ==> Answer(raw, ops, i) == Some(View(Run(Init(k, raw), ops[..i]), ops[i].block))
  {
    SoundAt(k, ops, i);
    if ops[i].Read? {
      PositionWraps(ops[i].block);
      SoundTransparent(k, raw, ops[..i], ops[i].block);
    }
  }

  method PerformNext(c: Cache, k: nat, raw: seq<Block>, ops: seq<Op>, i: nat) returns (out: Option<Block>)
    requires 2 <= k && |raw| == RAW_BLOCKS && Sound(ops, k) && i < |ops|
    requires c.Valid() && c.abs == Run(Init(k, raw), ops[..i])
    modifies c`add, c`abs, c.list, c.list.members, c.hashTable, c.hashTable.list, c.hashTable.Repr, c.buffer, c.log
    ensures c.Valid() && c.abs == Run(Init(k, raw), ops[..i + 1]) && fresh(c.hashTable.Repr - old(c.hashTable.Repr))
    ensures out == Answer(raw, ops, i) && c.log.ops == old(c.log.ops) + [ops[i]]
  {
    SoundAt(k, ops, i);
    TripsExactly(k, raw, ops[..i], ops[i]);
    AnswerSeen(k, raw, ops, i);
    assert ops[..i + 1][..i] == ops[..i];
    out := Perform(c, ops[i]);
  }

  ghost predicate Unsealed(w: bool)
  {
    true
  }

  // The cache after the first i operations.  Sealed: it is opened only where Unsealed is mentioned.
  ghost predicate Ran(c: Cache, k: nat, raw: seq<Block>, ops: seq<Op>, i: nat)
    requires 2 <= k && |raw| == RAW_BLOCKS && i <= |ops|
    reads c, c.list, c.list.members, c.hashTable, c.hashTable.list, c.hashTable.Repr, c.buffer, c.log
  {
    forall w {:trigger Unsealed(w)} :: Unsealed(w) ==>
      c.Valid() && c.abs == Run(Init(k, raw), ops[..i]) && c.log.ops == ops[..i]
  }

  method PerformMore(c: Cache, k: nat, raw: seq<Block>, ops: seq<Op>, i: nat, ghost j: nat, outs: seq<Option<Block>>)
    returns (outs': seq<Option<Block>>)
    requires 2 <= k && |raw| == RAW_BLOCKS && Sound(ops, k) && i < |ops| && j == i + 1
    requires Ran(c, k, raw, ops, i) && outs == Answers(raw, ops, i)
    modifies c`add, c`abs, c.list, c.list.members, c.hashTable, c.hashTable.list, c.hashTable.Repr, c.buffer, c.log
    ensures Ran(c, k, raw, ops, j) && fresh(c.hashTable.Repr - old(c.hashTable.Repr)) && outs' == Answers(raw, ops, j)
  {
    FromRan(c, k, raw, ops, i);
    var out := PerformNext(c, k, raw, ops, i);
    Longer(raw, ops, i, j);
    outs' := outs + [out];
  }

  lemma FromRan(c: Cache, k: nat, raw: seq<Block>, ops: seq<Op>, i: nat)
    requires 2 <= k && |raw| == RAW_BLOCKS && i <= |ops| && Ran(c, k, raw, ops, i)
    ensures c.Valid() && c.abs == Run(Init(k, raw), ops[..i]) && c.log.ops == ops[..i]
  {
    assert Unsealed(true);
  }

  lemma Longer(raw: seq<Block>, ops: seq<Op>, i: nat, j: nat)
    requires |raw| == RAW_BLOCKS && i < |ops| && j == i + 1
    ensures ops[..i] + [ops[i]] == ops[..j] && Answers(raw, ops, i) + [Answer(raw, ops, i)] == Answers(raw, ops, j)
  {
  }

  // A fresh cache of any capacity, run on any sound trace, answers like a plain array of blocks and ends as a
  // well-linked structure.
  method RunTrace(k: nat, raw: seq<Block>, ops: seq<Op>) returns (c: Cache, outs: seq<Option<Block>>)
    requires 2 <= k && |raw| == RAW_BLOCKS && Sound(ops, k)
    ensures c.Valid() && c.abs == Run(Init(k, raw), ops)
    ensures outs == Answers(raw, ops, |ops|) && c.log.ops == ops
  {
    c := new Cache(k, raw);
    outs := Continue(c, k, raw, ops);
    FromRan(c, k, raw, ops, |ops|);
    assert ops[..|ops|] == ops;
  }

  // The loop.
  method Continue(c: Cache, k: nat, raw: seq<Block>, ops: seq<Op>) returns (outs: seq<Option<Block>>)
    requires 2 <= k && |raw| == RAW_BLOCKS && Sound(ops, k)
    requires Ran(c, k, raw, ops, 0)
    modifies c`add, c`abs, c.list, c.list.members, c.hashTable, c.hashTable.list, c.hashTable.Repr, c.buffer, c.log
    ensures Ran(c, k, raw, ops, |ops|) && outs == Answers(raw, ops, |ops|)
  {
    outs := [];
    var i := 0;
    while i < |ops|
      invariant i <= |ops| && Ran(c, k, raw, ops, i) && fresh(c.hashTable.Repr - old(c.hashTable.Repr))
      invariant outs == Answers(raw, ops, i)
    {
      ghost var j := i + 1;
      outs := PerformMore(c, k, raw, ops, i, j, outs);
      i := i + 1;
    }
  }

  lemma {:induction false} SoundAt(k: nat, ops: seq<Op>, i: nat)
    requires 2 <= k && Sound(ops, k) && i < |ops|
    ensures Sound(ops[..i + 1], k)
    ensures Sound(ops[..i], k) && (ops[i].Sync? || ops[i].block < RAW_BLOCKS)
    ensures !(IsAccess(ops[i]) && TailHit(ops[..i], k) && IndexOf(Recency(ops[..i]), ops[i].block) == 0)
  {
    if i < |ops| - 1 {
      SoundAt(k, ops[..|ops| - 1], i);
      assert ops[..|ops| - 1][..i] == ops[..i] && ops[..|ops| - 1][..i + 1] == ops[..i + 1];
    } else {
      assert ops[..i + 1] == ops;
    }
  }
}
