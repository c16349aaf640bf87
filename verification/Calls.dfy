// What the calls of sb.c and db.c ask of the block device below them.

module Calls {
  import opened Blocks
  import opened CacheSpec

  // Every access made to a device so far.
  class Log {
    ghost var ops: seq<Op>

    constructor ()
      ensures ops == []
    {
      ops := [];
    }
  }

  // A call by the block ids and contents it passes on.
  datatype Call =
    | SbRead                                                    // also a call that refuses its block id
    | SbWrite(super: Block)
    | DbRead(b: nat)
    | DbWrite(b: nat, data: Block)
    | ChangeEntry(head: nat, data: Block, super: Block)          // db_allocate of an entry, db_free into a hole
    | HandOutHead(head: nat, super: Block)                       // db_allocate of the index block itself
    | PushHead(head: nat, super: Block, b: nat, data: Block)     // db_free where the index block is full
    | Restart(super: Block, b: nat, data: Block)                 // db_free where the list is empty

  // Its accesses.  The methods of Store and FreeList are proved to make exactly these.
  function Accesses(c: Call): (ops: seq<Op>)
    ensures ops != []
  {
    match c
    case SbRead => [Read(0)]
    case SbWrite(super) => [Write(0, super)]
    case DbRead(b) => [Read(0), Read(b)]
    case DbWrite(b, data) => [Read(0), Write(b, data)]
    case ChangeEntry(head, data, super) => [Read(0), Read(head), Write(head, data), Write(0, super)]
    case HandOutHead(head, super) => [Read(0), Read(head), Write(0, super)]
    case PushHead(head, super, b, data) => [Read(0), Read(head), Write(0, super), Write(b, data)]
    case Restart(super, b, data) => [Read(0), Write(0, super), Write(b, data)]
  }

  function Trace(calls: seq<Call>): seq<Op>
  {
    if calls == [] then [] else Trace(calls[..|calls| - 1]) + Accesses(calls[|calls| - 1])
  }

  // One more call.
  lemma TraceSnoc(calls: seq<Call>, c: Call)
    ensures Trace(calls + [c]) == Trace(calls) + Accesses(c)
  {
    assert (calls + [c])[..|calls|] == calls;
  }

  lemma Joined(a: seq<Op>, b: seq<Op>, c: seq<Op>)
    ensures a + b + c == a + (b + c)
  {
  }

  lemma TraceAfter(calls: seq<Call>, prior: seq<Call>, last: Call, more: seq<Call>, all: seq<Call>)
    requires more == prior + [last] && all == calls + prior + [last]
    requires Trace(calls + prior) == Trace(calls) + Trace(prior)
    ensures Trace(all) == Trace(calls) + Trace(more)
  {
    TraceSnoc(calls + prior, last);
    TraceSnoc(prior, last);
    Joined(Trace(calls), Trace(prior), Accesses(last));
  }

  lemma LastApart(calls: seq<Call>, more: seq<Call>)
    requires more != []
    ensures var prior, last := more[..|more| - 1], more[|more| - 1];
      more == prior + [last] && calls + more == calls + prior + [last]
  {
  }

  lemma {:induction false} TraceThen(calls: seq<Call>, more: seq<Call>)
    ensures Trace(calls + more) == Trace(calls) + Trace(more)
  {
    if more == [] {
      assert calls + more == calls;
    } else {
      var prior, last := more[..|more| - 1], more[|more| - 1];
      TraceThen(calls, prior);
      LastApart(calls, more);
      TraceAfter(calls, prior, last, more, calls + more);
    }
  }

  // A log that has grown twice.
  lemma Logged(ops0: seq<Op>, ops1: seq<Op>, ops2: seq<Op>, calls: seq<Call>, more: seq<Call>) returns (all: seq<Call>)
    requires ops1 == ops0 + Trace(calls) && ops2 == ops1 + Trace(more)
    ensures all == calls + more && ops2 == ops0 + Trace(all)
  {
    all := calls + more;
    TraceThen(calls, more);
    Joined(ops0, Trace(calls), Trace(more));
  }

  // One call alone.
  lemma TraceOne(c: Call)
    ensures Trace([c]) == Accesses(c)
  {
    TraceSnoc([], c);
    assert [] + [c] == [c];
  }
}
