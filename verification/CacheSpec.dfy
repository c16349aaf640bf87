// What the block cache of disk.c computes, as a state machine on values.
//
// A state lists the K cache slots in recency order (most recent first), the raw device, and whether the head of the
// list still carries the `prev` pointer it had at the tail.  Module DiskCache proves that the pointer code takes
// exactly these steps; here the steps are related to a plain array of blocks, to the trace's recency order and to
// the history of writes.

module CacheSpec {
  import opened Blocks

  datatype Slot = Unused | Used(block: nat, data: Block, dirty: bool)

  datatype State = State(slots: seq<Slot>, raw: seq<Block>, stale: bool)

  datatype Op =
    | Read(block: nat)
    | Write(block: nat, data: Block)   // disk_write with access_disk == 0
    | Bypass(block: nat, data: Block)  // disk_write with access_disk != 0
    | Sync

  predicate Holds(s: Slot, b: nat)
  {
    s.Used? && s.block == b
  }

  // Index of the slot that holds b, or |slots|.
  function Find(slots: seq<Slot>, b: nat): (i: nat)
    ensures i <= |slots|
    ensures i < |slots| ==> Holds(slots[i], b)
    ensures forall j :: 0 <= j < i ==> !Holds(slots[j], b)
  {
    if slots == [] || Holds(slots[0], b) then 0 else 1 + Find(slots[1..], b)
  }

  predicate Cached(st: State, b: nat)
  {
    Find(st.slots, b) < |st.slots|
  }

  // The block device a caller of disk_read sees.
  function View(st: State, b: nat): Block
    requires |st.raw| == RAW_BLOCKS
  {
    var i := Find(st.slots, b);
    if i < |st.slots| then st.slots[i].data else st.raw[Position(b)]
  }

  // ---------- steps ----------

  function WriteBack(raw: seq<Block>, s: Slot): (r: seq<Block>)
    requires |raw| == RAW_BLOCKS
    ensures |r| == RAW_BLOCKS
  {
    if s.Used? && s.dirty then raw[Position(s.block) := s.data] else raw
  }

  // list_add: the tail slot is written back if dirty and reused for the new block.
  function Insert(st: State, s: Slot): State
    requires |st.raw| == RAW_BLOCKS && 2 <= |st.slots|
  {
    var k := |st.slots|;
    State([s] + st.slots[..k - 1], WriteBack(st.raw, st.slots[k - 1]), false)
  }

  // list_prioritize on the slot at index i, which now holds s.
  function Promote(st: State, i: nat, s: Slot): State
    requires i < |st.slots|
  {
    State([s] + st.slots[..i] + st.slots[i + 1..], st.raw, i == |st.slots| - 1)
  }

  function Access(st: State, b: nat, data: Option<Block>): State
    requires |st.raw| == RAW_BLOCKS && 2 <= |st.slots|
  {
    var i := Find(st.slots, b);
    if i == |st.slots| then
      Insert(st, if data.Some? then Used(b, data.value, true) else Used(b, st.raw[Position(b)], false))
    else
      Promote(st, i, if data.Some? then Used(b, data.value, true) else st.slots[i])
  }

  function Clean(s: Slot): Slot
  {
    if s.Used? then s.(dirty := false) else s
  }

  // The device once the first n slots have been written back.
  function Flush(slots: seq<Slot>, raw: seq<Block>, n: nat): (r: seq<Block>)
    requires |raw| == RAW_BLOCKS && n <= |slots|
    ensures |r| == RAW_BLOCKS
  {
    if n == 0 then raw else WriteBack(Flush(slots, raw, n - 1), slots[n - 1])
  }

  function CleanSlots(slots: seq<Slot>): (r: seq<Slot>)
    ensures |r| == |slots|
    ensures forall i :: 0 <= i < |r| ==> r[i] == Clean(slots[i])
  {
    seq(|slots|, i requires 0 <= i < |slots| => Clean(slots[i]))
  }

  function Step(st: State, op: Op): State
    requires |st.raw| == RAW_BLOCKS && 2 <= |st.slots|
  {
    match op
    case Read(b) => Access(st, b, None)
    case Write(b, data) => Access(st, b, Some(data))
    case Bypass(b, data) => st.(raw := st.raw[Position(b) := data])
    case Sync => State(CleanSlots(st.slots), Flush(st.slots, st.raw, |st.slots|), st.stale)
  }

  lemma StepShape(st: State, op: Op)
    requires |st.raw| == RAW_BLOCKS && 2 <= |st.slots|
    ensures |Step(st, op).raw| == RAW_BLOCKS && |Step(st, op).slots| == |st.slots|
  {
  }

  // A hit on the head while its prev pointer is stale: list_prioritize then takes its middle case on the head.
  predicate Trips(st: State, op: Op)
  {
    (op.Read? || op.Write?) && st.stale && 0 < |st.slots| && Holds(st.slots[0], op.block)
  }

  // ---------- invariant ----------

  // Slots in use come first and hold different blocks.
  predicate Distinct(slots: seq<Slot>)
  {
    forall i, j :: 0 <= i < j < |slots| && slots[j].Used? ==> slots[i].Used? && slots[i].block != slots[j].block
  }

  // A clean slot agrees with the device.
  predicate Coherent(s: Slot, raw: seq<Block>)
    requires |raw| == RAW_BLOCKS
  {
    s.Used? ==> s.block < RAW_BLOCKS && (s.dirty || s.data == raw[s.block])
  }

  predicate Ok(st: State)
  {
    && |st.raw| == RAW_BLOCKS
    && 2 <= |st.slots|
    && Distinct(st.slots)
    && forall i :: 0 <= i < |st.slots| ==> Coherent(st.slots[i], st.raw)
  }

  // What a caller can check before an operation.
  predicate Admissible(st: State, op: Op)
  {
    && (op.Sync? || op.block < RAW_BLOCKS)
    && (op.Bypass? ==> !Cached(st, op.block))
    && !Trips(st, op)
  }

  lemma FindIs(slots: seq<Slot>, b: nat, i: nat)
    requires i < |slots| && Holds(slots[i], b)
    requires forall j :: 0 <= j < |slots| && j != i ==> !Holds(slots[j], b)
    ensures Find(slots, b) == i
  {
  }

  lemma FindNone(slots: seq<Slot>, b: nat)
    requires forall j :: 0 <= j < |slots| ==> !Holds(slots[j], b)
    ensures Find(slots, b) == |slots|
  {
  }

  lemma WriteBackAt(raw: seq<Block>, s: Slot)
    requires |raw| == RAW_BLOCKS && (s.Used? ==> s.block < RAW_BLOCKS)
    ensures WriteBack(raw, s) == if s.Used? && s.dirty then raw[s.block := s.data] else raw
  {
    if s.Used? { PositionWraps(s.block); }
  }

  lemma InsertDistinct(st: State, s: Slot)
    requires |st.raw| == RAW_BLOCKS && 2 <= |st.slots| && Distinct(st.slots) && s.Used? && !Cached(st, s.block)
    ensures Distinct(Insert(st, s).slots)
  {
    var slots' := Insert(st, s).slots;
    forall i, j | 0 <= i < j < |slots'| && slots'[j].Used?
      ensures slots'[i].Used? && slots'[i].block != slots'[j].block
    {
      assert slots'[j] == st.slots[j - 1];
      if i > 0 { assert slots'[i] == st.slots[i - 1]; }
    }
  }

  lemma PromoteDistinct(st: State, i: nat, s: Slot)
    requires i < |st.slots| && Distinct(st.slots) && s.Used? && Holds(st.slots[i], s.block)
    ensures Distinct(Promote(st, i, s).slots)
  {
    var slots' := Promote(st, i, s).slots;
    forall j, l | 0 <= j < l < |slots'| && slots'[l].Used?
      ensures slots'[j].Used? && slots'[j].block != slots'[l].block
    {
      assert slots'[l] == st.slots[if l <= i then l - 1 else l];
      if j > 0 { assert slots'[j] == st.slots[if j <= i then j - 1 else j]; }
    }
  }

  lemma InsertOk(st: State, s: Slot)
    requires Ok(st) && s.Used? && !Cached(st, s.block) && Coherent(s, st.raw)
    ensures Ok(Insert(st, s))
  {
    var k := |st.slots|;
    var st' := Insert(st, s);
    WriteBackAt(st.raw, st.slots[k - 1]);
    forall i | 0 <= i < k
      ensures Coherent(st'.slots[i], st'.raw)
    {
      if i > 0 { assert Coherent(st.slots[i - 1], st.raw); }
    }
    InsertDistinct(st, s);
  }

  lemma PromoteOk(st: State, i: nat, s: Slot)
    requires Ok(st) && i < |st.slots| && s.Used? && Holds(st.slots[i], s.block) && Coherent(s, st.raw)
    ensures Ok(Promote(st, i, s))
  {
    var st' := Promote(st, i, s);
    forall j | 0 <= j < |st'.slots|
      ensures Coherent(st'.slots[j], st'.raw)
      ensures j > 0 ==> st'.slots[j] == st.slots[if j <= i then j - 1 else j]
    {
      if j > 0 { assert Coherent(st.slots[if j <= i then j - 1 else j], st.raw); }
    }
    PromoteDistinct(st, i, s);
  }

  // Flushing the first n slots writes each dirty block once, to its own place.
  lemma {:induction false} FlushAt(slots: seq<Slot>, raw: seq<Block>, n: nat, b: nat)
    requires |raw| == RAW_BLOCKS && n <= |slots| && b < RAW_BLOCKS && Distinct(slots)
    requires forall i :: 0 <= i < |slots| ==> Coherent(slots[i], raw)
    ensures Flush(slots, raw, n)[b] ==
      var i := Find(slots, b);
      if i < n && slots[i].dirty then slots[i].data else raw[b]
  {
    if n > 0 {
      FlushAt(slots, raw, n - 1, b);
      assert Coherent(slots[n - 1], raw);
      WriteBackAt(Flush(slots, raw, n - 1), slots[n - 1]);
      if Holds(slots[n - 1], b) { FindIs(slots, b, n - 1); }
    }
  }

  lemma SyncOk(st: State)
    requires Ok(st)
    ensures Ok(Step(st, Sync))
  {
    var st' := Step(st, Sync);
    forall i | 0 <= i < |st.slots|
      ensures Coherent(st'.slots[i], st'.raw)
    {
      assert Coherent(st.slots[i], st.raw);
      if st.slots[i].Used? {
        FindIs(st.slots, st.slots[i].block, i);
        FlushAt(st.slots, st.raw, |st.slots|, st.slots[i].block);
      }
    }
  }

  lemma StepOk(st: State, op: Op)
    requires Ok(st) && (op.Sync? || op.block < RAW_BLOCKS) && (op.Bypass? ==> !Cached(st, op.block))
    ensures Ok(Step(st, op))
  {
    if op.Sync? {
      SyncOk(st);
    } else {
      var i := Find(st.slots, op.block);
      PositionWraps(op.block);
      if op.Bypass? {
        forall j | 0 <= j < |st.slots|
          ensures Coherent(st.slots[j], Step(st, op).raw)
        {
          assert Coherent(st.slots[j], st.raw);
        }
      } else if i == |st.slots| {
        InsertOk(st, Step(st, op).slots[0]);
      } else {
        assert Coherent(st.slots[i], st.raw);
        PromoteOk(st, i, Step(st, op).slots[0]);
      }
    }
  }

  // ---------- one step is transparent ----------

  function Written(op: Op, b: nat, old_: Block): Block
  {
    if (op.Write? || op.Bypass?) && op.block == b then op.data else old_
  }

  lemma InsertView(st: State, s: Slot, b: nat)
    requires Ok(st) && s.Used? && !Cached(st, s.block) && Coherent(s, st.raw) && b < RAW_BLOCKS
    ensures View(Insert(st, s), b) == if b == s.block then s.data else View(st, b)
  {
    var k := |st.slots|;
    var st' := Insert(st, s);
    var i := Find(st.slots, b);
    PositionWraps(b);
    assert Coherent(st.slots[k - 1], st.raw);
    WriteBackAt(st.raw, st.slots[k - 1]);
    InsertOk(st, s);
    if b == s.block {
    } else if i < k - 1 {
      assert st'.slots[i + 1] == st.slots[i];
      FindIs(st'.slots, b, i + 1);
    } else {
      FindNone(st'.slots, b);
    }
  }

  lemma PromoteView(st: State, i: nat, s: Slot, b: nat)
    requires Ok(st) && i < |st.slots| && s.Used? && Holds(st.slots[i], s.block) && Coherent(s, st.raw) && b < RAW_BLOCKS
    ensures View(Promote(st, i, s), b) == if b == s.block then s.data else View(st, b)
  {
    var st' := Promote(st, i, s);
    var j := Find(st.slots, b);
    PromoteOk(st, i, s);
    if b == s.block {
    } else if j < |st.slots| {
      var j' := if j < i then j + 1 else j;
      assert st'.slots[j'] == st.slots[j];
      FindIs(st'.slots, b, j');
    } else {
      FindNone(st'.slots, b);
    }
  }

  // Each operation changes the abstract device at the block it writes and nowhere else, whatever was hit, evicted,
  // written back or flushed.
  lemma StepView(st: State, op: Op, b: nat)
    requires Ok(st) && (op.Sync? || op.block < RAW_BLOCKS) && (op.Bypass? ==> !Cached(st, op.block))
    requires b < RAW_BLOCKS
    ensures Ok(Step(st, op)) && View(Step(st, op), b) == Written(op, b, View(st, b))
  {
    StepOk(st, op);
    PositionWraps(b);
    if op.Sync? {
      var i := Find(st.slots, b);
      FlushAt(st.slots, st.raw, |st.slots|, b);
      if i < |st.slots| {
        FindIs(Step(st, op).slots, b, i);
      } else {
        FindNone(Step(st, op).slots, b);
      }
    } else {
      var i := Find(st.slots, op.block);
      PositionWraps(op.block);
      if op.Bypass? {
      } else if i == |st.slots| {
        InsertView(st, Step(st, op).slots[0], b);
      } else {
        assert Coherent(st.slots[i], st.raw);
        PromoteView(st, i, Step(st, op).slots[0], b);
      }
    }
  }
}
