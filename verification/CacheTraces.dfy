// Whole runs of the block cache: transparency, LRU order and inclusion, write-back versions, and which traces are safe
// for the list code as it is written.

module CacheTraces {
  import opened Blocks
  import opened CacheSpec

  function Init(k: nat, raw: seq<Block>): State
  {
    State(seq(k, _ => Unused), raw, false)
  }

  function Run(st: State, ops: seq<Op>): (r: State)
    requires |st.raw| == RAW_BLOCKS && 2 <= |st.slots|
    ensures |r.raw| == RAW_BLOCKS && |r.slots| == |st.slots|
  {
    if ops == [] then st else
      var before := Run(st, ops[..|ops| - 1]);
      StepShape(before, ops[|ops| - 1]);
      Step(before, ops[|ops| - 1])
  }

  // Every operation of the run is admissible in the state it meets.
  predicate AdmissibleRun(st: State, ops: seq<Op>)
    requires |st.raw| == RAW_BLOCKS && 2 <= |st.slots|
  {
    ops == [] || (AdmissibleRun(st, ops[..|ops| - 1]) && Admissible(Run(st, ops[..|ops| - 1]), ops[|ops| - 1]))
  }

  // ---------- transparency ----------

  // The last value written to b, or its initial value.
  function LastWrite(initial: Block, ops: seq<Op>, b: nat): Block
  {
    if ops == [] then initial else Written(ops[|ops| - 1], b, LastWrite(initial, ops[..|ops| - 1], b))
  }

  lemma {:induction false} RunTransparent(st: State, ops: seq<Op>, b: nat)
    requires Ok(st) && AdmissibleRun(st, ops) && b < RAW_BLOCKS
    ensures Ok(Run(st, ops)) && View(Run(st, ops), b) == LastWrite(View(st, b), ops, b)
  {
    if ops != [] {
      RunTransparent(st, ops[..|ops| - 1], b);
      StepView(Run(st, ops[..|ops| - 1]), ops[|ops| - 1], b);
    }
  }

  // A write that bypasses the cache is seen by later reads exactly when the block is not cached (or is cached with
  // that very content).
  lemma BypassCoherent(st: State, b: nat, data: Block)
    requires Ok(st) && b < RAW_BLOCKS
    ensures View(Step(st, Bypass(b, data)), b) == data <==> !Cached(st, b) || View(st, b) == data
  {
    PositionWraps(b);
  }

  // Two ids that agree modulo 2^20 share a place on the device: writing one and flushing changes the other.
  lemma WrapOverwrites(b: nat, c: nat, k: nat, raw: seq<Block>, data: Block)
    requires b != c && |raw| == RAW_BLOCKS && 2 <= k && data != raw[Position(c)]
    ensures View(Run(Init(k, raw), [Write(b, data), Sync]), c) != View(Init(k, raw), c) <==>
      b % RAW_BLOCKS == c % RAW_BLOCKS
  {
    var st := Init(k, raw);
    var ops := [Write(b, data), Sync];
    FindNone(st.slots, b);
    FindNone(st.slots, c);
    var st1 := Run(st, [Write(b, data)]);
    assert ops[..1] == [Write(b, data)] && ops[..1][..0] == [];
    assert Run(st, []) == st;
    assert st1.slots == [Used(b, data, true)] + seq(k - 1, _ => Unused) && st1.raw == raw;
    var st2 := Run(st, ops);
    assert st2 == Step(st1, Sync);
    FlushOne(st1.slots, raw, k);
    FindNone(st2.slots, c);
    PositionWraps(b);
    PositionWraps(c);
  }

  lemma {:induction false} FlushOne(slots: seq<Slot>, raw: seq<Block>, n: nat)
    requires |raw| == RAW_BLOCKS && 1 <= n <= |slots|
    requires forall i :: 1 <= i < |slots| ==> slots[i].Unused?
    ensures Flush(slots, raw, n) == WriteBack(raw, slots[0])
  {
    if n > 1 { FlushOne(slots, raw, n - 1); }
  }

  // sync leaves nothing dirty and makes the raw device equal to what callers see, without changing what they see.
  lemma SyncFlushes(st: State, b: nat)
    requires Ok(st) && b < RAW_BLOCKS
    ensures var st' := Step(st, Sync);
      && (forall s | s in st'.slots :: s.Used? ==> !s.dirty)
      && st'.raw[b] == View(st', b) == View(st, b)
  {
    StepView(st, Sync, b);
    PositionWraps(b);
    var st' := Step(st, Sync);
    var i := Find(st'.slots, b);
    if i < |st'.slots| { assert Coherent(st'.slots[i], st'.raw); }
  }

  // ---------- recency ----------

  predicate IsAccess(op: Op)
  {
    op.Read? || op.Write?
  }

  function IndexOf(r: seq<nat>, b: nat): (i: nat)
    ensures i <= |r|
    ensures i < |r| ==> r[i] == b
    ensures forall j :: 0 <= j < i ==> r[j] != b
  {
    if r == [] || r[0] == b then 0 else 1 + IndexOf(r[1..], b)
  }

  function Without(r: seq<nat>, b: nat): seq<nat>
  {
    if r == [] then [] else if r[0] == b then r[1..] else [r[0]] + Without(r[1..], b)
  }

  lemma {:induction false} WithoutAt(r: seq<nat>, b: nat, m: nat)
    ensures |Without(r, b)| == if IndexOf(r, b) < |r| then |r| - 1 else |r|
    ensures m < |Without(r, b)| ==> Without(r, b)[m] == r[if m < IndexOf(r, b) then m else m + 1]
  {
    if r != [] && r[0] != b {
      WithoutAt(r[1..], b, if m > 0 then m - 1 else 0);
    }
  }

  // The blocks accessed through the cache, most recent first, each once.
  function Recency(ops: seq<Op>): seq<nat>
  {
    if ops == [] then [] else
      var last := ops[|ops| - 1];
      var r := Recency(ops[..|ops| - 1]);
      if IsAccess(last) then [last.block] + Without(r, last.block) else r
  }

  // 1 + the position of the last access to b, or 0.
  function LastAccess(ops: seq<Op>, b: nat): (n: nat)
    ensures n <= |ops|
  {
    if ops == [] then 0
    else if IsAccess(ops[|ops| - 1]) && ops[|ops| - 1].block == b then |ops|
    else LastAccess(ops[..|ops| - 1], b)
  }

  lemma RecencyIndex(ops: seq<Op>, m: nat)
    requires ops != [] && IsAccess(ops[|ops| - 1]) && 0 < m < |Recency(ops)|
    ensures var r, b := Recency(ops[..|ops| - 1]), ops[|ops| - 1].block;
      var m' := if m - 1 < IndexOf(r, b) then m - 1 else m;
      m' < |r| && Recency(ops)[m] == r[m']
  {
    WithoutAt(Recency(ops[..|ops| - 1]), ops[|ops| - 1].block, m - 1);
  }

  // Entries of Recency appear in strictly decreasing order of their last access, so each block appears once.
  lemma {:induction false} RecencyOrder(ops: seq<Op>, i: nat, j: nat)
    requires i < j < |Recency(ops)|
    ensures LastAccess(ops, Recency(ops)[i]) > LastAccess(ops, Recency(ops)[j]) > 0
  {
    var prior, last := ops[..|ops| - 1], ops[|ops| - 1];
    if IsAccess(last) {
      var r := Recency(prior);
      var l := IndexOf(r, last.block);
      RecencyIndex(ops, j);
      var j' := if j - 1 < l then j - 1 else j;
      if j' > 0 { RecencyOrder(prior, 0, j'); }
      else { RecencyFirst(prior); }
      assert r[j'] != last.block by {
        if l < j' { RecencyOrder(prior, l, j'); }
      }
      if i > 0 {
        RecencyIndex(ops, i);
        var i' := if i - 1 < l then i - 1 else i;
        RecencyOrder(prior, i', j');
        if l < i' { RecencyOrder(prior, l, i'); }
      }
    } else {
      RecencyOrder(prior, i, j);
    }
  }

  lemma {:induction false} RecencyFirst(ops: seq<Op>)
    requires Recency(ops) != []
    ensures LastAccess(ops, Recency(ops)[0]) > 0
  {
    if !IsAccess(ops[|ops| - 1]) { RecencyFirst(ops[..|ops| - 1]); }
  }

  // Recency lists every block that was accessed, and no other.
  lemma {:induction false} RecencyMembers(ops: seq<Op>, b: nat)
    ensures IndexOf(Recency(ops), b) < |Recency(ops)| <==> LastAccess(ops, b) > 0
  {
    if ops != [] {
      var prior, last := ops[..|ops| - 1], ops[|ops| - 1];
      RecencyMembers(prior, b);
      if IsAccess(last) && last.block != b {
        WithoutOther(Recency(prior), last.block, b);
      }
    }
  }

  lemma {:induction false} WithoutOther(r: seq<nat>, b: nat, c: nat)
    requires b != c
    ensures IndexOf(Without(r, b), c) < |Without(r, b)| <==> IndexOf(r, c) < |r|
  {
    if r != [] && r[0] != b { WithoutOther(r[1..], b, c); }
  }

  function Take(r: seq<nat>, k: nat): (t: seq<nat>)
    ensures |t| == if |r| <= k then |r| else k
  {
    if r == [] || k == 0 then [] else [r[0]] + Take(r[1..], k - 1)
  }

  // The blocks in the cache, in list order.
  function InUse(slots: seq<Slot>): (r: seq<nat>)
    ensures |r| <= |slots|
    ensures forall i :: 0 <= i < |r| ==> Holds(slots[i], r[i])
    ensures |r| < |slots| ==> slots[|r|].Unused?
  {
    if slots == [] || slots[0].Unused? then [] else [slots[0].block] + InUse(slots[1..])
  }

  lemma {:induction false} InUseIs(slots: seq<Slot>, r: seq<nat>)
    requires |r| <= |slots| && (forall i :: 0 <= i < |r| ==> Holds(slots[i], r[i]))
    requires |r| < |slots| ==> slots[|r|].Unused?
    ensures InUse(slots) == r
  {
    if r != [] {
      assert Holds(slots[0], r[0]);
      InUseIs(slots[1..], r[1..]);
    }
  }

  lemma InUseCons(s: Slot, slots: seq<Slot>)
    requires s.Used?
    ensures InUse([s] + slots) == [s.block] + InUse(slots)
  {
    assert ([s] + slots)[1..] == slots;
  }

  lemma WithoutCons(c: nat, r: seq<nat>, b: nat)
    requires c != b
    ensures Without([c] + r, b) == [c] + Without(r, b)
  {
    assert ([c] + r)[1..] == r;
  }

  lemma RemovedCons(slots: seq<Slot>, i: nat)
    requires 0 < i < |slots|
    ensures slots[..i] + slots[i + 1..] == [slots[0]] + (slots[1..][..i - 1] + slots[1..][i..])
  {
  }

  lemma {:induction false} InUseRemoved(slots: seq<Slot>, i: nat)
    requires Distinct(slots) && i < |slots| && slots[i].Used?
    ensures InUse(slots[..i] + slots[i + 1..]) == Without(InUse(slots), slots[i].block)
  {
    if i == 0 {
      assert slots[..0] + slots[1..] == slots[1..];
    } else {
      var rest := slots[1..];
      var kept := rest[..i - 1] + rest[i..];
      assert rest[i - 1] == slots[i] && slots[0].Used? && slots[0].block != slots[i].block;
      InUseRemoved(rest, i - 1);
      RemovedCons(slots, i);
      InUseCons(slots[0], kept);
      WithoutCons(slots[0].block, InUse(rest), slots[i].block);
    }
  }

  lemma {:induction false} InUseAbsent(slots: seq<Slot>, b: nat)
    requires Find(slots, b) == |slots|
    ensures Without(InUse(slots), b) == InUse(slots)
  {
    if slots != [] && slots[0].Used? { InUseAbsent(slots[1..], b); }
  }

  lemma {:induction false} InUsePrefix(slots: seq<Slot>, n: nat)
    requires n <= |slots|
    ensures InUse(slots[..n]) == Take(InUse(slots), n)
  {
    if n > 0 && slots[0].Used? {
      assert slots[..n][1..] == slots[1..][..n - 1];
      InUsePrefix(slots[1..], n - 1);
    }
  }

  lemma {:induction false} TakeAll(r: seq<nat>, n: nat)
    requires |r| <= n
    ensures Take(r, n) == r
  {
    if r != [] { TakeAll(r[1..], n - 1); }
  }

  lemma PromoteRecency(st: State, i: nat, s: Slot)
    requires i < |st.slots| && Distinct(st.slots) && s.Used? && Holds(st.slots[i], s.block)
    ensures InUse(Promote(st, i, s).slots) == Take([s.block] + Without(InUse(st.slots), s.block), |st.slots|)
  {
    var kept := st.slots[..i] + st.slots[i + 1..];
    assert Promote(st, i, s).slots == [s] + kept;
    InUseCons(s, kept);
    InUseRemoved(st.slots, i);
    TakeAll([s.block] + InUse(kept), |st.slots|);
  }

  lemma InsertRecency(st: State, s: Slot)
    requires |st.raw| == RAW_BLOCKS && 2 <= |st.slots| && s.Used? && !Cached(st, s.block)
    ensures InUse(Insert(st, s).slots) == Take([s.block] + Without(InUse(st.slots), s.block), |st.slots|)
  {
    var k := |st.slots|;
    var r := InUse(st.slots);
    InUseCons(s, st.slots[..k - 1]);
    InUseAbsent(st.slots, s.block);
    InUsePrefix(st.slots, k - 1);
    assert ([s.block] + r)[1..] == r;
  }

  lemma AccessRecency(st: State, b: nat, data: Option<Block>)
    requires |st.raw| == RAW_BLOCKS && 2 <= |st.slots| && Distinct(st.slots)
    ensures InUse(Access(st, b, data).slots) == Take([b] + Without(InUse(st.slots), b), |st.slots|)
    ensures Access(st, b, data).stale <==> |InUse(st.slots)| == |st.slots| && InUse(st.slots)[|st.slots| - 1] == b
  {
    var i := Find(st.slots, b);
    var s := Access(st, b, data).slots[0];
    if i < |st.slots| { PromoteRecency(st, i, s); } else { InsertRecency(st, s); }
    FindLast(st.slots, b);
    InUseFull(st.slots);
  }

  lemma InUseFull(slots: seq<Slot>)
    requires Distinct(slots) && slots != []
    ensures |InUse(slots)| == |slots| <==> slots[|slots| - 1].Used?
    ensures |InUse(slots)| == |slots| ==> Holds(slots[|slots| - 1], InUse(slots)[|slots| - 1])
  {
  }

  lemma FindLast(slots: seq<Slot>, b: nat)
    requires Distinct(slots) && slots != []
    ensures Find(slots, b) == |slots| - 1 <==> Holds(slots[|slots| - 1], b)
  {
  }

  lemma {:induction false} DistinctAfter(k: nat, raw: seq<Block>, ops: seq<Op>)
    requires 2 <= k && |raw| == RAW_BLOCKS
    ensures Distinct(Run(Init(k, raw), ops).slots)
  {
    if ops != [] {
      var st := Run(Init(k, raw), ops[..|ops| - 1]);
      DistinctAfter(k, raw, ops[..|ops| - 1]);
      StepDistinct(st, ops[|ops| - 1]);
    }
  }

  lemma StepDistinct(st: State, op: Op)
    requires |st.raw| == RAW_BLOCKS && 2 <= |st.slots| && Distinct(st.slots)
    ensures Distinct(Step(st, op).slots)
  {
    if IsAccess(op) {
      var s := Step(st, op).slots[0];
      if Cached(st, op.block) { PromoteDistinct(st, Find(st.slots, op.block), s); } else { InsertDistinct(st, s); }
    }
  }

  // Keeping only the k most recent blocks commutes with an access.
  lemma {:induction false} TakeWithout(r: seq<nat>, b: nat, k: nat)
    ensures Take(Without(Take(r, k + 1), b), k) == Take(Without(r, b), k)
  {
    if r != [] {
      if r[0] == b {
        TakeTake(r[1..], k);
      } else if k > 0 {
        TakeWithout(r[1..], b, k - 1);
      }
    }
  }

  lemma {:induction false} TakeTake(r: seq<nat>, k: nat)
    ensures Take(Take(r, k), k) == Take(r, k)
  {
    if r != [] && k > 0 { TakeTake(r[1..], k - 1); }
  }

  // The cache of capacity |st.slots| holds the most recent blocks of ops.
  predicate Tracks(st: State, ops: seq<Op>)
  {
    && 2 <= |st.slots|
    && InUse(st.slots) == Take(Recency(ops), |st.slots|)
    && (st.stale <==> TailHit(ops, |st.slots|))
  }

  lemma TakeCons(b: nat, r: seq<nat>, k: nat)
    requires 0 < k
    ensures Take([b] + r, k) == [b] + Take(r, k - 1)
  {
    assert ([b] + r)[1..] == r;
  }

  lemma {:induction false} TakeNth(r: seq<nat>, k: nat, i: nat)
    requires i < k && i < |r|
    ensures Take(r, k)[i] == r[i]
  {
    if i > 0 { TakeNth(r[1..], k - 1, i - 1); }
  }

  lemma AccessTake(r: seq<nat>, b: nat, k: nat)
    requires 0 < k
    ensures Take([b] + Without(Take(r, k), b), k) == Take([b] + Without(r, b), k)
  {
    TakeCons(b, Without(Take(r, k), b), k);
    TakeCons(b, Without(r, b), k);
    TakeWithout(r, b, k - 1);
  }

  lemma Unfold(prior: seq<Op>, last: Op, k: nat)
    requires 2 <= k
    ensures var r := Recency(prior);
      && Recency(prior + [last]) == (if IsAccess(last) then [last.block] + Without(r, last.block) else r)
      && (TailHit(prior + [last], k) <==>
            if IsAccess(last) then |r| >= k && r[k - 1] == last.block else TailHit(prior, k))
  {
    assert (prior + [last])[..|prior|] == prior;
  }

  lemma AccessUse(st: State, prior: seq<Op>, last: Op, data: Option<Block>)
    requires |st.raw| == RAW_BLOCKS && Distinct(st.slots) && Tracks(st, prior) && IsAccess(last)
    ensures InUse(Access(st, last.block, data).slots) == Take(Recency(prior + [last]), |st.slots|)
  {
    Unfold(prior, last, |st.slots|);
    AccessRecency(st, last.block, data);
    AccessTake(Recency(prior), last.block, |st.slots|);
  }

  lemma AccessStale(st: State, prior: seq<Op>, last: Op, data: Option<Block>)
    requires |st.raw| == RAW_BLOCKS && Distinct(st.slots) && Tracks(st, prior) && IsAccess(last)
    ensures Access(st, last.block, data).stale <==> TailHit(prior + [last], |st.slots|)
  {
    var k := |st.slots|;
    UnfoldHit(prior, last, k);
    AccessRecency(st, last.block, data);
    TakeLast(Recency(prior), k);
  }

  lemma UnfoldHit(prior: seq<Op>, last: Op, k: nat)
    requires 2 <= k && IsAccess(last)
    ensures TailHit(prior + [last], k) <==> |Recency(prior)| >= k && Recency(prior)[k - 1] == last.block
  {
    Unfold(prior, last, k);
  }

  lemma TakeLast(r: seq<nat>, k: nat)
    requires 0 < k
    ensures |Take(r, k)| == k <==> |r| >= k
    ensures |r| >= k ==> Take(r, k)[k - 1] == r[k - 1]
  {
    if |r| >= k { TakeNth(r, k, k - 1); }
  }

  lemma AccessTracks(st: State, prior: seq<Op>, last: Op, data: Option<Block>)
    requires |st.raw| == RAW_BLOCKS && Distinct(st.slots) && Tracks(st, prior) && IsAccess(last)
    ensures Tracks(Access(st, last.block, data), prior + [last])
  {
    AccessUse(st, prior, last, data);
    AccessStale(st, prior, last, data);
    assert |Access(st, last.block, data).slots| == |st.slots|;
  }

  lemma StepTracks(st: State, prior: seq<Op>, last: Op)
    requires |st.raw| == RAW_BLOCKS && Distinct(st.slots) && Tracks(st, prior)
    ensures Tracks(Step(st, last), prior + [last])
  {
    Unfold(prior, last, |st.slots|);
    match last {
      case Read(_) => AccessTracks(st, prior, last, None);
      case Write(_, data) => AccessTracks(st, prior, last, Some(data));
      case Bypass(_, _) =>
      case Sync => InUseIs(Step(st, last).slots, InUse(st.slots));
    }
  }

  // After any trace the cache holds exactly the k most recently accessed distinct blocks, most recent first, and the
  // head is stale exactly when the latest access hit the least recently used block of a full cache.
  lemma {:induction false} LruExact(k: nat, raw: seq<Block>, ops: seq<Op>)
    requires 2 <= k && |raw| == RAW_BLOCKS
    ensures var st := Run(Init(k, raw), ops);
      && InUse(st.slots) == Take(Recency(ops), k)
      && (st.stale <==> TailHit(ops, k))
  {
    if ops == [] {
      InUseIs(Init(k, raw).slots, []);
    } else {
      var prior, last := ops[..|ops| - 1], ops[|ops| - 1];
      LruExact(k, raw, prior);
      DistinctAfter(k, raw, prior);
      assert prior + [last] == ops;
      StepTracks(Run(Init(k, raw), prior), prior, last);
    }
  }

  // A larger cache holds, on the same trace, everything a smaller one holds, in the same order.
  lemma {:induction false} LruInclusion(k: nat, raw: seq<Block>, ops: seq<Op>)
    requires 2 <= k && |raw| == RAW_BLOCKS
    ensures InUse(Run(Init(k, raw), ops).slots) <= InUse(Run(Init(k + 1, raw), ops).slots)
  {
    InUseExactly(k, raw, ops);
    InUseExactly(k + 1, raw, ops);
    TakenInside(InUse(Run(Init(k, raw), ops).slots), InUse(Run(Init(k + 1, raw), ops).slots), Recency(ops), k);
  }

  lemma TakenInside(a: seq<nat>, b: seq<nat>, r: seq<nat>, k: nat)
    requires a == Take(r, k) && b == Take(r, k + 1)
    ensures a <= b
  {
    TakeMore(r, k);
  }

  lemma {:induction false} InUseExactly(k: nat, raw: seq<Block>, ops: seq<Op>)
    requires 2 <= k && |raw| == RAW_BLOCKS
    ensures InUse(Run(Init(k, raw), ops).slots) == Take(Recency(ops), k)
  {
    LruExact(k, raw, ops);
  }

  lemma {:induction false} TakeMore(r: seq<nat>, k: nat)
    ensures Take(r, k) <= Take(r, k + 1)
  {
    if r != [] && k > 0 { TakeMore(r[1..], k - 1); }
  }

  // ---------- safe traces ----------

  // The latest access hit the block that was least recently used in a full cache of capacity k.
  predicate TailHit(ops: seq<Op>, k: nat)
    requires 2 <= k
  {
    ops != [] &&
    var prior, last := ops[..|ops| - 1], ops[|ops| - 1];
    if IsAccess(last) then |Recency(prior)| >= k && Recency(prior)[k - 1] == last.block else TailHit(prior, k)
  }

  // No tail hit is followed, as the next access, by another access to the same block.
  predicate SafeTrace(ops: seq<Op>, k: nat)
    requires 2 <= k
  {
    ops == [] ||
    var prior, last := ops[..|ops| - 1], ops[|ops| - 1];
    && SafeTrace(prior, k)
    && !(IsAccess(last) && TailHit(prior, k) && IndexOf(Recency(prior), last.block) == 0)
  }

  // No step of the run trips over the stale head.
  predicate Untripped(st: State, ops: seq<Op>)
    requires |st.raw| == RAW_BLOCKS && 2 <= |st.slots|
  {
    ops == [] || (Untripped(st, ops[..|ops| - 1]) && !Trips(Run(st, ops[..|ops| - 1]), ops[|ops| - 1]))
  }

  lemma {:induction false} TailHitAccessed(ops: seq<Op>, k: nat)
    requires 2 <= k && TailHit(ops, k)
    ensures Recency(ops) != []
  {
    if !IsAccess(ops[|ops| - 1]) { TailHitAccessed(ops[..|ops| - 1], k); }
  }

  lemma TripsExactly(k: nat, raw: seq<Block>, prior: seq<Op>, last: Op)
    requires 2 <= k && |raw| == RAW_BLOCKS
    ensures Trips(Run(Init(k, raw), prior), last) <==>
      IsAccess(last) && TailHit(prior, k) && IndexOf(Recency(prior), last.block) == 0
  {
    LruExact(k, raw, prior);
    var st := Run(Init(k, raw), prior);
    if TailHit(prior, k) {
      TailHitAccessed(prior, k);
      assert Holds(st.slots[0], InUse(st.slots)[0]);
    }
  }

  // The list survives a trace exactly when the trace is safe, a property of the block numbers accessed alone.
  lemma {:induction false} SafeExactly(k: nat, raw: seq<Block>, ops: seq<Op>)
    requires 2 <= k && |raw| == RAW_BLOCKS
    ensures Untripped(Init(k, raw), ops) <==> SafeTrace(ops, k)
  {
    if ops != [] {
      var prior, last := ops[..|ops| - 1], ops[|ops| - 1];
      SafeExactly(k, raw, prior);
      TripsExactly(k, raw, prior, last);
    }
  }

  // ---------- what a caller has to see to ----------

  // A trace the cache gets right: ids below 2^20, bypassing writes only to blocks that are not among the k most recent,
  // and no tail hit followed by an access to the same block.
  predicate Sound(ops: seq<Op>, k: nat)
    requires 2 <= k
  {
    ops == [] ||
    var prior, last := ops[..|ops| - 1], ops[|ops| - 1];
    && Sound(prior, k)
    && (last.Sync? || last.block < RAW_BLOCKS)
    && (last.Bypass? ==>
          IndexOf(Recency(prior), last.block) >= k || IndexOf(Recency(prior), last.block) == |Recency(prior)|)
    && !(IsAccess(last) && TailHit(prior, k) && IndexOf(Recency(prior), last.block) == 0)
  }

  // The blocks in the cache are the first k of the list of recent ones.
  lemma {:induction false} InUseCached(slots: seq<Slot>, b: nat)
    requires Distinct(slots)
    ensures IndexOf(InUse(slots), b) < |InUse(slots)| <==> Find(slots, b) < |slots|
  {
    if slots != [] {
      if slots[0].Used? { InUseCached(slots[1..], b); } else { FindNone(slots, b); }
    }
  }

  lemma {:induction false} TakeIndex(r: seq<nat>, k: nat, b: nat)
    ensures IndexOf(Take(r, k), b) < |Take(r, k)| <==> IndexOf(r, b) < k && IndexOf(r, b) < |r|
  {
    if r != [] && k > 0 && r[0] != b { TakeIndex(r[1..], k - 1, b); }
  }

  lemma CachedRecent(k: nat, raw: seq<Block>, ops: seq<Op>, b: nat)
    requires 2 <= k && |raw| == RAW_BLOCKS
    ensures Cached(Run(Init(k, raw), ops), b) <==>
      IndexOf(Recency(ops), b) < k && IndexOf(Recency(ops), b) < |Recency(ops)|
  {
    LruExact(k, raw, ops);
    DistinctAfter(k, raw, ops);
    InUseCached(Run(Init(k, raw), ops).slots, b);
    TakeIndex(Recency(ops), k, b);
  }

  // Every operation is admissible in the state it meets exactly when the trace is sound.
  lemma {:induction false} SoundExactly(k: nat, raw: seq<Block>, ops: seq<Op>)
    requires 2 <= k && |raw| == RAW_BLOCKS
    ensures AdmissibleRun(Init(k, raw), ops) <==> Sound(ops, k)
  {
    if ops != [] {
      var prior, last := ops[..|ops| - 1], ops[|ops| - 1];
      SoundExactly(k, raw, prior);
      TripsExactly(k, raw, prior, last);
      if last.Bypass? { CachedRecent(k, raw, prior, last.block); }
    }
  }

  lemma InitView(k: nat, raw: seq<Block>, b: nat)
    requires 2 <= k && |raw| == RAW_BLOCKS && b < RAW_BLOCKS
    ensures Ok(Init(k, raw)) && View(Init(k, raw), b) == raw[b]
  {
    FindNone(Init(k, raw).slots, b);
    PositionWraps(b);
  }

  // After any sound trace a block reads as the last value written to it, or its initial one.
  lemma SoundTransparent(k: nat, raw: seq<Block>, ops: seq<Op>, b: nat)
    requires 2 <= k && |raw| == RAW_BLOCKS && Sound(ops, k) && b < RAW_BLOCKS
    ensures View(Run(Init(k, raw), ops), b) == LastWrite(raw[b], ops, b)
  {
    SoundExactly(k, raw, ops);
    InitView(k, raw, b);
    RunTransparent(Init(k, raw), ops, b);
  }

  // Reading a block and then writing it, as db_allocate and db_free do with the head of the free list, trips exactly
  // when the block was the least recently used one of a full cache.
  lemma ReadThenWrite(st: State, b: nat, data: Block)
    requires Ok(st) && b < RAW_BLOCKS
    ensures Trips(Step(st, Read(b)), Write(b, data)) <==> Find(st.slots, b) == |st.slots| - 1
  {
    var i := Find(st.slots, b);
    if i < |st.slots| { assert Step(st, Read(b)).slots[0] == st.slots[i]; }
  }

  // Filling the cache and then reading the oldest block twice.
  lemma UnsafeTrace()
    ensures !SafeTrace([Read(0), Read(1), Read(0), Read(0)], 2)
  {
    var a1, a2, a3 := [Read(0)], [Read(0), Read(1)], [Read(0), Read(1), Read(0)];
    var ops := [Read(0), Read(1), Read(0), Read(0)];
    assert ops[..3] == a3 && a3[..2] == a2 && a2[..1] == a1 && a1[..0] == [];
    assert Recency([]) == [];
    assert Recency(a1) == [0];
    assert Without([0], 1) == [0];
    assert Recency(a2) == [1, 0];
    assert Recency(a3)[0] == 0;
  }

  // ---------- versions on the raw device ----------

  predicate IsDirty(st: State, b: nat)
  {
    Cached(st, b) && st.slots[Find(st.slots, b)].dirty
  }

  // The values b has had, oldest first.
  function History(initial: Block, ops: seq<Op>, b: nat): (h: seq<Block>)
    ensures |h| > 0
  {
    if ops == [] then [initial] else
      var h := History(initial, ops[..|ops| - 1], b);
      var last := ops[|ops| - 1];
      if (last.Write? || last.Bypass?) && last.block == b then h + [last.data] else h
  }

  // The index in History of the value the raw device holds: the newest value unless b is dirty in the cache.
  function Version(k: nat, raw: seq<Block>, ops: seq<Op>, b: nat): nat
    requires 2 <= k && |raw| == RAW_BLOCKS && b < RAW_BLOCKS
  {
    if IsDirty(Run(Init(k, raw), ops), b) && ops != [] then Version(k, raw, ops[..|ops| - 1], b)
    else |History(raw[b], ops, b)| - 1
  }

  lemma {:induction false} HistoryEnds(initial: Block, ops: seq<Op>, b: nat)
    ensures History(initial, ops, b)[|History(initial, ops, b)| - 1] == LastWrite(initial, ops, b)
  {
    if ops != [] { HistoryEnds(initial, ops[..|ops| - 1], b); }
  }

  // A block that is dirty after a step was not written to the device by that step.
  lemma DirtyNotWritten(st: State, op: Op, b: nat)
    requires Ok(st) && (op.Sync? || op.block < RAW_BLOCKS) && (op.Bypass? ==> !Cached(st, op.block))
    requires b < RAW_BLOCKS && IsDirty(Step(st, op), b)
    ensures Step(st, op).raw[b] == st.raw[b]
  {
    var st' := Step(st, op);
    var k := |st.slots|;
    var j := Find(st'.slots, b);
    if op.Bypass? {
      PositionWraps(op.block);
    } else if IsAccess(op) && Find(st.slots, op.block) == k {
      assert Coherent(st.slots[k - 1], st.raw);
      WriteBackAt(st.raw, st.slots[k - 1]);
      if Holds(st.slots[k - 1], b) {
        FindLast(st.slots, b);
      }
    }
  }

  lemma SoundOk(k: nat, raw: seq<Block>, ops: seq<Op>)
    requires 2 <= k && |raw| == RAW_BLOCKS && Sound(ops, k)
    ensures Ok(Run(Init(k, raw), ops))
  {
    SoundExactly(k, raw, ops);
    InitView(k, raw, 0);
    RunTransparent(Init(k, raw), ops, 0);
  }

  // At every point of a sound trace each raw block holds its initial value or some value written to that block,
  // and never goes back to an older one.
  lemma {:induction false} RawVersions(k: nat, raw: seq<Block>, ops: seq<Op>, b: nat)
    requires 2 <= k && |raw| == RAW_BLOCKS && b < RAW_BLOCKS && Sound(ops, k)
    ensures var v := Version(k, raw, ops, b);
      && v < |History(raw[b], ops, b)|
      && Run(Init(k, raw), ops).raw[b] == History(raw[b], ops, b)[v]
      && (ops != [] ==> Version(k, raw, ops[..|ops| - 1], b) <= v)
  {
    var st0 := Init(k, raw);
    var st := Run(st0, ops);
    SoundOk(k, raw, ops);
    SoundTransparent(k, raw, ops, b);
    PositionWraps(b);
    HistoryEnds(raw[b], ops, b);
    if ops == [] {
    } else {
      var prior := ops[..|ops| - 1];
      RawVersions(k, raw, prior, b);
      SoundOk(k, raw, prior);
      if IsDirty(st, b) {
        SoundExactly(k, raw, ops);
        DirtyNotWritten(Run(st0, prior), ops[|ops| - 1], b);
      } else {
        var i := Find(st.slots, b);
        if i < |st.slots| { assert Coherent(st.slots[i], st.raw); }
      }
    }
  }
}
