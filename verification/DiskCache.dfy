// The write-back LRU block cache of disk.c: recency list, hash index, buffer pool and device.

module DiskCache {
  import opened Blocks
  import opened CacheSpec
  import opened RecencyList
  import opened HashTable
  import Calls

  class Cache {
    const list: List
    const hashTable: Table
    const buffer: array<Block>
    // The file behind the cache, one block for each offset that 32 bits can express.
    var add: seq<Block>
    // The state of CacheSpec that the structure represents.
    ghost var abs: State
    // Every operation performed.
    const log: Calls.Log
    // The list nodes by buffer id.
    ghost const pool: seq<ListNode>

    ghost predicate Sized()
      reads this, list
    {
      && 2 <= |list.order| == buffer.Length == hashTable.list.Length == |pool|
      && (forall i :: 0 <= i < |list.order| ==> list.order[i] in list.members)
      && |add| == RAW_BLOCKS
      && (forall n :: n in list.members ==> n.bufferId < |pool| && pool[n.bufferId] == n)
    }

    ghost predicate Indexes(h: HashNode, b: nat)
      reads this, list.members
    {
      var n := h.listNode;
      n in list.members && h.bufferId == n.bufferId && n.inHash && n.blockId == b
    }

    // The hash index lists exactly the nodes in use, `spare` aside.
    ghost predicate Covers(spare: ListNode?)
      reads this, list.members, hashTable
    {
      && (forall b :: b in hashTable.index ==> Indexes(hashTable.index[b], b) && hashTable.index[b].listNode != spare)
      && (forall n :: n in list.members && n != spare && (n.inHash || n.dirty) ==>
            n.inHash && n.blockId in hashTable.index && hashTable.index[n.blockId].listNode == n)
    }

    // Index, nodes, buffers and device agree.  Nothing here depends on the list pointers.
    ghost predicate Coherent()
      reads this, list, list.members, hashTable, hashTable.list, hashTable.Repr
    {
      Sized() && hashTable.Valid() && Covers(null)
    }

    ghost function SlotAt(n: ListNode): Slot
      requires n.bufferId < buffer.Length
      reads n, buffer
    {
      if n.inHash then Used(n.blockId, buffer[n.bufferId], n.dirty) else Unused
    }

    // The nodes in list order, with their buffers and the device, are the state st.
    ghost predicate Matches(st: State)
      requires Sized() && list.Valid()
      reads this, list, list.members, buffer
    {
      && st.raw == add && st.stale == list.Stale()
      && |st.slots| == |list.order| && forall i :: 0 <= i < |st.slots| ==> st.slots[i] == SlotAt(list.order[i])
    }

    ghost predicate Valid()
      reads this, list, list.members, hashTable, hashTable.list, hashTable.Repr, buffer
    {
      Coherent() && list.Valid() && Matches(abs)
    }

    // initialize: allocate_disk, allocate_cache, list_init and hash_init over a device with contents raw.
    constructor (k: nat, raw: seq<Block>)
      requires 2 <= k && |raw| == RAW_BLOCKS
      ensures Valid() && abs == State(seq(k, _ => Unused), raw, false)
      ensures fresh(list) && fresh(list.members) && fresh(hashTable) && fresh(hashTable.list) && fresh(hashTable.Repr)
      ensures fresh(buffer) && fresh(log) && log.ops == []
    {
      add := raw;
      log := new Calls.Log();
      buffer := new Block[k](_ => seq(DB_SIZE, _ => 0));
      var l := new List(k);
      list, pool := l, l.order;
      hashTable := new Table(k);
      abs := State(seq(k, _ => Unused), raw, false);
    }

    ghost method Note(op: Op)
      requires Valid()
      modifies log
      ensures Valid() && log.ops == old(log.ops) + [op]
    {
      log.ops := log.ops + [op];
    }

    // Searching the index and searching the slots find the same node.
    lemma FindIndexed(b: nat)
      requires Valid()
      ensures b in hashTable.index <==> Find(abs.slots, b) < |list.order|
      ensures b in hashTable.index ==> hashTable.index[b].listNode == list.order[Find(abs.slots, b)]
    {
      var i := Find(abs.slots, b);
      if b in hashTable.index {
        assert Indexes(hashTable.index[b], b);
        assert Appears(hashTable.index[b].listNode, list.order);
        var j := IndexIn(list.order, hashTable.index[b].listNode);
        assert Holds(abs.slots[j], b);
      }
    }

    // cache_to_disk
    method CacheToDisk(bufferId: nat, b: nat)
      requires |add| == RAW_BLOCKS && bufferId < buffer.Length
      modifies this`add
      ensures add == old(add)[Position(b) := buffer[bufferId]]
    {
      add := add[Position(b) := buffer[bufferId]];
    }

    // First part of list_add: the tail's block is written back if dirty and unhashed.
    method Evict(end: ListNode)
      requires Coherent() && end in list.members
      modifies this`add, hashTable, hashTable.list, hashTable.Repr
      ensures Sized() && hashTable.Valid() && hashTable.Repr == old(hashTable.Repr)
      ensures Covers(end) && hashTable.index.Keys <= old(hashTable.index.Keys)
      ensures add == WriteBack(old(add), SlotAt(end))
    {
      if end.inHash {
        if end.dirty {
          CacheToDisk(end.bufferId, end.blockId);
        }
        var _ := hashTable.Delete(end.blockId);
      }
    }

    // Second part of list_add: the freed node and its buffer take the new block.
    method Fill(end: ListNode, b: nat, data: Block, dirty: bool)
      requires Sized() && list.Valid() && end in list.members && Covers(end)
      modifies end`blockId, end`dirty, end`inHash, buffer
      ensures Sized() && list.Valid() && Covers(end) && end.inHash && end.blockId == b
      ensures SlotAt(end) == Used(b, data, dirty)
      ensures forall n :: n in list.members && n != end ==> SlotAt(n) == old(SlotAt(n))
    {
      buffer[end.bufferId] := data;
      end.blockId, end.dirty, end.inHash := b, dirty, true;
    }

    // Third part of list_add: hash_insert.
    method Hash(end: ListNode)
      requires Sized() && hashTable.Valid() && end in list.members && end.inHash && Covers(end)
      requires end.blockId !in hashTable.index
      modifies hashTable, hashTable.list
      ensures Coherent() && fresh(hashTable.Repr - old(hashTable.Repr))
    {
      var _ := hashTable.Insert(end.blockId, end.bufferId, end);
    }

    // The second and third parts.
    method Refill(end: ListNode, b: nat, data: Block, dirty: bool)
      requires Sized() && list.Valid() && hashTable.Valid() && end in list.members && Covers(end)
      requires b !in hashTable.index
      modifies end`blockId, end`dirty, end`inHash, hashTable, hashTable.list, buffer
      ensures Coherent() && list.Valid() && fresh(hashTable.Repr - old(hashTable.Repr))
      ensures SlotAt(end) == Used(b, data, dirty)
      ensures forall n :: n in list.members && n != end ==> SlotAt(n) == old(SlotAt(n))
    {
      Fill(end, b, data, dirty);
      Hash(end);
    }

    // The tail node is emptied and reused for block b.
    method Reuse(end: ListNode, b: nat, data: Block, dirty: bool)
      requires Coherent() && list.Valid() && end in list.members && b !in hashTable.index
      modifies this`add, list.members`blockId, list.members`dirty, list.members`inHash
      modifies hashTable, hashTable.list, hashTable.Repr, buffer
      ensures Coherent() && list.Valid() && fresh(hashTable.Repr - old(hashTable.Repr))
      ensures add == old(WriteBack(add, SlotAt(end))) && SlotAt(end) == Used(b, data, dirty)
      ensures forall n :: n in list.members && n != end ==> SlotAt(n) == old(SlotAt(n))
    {
      Evict(end);
      assert forall n :: n in list.members ==> SlotAt(n) == old(SlotAt(n));
      Refill(end, b, data, dirty);
    }

    // The pointers move the tail to the head; nothing else changes.
    method Recycle()
      requires Coherent() && list.Valid()
      modifies list, list.members`next, list.members`prev
      ensures Coherent() && list.Valid() && !list.Stale()
      ensures list.order == Moved(old(list.order), |old(list.order)| - 1)
      ensures forall n :: n in list.members ==> SlotAt(n) == old(SlotAt(n))
    {
      list.Recycle();
    }

    // The same, with what the list then shows.
    method Lift()
      requires Coherent() && list.Valid()
      modifies list, list.members`next, list.members`prev
      ensures Coherent() && list.Valid() && !list.Stale() && |list.order| == old(|list.order|)
      ensures SlotAt(list.order[0]) == old(SlotAt(list.tail))
      ensures forall j :: 0 < j < |list.order| ==> SlotAt(list.order[j]) == old(SlotAt(list.order[j - 1]))
    {
      Recycle();
    }

    // Last part of list_add: the reused tail becomes the head, so that the list shows st.
    method Surface(ghost st: State)
      requires Coherent() && list.Valid() && st.raw == add && !st.stale && |st.slots| == |list.order|
      requires st.slots[0] == SlotAt(list.tail)
      requires forall j :: 0 < j < |st.slots| ==> st.slots[j] == SlotAt(list.order[j - 1])
      modifies this`abs, list, list.members`next, list.members`prev
      ensures Valid() && abs == st
    {
      abs := st;
      Lift();
    }

    lemma InsertShows(st: State, s: Slot)
      requires Valid() && st == Insert(abs, s)
      ensures |st.slots| == |list.order| && st.slots[0] == s && !st.stale
      ensures list.tail in list.members && st.raw == WriteBack(add, SlotAt(list.tail))
      ensures forall j :: 0 < j < |st.slots| ==>
        list.order[j - 1] != list.tail && st.slots[j] == SlotAt(list.order[j - 1])
    {
      OnlyAt(list.order, |list.order| - 1);
    }

    // list_add
    method ListAdd(b: nat, data: Block, dirty: bool)
      requires Valid() && b !in hashTable.index
      modifies this`add, this`abs, list, list.members, hashTable, hashTable.list, hashTable.Repr, buffer
      ensures Valid() && fresh(hashTable.Repr - old(hashTable.Repr))
      ensures abs == Insert(old(abs), Used(b, data, dirty))
    {
      ghost var st := Insert(abs, Used(b, data, dirty));
      InsertShows(st, Used(b, data, dirty));
      Reuse(list.tail, b, data, dirty);
      Surface(st);
    }

    // The pointers move a node to the front; nothing else changes.
    method Relink(node: ListNode)
      requires Coherent() && list.Valid() && node in list.members && Appears(node, list.order)
      modifies list, list.members`next, list.members`prev
      ensures Coherent() && |list.order| == old(|list.order|)
      ensures list.Valid() <==> !old(list.Stale() && node == list.head)
      ensures list.Valid() ==> var i := IndexIn(old(list.order), node);
        list.order == Moved(old(list.order), i) && (list.Stale() <==> i == |list.order| - 1)
      ensures forall n :: n in list.members ==> SlotAt(n) == old(SlotAt(n))
    {
      list.Prioritize(node);
    }

    // The same, with what the list then shows.
    method Shift(node: ListNode, ghost i: nat)
      requires Coherent() && list.Valid() && i < |list.order| && node == list.order[i]
      modifies list, list.members`next, list.members`prev
      ensures Coherent() && |list.order| == old(|list.order|)
      ensures list.Valid() <==> !old(list.Stale() && i == 0)
      ensures list.Valid() ==> (list.Stale() <==> i == |list.order| - 1) && SlotAt(list.order[0]) == old(SlotAt(node))
      ensures list.Valid() ==> forall j :: 0 < j < |list.order| ==>
        SlotAt(list.order[j]) == old(SlotAt(list.order[if j <= i then j - 1 else j]))
    {
      OnlyAt(list.order, i);
      Relink(node);
    }

    // list_prioritize on the node at index i: the list then shows st, unless the stale head is hit.
    method ListPrioritize(node: ListNode, ghost i: nat, ghost st: State)
      requires Coherent() && list.Valid() && i < |list.order| && node == list.order[i]
      requires st.raw == add && st.stale == (i == |list.order| - 1) && |st.slots| == |list.order|
      requires st.slots[0] == SlotAt(node)
      requires forall j :: 0 < j < |st.slots| ==> st.slots[j] == SlotAt(list.order[if j <= i then j - 1 else j])
      modifies this`abs, list, list.members`next, list.members`prev
      ensures Coherent()
      ensures list.Valid() <==> !old(list.Stale() && i == 0)
      ensures list.Valid() ==> Matches(abs) && abs == st
    {
      abs := st;
      Shift(node, i);
    }

    // The hit half of disk_write: the buffer takes the data and the node becomes dirty.
    method Overwrite(node: ListNode, data: Block)
      requires Coherent() && list.Valid() && node in list.members && node.inHash
      modifies buffer, node`dirty
      ensures Coherent() && list.Valid() && SlotAt(node) == Used(node.blockId, data, true)
      ensures forall n :: n in list.members && n != node ==> SlotAt(n) == old(SlotAt(n))
    {
      buffer[node.bufferId] := data;
      node.dirty := true;
    }

    method OverwriteAt(node: ListNode, ghost i: nat, data: Block, ghost st: State)
      requires Valid() && i < |list.order| && node == list.order[i] && node in list.members && node.inHash
      requires st == Promote(abs, i, Used(node.blockId, data, true))
      modifies buffer, node`dirty
      ensures Coherent() && list.Valid() && list.Stale() == old(list.Stale()) && |st.slots| == |list.order|
      ensures st.raw == add && st.stale == (i == |list.order| - 1) && st.slots[0] == SlotAt(node)
      ensures forall j :: 0 < j < |st.slots| ==> st.slots[j] == SlotAt(list.order[if j <= i then j - 1 else j])
    {
      OnlyAt(list.order, i);
      assert forall j :: 0 < j < |st.slots| ==> st.slots[j] == abs.slots[if j <= i then j - 1 else j];
      Overwrite(node, data);
    }

    // The hit half of disk_write, with its promotion.
    method Rewrite(node: ListNode, ghost i: nat, data: Block, ghost st: State)
      requires Valid() && i < |list.order| && node == list.order[i] && node in list.members && node.inHash
      requires st == Promote(abs, i, Used(node.blockId, data, true))
      modifies this`abs, list, list.members`next, list.members`prev, buffer, node`dirty
      ensures Coherent()
      ensures list.Valid() <==> !(old(abs).stale && i == 0)
      ensures list.Valid() ==> Matches(abs) && abs == st
    {
      OverwriteAt(node, i, data, st);
      ListPrioritize(node, i, st);
    }

    // The hit half of disk_read.
    method Touch(node: ListNode, ghost i: nat, ghost st: State)
      requires Valid() && i < |list.order| && node == list.order[i] && st == Promote(abs, i, abs.slots[i])
      modifies this`abs, list, list.members`next, list.members`prev
      ensures Coherent()
      ensures list.Valid() <==> !(old(abs).stale && i == 0)
      ensures list.Valid() ==> Matches(abs) && abs == st
    {
      assert forall j :: 0 < j < |st.slots| ==> st.slots[j] == abs.slots[if j <= i then j - 1 else j];
      ListPrioritize(node, i, st);
    }

    lemma ReadHit(b: nat)
      requires Valid() && b in hashTable.index
      ensures var i, node := Find(abs.slots, b), hashTable.index[b].listNode;
        && i < |list.order| && node == list.order[i] && hashTable.index[b].bufferId < buffer.Length
        && View(abs, b) == buffer[hashTable.index[b].bufferId]
        && Step(abs, Read(b)) == Promote(abs, i, abs.slots[i])
        && (Trips(abs, Read(b)) <==> abs.stale && i == 0)
    {
      FindIndexed(b);
      assert Indexes(hashTable.index[b], b);
    }

    lemma ReadMiss(b: nat)
      requires Valid() && b !in hashTable.index
      ensures View(abs, b) == add[Position(b)] && !Trips(abs, Read(b))
      ensures Step(abs, Read(b)) == Insert(abs, Used(b, add[Position(b)], false))
    {
      FindIndexed(b);
    }

    // The miss half of disk_read...
    method Load(b: nat) returns (out: Block)
      requires Valid() && b !in hashTable.index
      modifies this`add, this`abs, list, list.members, hashTable, hashTable.list, hashTable.Repr, buffer
      ensures Valid() && fresh(hashTable.Repr - old(hashTable.Repr))
      ensures out == View(old(abs), b) && abs == Step(old(abs), Read(b)) && !Trips(old(abs), Read(b))
    {
      ReadMiss(b);
      out := add[Position(b)];
      ListAdd(b, out, false);
    }

    // ... and the hit half.
    method Serve(h: HashNode, b: nat) returns (out: Block)
      requires Valid() && b in hashTable.index && h == hashTable.index[b]
      modifies this`abs, list, list.members`next, list.members`prev
      ensures Coherent() && out == View(old(abs), b)
      ensures list.Valid() <==> !Trips(old(abs), Read(b))
      ensures list.Valid() ==> Matches(abs) && abs == Step(old(abs), Read(b))
    {
      ReadHit(b);
      out := buffer[h.bufferId];
      Touch(h.listNode, Find(abs.slots, b), Step(abs, Read(b)));
    }

    method Fetch(b: nat) returns (out: Block)
      requires Valid()
      modifies this`add, this`abs, list, list.members, hashTable, hashTable.list, hashTable.Repr, buffer
      ensures out == View(old(abs), b)
      ensures Coherent() && fresh(hashTable.Repr - old(hashTable.Repr))
      ensures list.Valid() <==> !Trips(old(abs), Read(b))
      ensures list.Valid() ==> Matches(abs) && abs == Step(old(abs), Read(b))
    {
      var h := hashTable.Find(b);
      if h == null {
        out := Load(b);
      } else {
        out := Serve(h, b);
      }
    }

    // disk_read.  The data is right on every call; the structure survives unless the call hits the stale head.
    method DiskRead(b: nat) returns (out: Block)
      requires Valid()
      modifies this`add, this`abs, list, list.members, hashTable, hashTable.list, hashTable.Repr, buffer, log
      ensures out == View(old(abs), b) && log.ops == old(log.ops) + [Read(b)]
      ensures Coherent() && fresh(hashTable.Repr - old(hashTable.Repr))
      ensures list.Valid() <==> !Trips(old(abs), Read(b))
      ensures list.Valid() ==> Matches(abs) && abs == Step(old(abs), Read(b))
    {
      Note(Read(b));
      out := Fetch(b);
    }

    lemma IndexedMember(b: nat)
      requires Valid() && b in hashTable.index
      ensures hashTable.index[b].listNode in list.members
    {
      assert Indexes(hashTable.index[b], b);
    }

    lemma WriteHit(b: nat, data: Block)
      requires Valid() && b in hashTable.index
      ensures var i, node := Find(abs.slots, b), hashTable.index[b].listNode;
        && i < |list.order| && node == list.order[i] && node in list.members && node.inHash && node.blockId == b
        && Step(abs, Write(b, data)) == Promote(abs, i, Used(b, data, true))
        && (Trips(abs, Write(b, data)) <==> abs.stale && i == 0)
    {
      FindIndexed(b);
      assert Indexes(hashTable.index[b], b);
    }

    lemma WriteMiss(b: nat, data: Block)
      requires Valid() && b !in hashTable.index
      ensures !Trips(abs, Write(b, data)) && Step(abs, Write(b, data)) == Insert(abs, Used(b, data, true))
    {
      FindIndexed(b);
    }

    method Update(h: HashNode, data: Block, b: nat)
      requires Valid() && b in hashTable.index && h == hashTable.index[b]
      modifies this`abs, list, list.members`next, list.members`prev, buffer, h.listNode`dirty
      ensures Coherent()
      ensures list.Valid() <==> !Trips(old(abs), Write(b, data))
      ensures list.Valid() ==> Matches(abs) && abs == Step(old(abs), Write(b, data))
    {
      WriteHit(b, data);
      Rewrite(h.listNode, Find(abs.slots, b), data, Step(abs, Write(b, data)));
    }

    method Admit(data: Block, b: nat)
      requires Valid() && b !in hashTable.index
      modifies this`add, this`abs, list, list.members, hashTable, hashTable.list, hashTable.Repr, buffer
      ensures Valid() && fresh(hashTable.Repr - old(hashTable.Repr))
      ensures abs == Step(old(abs), Write(b, data)) && !Trips(old(abs), Write(b, data))
    {
      WriteMiss(b, data);
      ListAdd(b, data, true);
    }

    method Put(data: Block, b: nat)
      requires Valid()
      modifies this`add, this`abs, list, list.members, hashTable, hashTable.list, hashTable.Repr, buffer
      ensures Coherent() && fresh(hashTable.Repr - old(hashTable.Repr))
      ensures list.Valid() <==> !Trips(old(abs), Write(b, data))
      ensures list.Valid() ==> Matches(abs) && abs == Step(old(abs), Write(b, data))
    {
      var h := hashTable.Find(b);
      if h == null {
        Admit(data, b);
      } else {
        IndexedMember(b);
        Update(h, data, b);
      }
    }

    // disk_write without access_disk.
    method DiskWrite(data: Block, b: nat)
      requires Valid()
      modifies this`add, this`abs, list, list.members, hashTable, hashTable.list, hashTable.Repr, buffer, log
      ensures log.ops == old(log.ops) + [Write(b, data)]
      ensures Coherent() && fresh(hashTable.Repr - old(hashTable.Repr))
      ensures list.Valid() <==> !Trips(old(abs), Write(b, data))
      ensures list.Valid() ==> Matches(abs) && abs == Step(old(abs), Write(b, data))
    {
      Note(Write(b, data));
      Put(data, b);
    }

    // disk_write with access_disk: the device changes behind the cache.
    method DiskBypass(data: Block, b: nat)
      requires Valid()
      modifies this`add, this`abs, log
      ensures Valid() && abs == Step(old(abs), Bypass(b, data)) && log.ops == old(log.ops) + [Bypass(b, data)]
    {
      Note(Bypass(b, data));
      add := add[Position(b) := data];
      abs := abs.(raw := add);
    }

    // sync has dealt with the first i nodes of the list that showed st.
    ghost predicate Flushed(st: State, i: nat)
      reads this, list, list.members, hashTable, hashTable.list, hashTable.Repr, buffer
    {
      && Coherent() && list.Valid() && |st.raw| == RAW_BLOCKS && i <= |list.order| == |st.slots|
      && st.stale == list.Stale() && add == Flush(st.slots, st.raw, i)
      && forall j :: 0 <= j < |list.order| ==>
           SlotAt(list.order[j]) == if j < i then Clean(st.slots[j]) else st.slots[j]
    }

    // The body of the loop of sync.
    method FlushNode(node: ListNode)
      requires Coherent() && list.Valid() && node in list.members
      modifies this`add, node`dirty
      ensures Coherent() && list.Valid() && list.Stale() == old(list.Stale())
      ensures add == WriteBack(old(add), old(SlotAt(node))) && SlotAt(node) == Clean(old(SlotAt(node)))
      ensures forall n :: n in list.members && n != node ==> SlotAt(n) == old(SlotAt(n))
    {
      if node.dirty {
        CacheToDisk(node.bufferId, node.blockId);
        node.dirty := false;
      }
    }

    method FlushNext(node: ListNode, ghost i: nat, ghost j: nat, ghost st: State) returns (next: ListNode?)
      requires Flushed(st, i) && i < |list.order| && node == list.order[i] && j == i + 1
      modifies this`add, node`dirty
      ensures Flushed(st, j) && next == if j < |list.order| then list.order[j] else null
    {
      OnlyAt(list.order, i);
      FlushNode(node);
      next := node.next;
    }

    // The loop of sync, from the head of the list.
    method FlushList(ghost st: State)
      requires Flushed(st, 0)
      modifies this`add, list.members`dirty
      ensures Flushed(st, |list.order|)
    {
      var head := list.head;
      ghost var i := 0;
      while head != null
        invariant Flushed(st, i) && head == if i < |list.order| then list.order[i] else null
        decreases |list.order| - i
      {
        ghost var j := i + 1;
        head := FlushNext(head, i, j, st);
        i := j;
      }
    }

    // sync: walks the list from the head and writes every dirty buffer to the device.
    method SyncAll()
      requires Valid()
      modifies this`add, this`abs, list.members`dirty, log
      ensures Valid() && abs == Step(old(abs), Sync) && log.ops == old(log.ops) + [Sync]
    {
      Note(Sync);
      FlushAll();
    }

    method FlushAll()
      requires Valid()
      modifies this`add, this`abs, list.members`dirty
      ensures Valid() && abs == Step(old(abs), Sync)
    {
      FlushList(abs);
      abs := Step(abs, Sync);
    }
  }
}
