// The chained hash index of disk.c, from block id to the list node that caches the block.

module HashTable {
  import opened RecencyList

  class HashNode {
    const bufferId: nat
    const blockId: nat
    const listNode: ListNode
    var next: HashNode?

    constructor (bufferId: nat, blockId: nat, listNode: ListNode, next: HashNode?)
      ensures this.bufferId == bufferId && this.blockId == blockId && this.listNode == listNode && this.next == next
    {
      this.bufferId, this.blockId, this.listNode, this.next := bufferId, blockId, listNode, next;
    }
  }

  class Table {
    const list: array<HashNode?>
    // The nodes of each bucket, first to last.
    ghost var chains: seq<seq<HashNode>>
    // All hash nodes of the table.
    ghost var Repr: set<HashNode>
    // The index the table represents.
    ghost var index: map<nat, HashNode>

    // The node pointers from h on are exactly the nodes of c.
    static ghost predicate IsChain(h: HashNode?, c: seq<HashNode>)
      reads c
    {
      && h == (if c == [] then null else c[0])
      && forall j {:trigger c[j].next} :: 0 <= j < |c| ==> c[j].next == if j + 1 < |c| then c[j + 1] else null
    }

    // Chain c holds exactly the nodes that the index keeps for bucket i of n.
    static ghost predicate BucketOk(n: nat, i: nat, c: seq<HashNode>, index: map<nat, HashNode>)
      requires 0 < n
    {
      && (forall j :: 0 <= j < |c| ==> c[j].blockId % n == i && c[j].blockId in index && index[c[j].blockId] == c[j])
      && (forall j, l :: 0 <= j < l < |c| ==> c[j] != c[l])
      && (forall b :: b in index && b % n == i ==> index[b].blockId == b && index[b] in c)
    }

    ghost predicate Bucket(i: nat)
      requires i < |chains| == list.Length
      reads this, list, Repr
    {
      && (forall j :: 0 <= j < |chains[i]| ==> chains[i][j] in Repr)
      && BucketOk(|chains|, i, chains[i], index)
      && IsChain(list[i], chains[i])
    }

    ghost predicate Valid()
      reads this, list, Repr
    {
      0 < list.Length == |chains| && forall i :: 0 <= i < |chains| ==> Bucket(i)
    }

    static lemma BucketInsert(n: nat, i: nat, c: seq<HashNode>, index: map<nat, HashNode>, h: HashNode)
      requires 0 < n && BucketOk(n, i, c, index) && h.blockId !in index
      ensures h.blockId % n != i ==> BucketOk(n, i, c, index[h.blockId := h])
      ensures h.blockId % n == i ==> BucketOk(n, i, [h] + c, index[h.blockId := h])
    {
      var c', index' := [h] + c, index[h.blockId := h];
      if h.blockId % n == i {
        assert forall j :: 0 < j < |c'| ==> c'[j] == c[j - 1];
        forall b | b in index' && b % n == i
          ensures index'[b] in c'
        {
          if b == h.blockId { assert c'[0] == h; }
        }
      }
    }

    static lemma BucketDelete(n: nat, i: nat, c: seq<HashNode>, index: map<nat, HashNode>, b: nat, j: nat)
      requires 0 < n && BucketOk(n, i, c, index)
      requires b % n == i ==> j < |c| && c[j].blockId == b
      ensures b % n != i ==> BucketOk(n, i, c, index - {b})
      ensures b % n == i ==> BucketOk(n, i, c[..j] + c[j + 1..], index - {b})
    {
      if b % n == i {
        var c', index' := c[..j] + c[j + 1..], index - {b};
        assert forall l :: 0 <= l < |c'| ==> c'[l] == c[if l < j then l else l + 1];
        forall a | a in index' && a % n == i
          ensures index'[a] in c'
        {
          var l :| 0 <= l < |c| && c[l] == index[a];
          assert c'[if l < j then l else l - 1] == index[a];
        }
      }
    }

    constructor (n: nat)
      requires 0 < n
      ensures Valid() && index == map[] && list.Length == n && fresh(list)
      ensures Repr == {}
    {
      list := new HashNode?[n](_ => null);
      chains := seq(n, _ => []);
      index := map[];
      Repr := {};
    }

    method Find(b: nat) returns (h: HashNode?)
      requires Valid()
      ensures h == if b in index then index[b] else null
    {
      var i := b % list.Length;
      ghost var c := chains[i];
      h := list[i];
      ghost var j := 0;
      assert Bucket(i);
      while h != null
        invariant 0 <= j <= |c| && h == if j < |c| then c[j] else null
        invariant forall l :: 0 <= l < j ==> c[l].blockId != b
        decreases |c| - j
      {
        if h.blockId == b {
          return;
        }
        h := h.next;
        j := j + 1;
      }
    }

    method Insert(b: nat, bufferId: nat, node: ListNode) returns (status: int)
      requires Valid()
      modifies this, list
      ensures Valid() && fresh(Repr - old(Repr))
      ensures status == if old(b in index) then -1 else 1
      ensures status == -1 ==> index == old(index)
      ensures status == 1 ==>
        && index.Keys == old(index.Keys) + {b}
        && index == old(index)[b := index[b]]
        && index[b].listNode == node && index[b].bufferId == bufferId
    {
      var present := Find(b);
      if present != null {
        return -1;
      }
      var i := b % list.Length;
      var n := new HashNode(bufferId, b, node, list[i]);
      list[i] := n;
      chains := chains[i := [n] + chains[i]];
      index := index[b := n];
      Repr := Repr + {n};
      status := 1;
      forall l | 0 <= l < |chains|
        ensures Bucket(l)
      {
        assert old(Bucket(l));
        BucketInsert(|chains|, l, old(chains[l]), old(index), n);
      }
    }

    // Takes the node at place j of bucket i out of its chain: prev, or the bucket head, skips over it.
    method Skip(i: nat, ghost c: seq<HashNode>, ghost j: nat, prev: HashNode?, temp: HashNode)
      requires i < list.Length && IsChain(list[i], c) && j < |c| && temp == c[j]
      requires forall m, l :: 0 <= m < l < |c| ==> c[m] != c[l]
      requires prev == if j == 0 then null else c[j - 1]
      modifies list, prev
      ensures IsChain(list[i], c[..j] + c[j + 1..])
      ensures forall l :: 0 <= l < list.Length && l != i ==> list[l] == old(list[l])
    {
      ghost var c' := c[..j] + c[j + 1..];
      assert forall m :: 0 <= m < |c'| ==> c'[m] == c[if m < j then m else m + 1];
      if prev == null {
        list[i] := temp.next;
      } else {
        prev.next := temp.next;
      }
    }

    method Unlink(i: nat, ghost j: nat, prev: HashNode?, temp: HashNode)
      requires Valid() && i < |chains| && j < |chains[i]|
      requires temp == chains[i][j] && prev == if j == 0 then null else chains[i][j - 1]
      modifies this`chains, this`index, list, Repr
      ensures Valid() && index == old(index) - {temp.blockId}
    {
      ghost var c := chains[i];
      assert Bucket(i);
      Skip(i, c, j, prev, temp);
      chains := chains[i := c[..j] + c[j + 1..]];
      index := index - {temp.blockId};
      forall l | 0 <= l < |chains|
        ensures Bucket(l)
      {
        assert old(Bucket(l));
        BucketDelete(|chains|, l, old(chains[l]), old(index), temp.blockId, j);
      }
    }

    method Delete(b: nat) returns (status: int)
      requires Valid()
      modifies this`chains, this`index, list, Repr
      ensures Valid()
      ensures status == if old(b in index) then 1 else -1
      ensures index == old(index) - {b}
    {
      var i := b % list.Length;
      ghost var c := chains[i];
      var temp := list[i];
      var prev: HashNode? := null;
      assert Bucket(i);
      if temp != null && temp.blockId == b {
        Unlink(i, 0, null, temp);
        return 1;
      }
      ghost var j := 0;
      while temp != null
        invariant 0 <= j <= |c| && temp == if j < |c| then c[j] else null
        invariant prev == if j == 0 then null else c[j - 1]
        invariant forall l :: 0 <= l < j ==> c[l].blockId != b
        invariant Valid() && chains == old(chains) && index == old(index)
        decreases |c| - j
      {
        if temp.blockId == b {
          Unlink(i, j, prev, temp);
          return 1;
        }
        assert Bucket(i);
        prev := temp;
        temp := temp.next;
        j := j + 1;
      }
      return -1;
    }
  }
}
