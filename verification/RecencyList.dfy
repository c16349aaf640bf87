// The doubly linked recency list of disk.c, most recently used node first.

module RecencyList {

  class ListNode {
    const bufferId: nat
    var blockId: nat
    var next: ListNode?
    var prev: ListNode?
    var dirty: bool
    var inHash: bool

    constructor (bufferId: nat, prev: ListNode?)
      ensures this.bufferId == bufferId && this.prev == prev && next == null && !dirty && !inHash
    {
      this.bufferId := bufferId;
      this.prev := prev;
      blockId, next, dirty, inHash := 0, null, false, false;
    }
  }

  ghost predicate NoRepeats(s: seq<ListNode>)
  {
    s == [] || (s[0] !in s[1..] && NoRepeats(s[1..]))
  }

  lemma {:induction false} NoRepeatsPairwise(s: seq<ListNode>)
    ensures NoRepeats(s) <==> forall i, j :: 0 <= i < j < |s| ==> s[i] != s[j]
  {
    if s != [] {
      NoRepeatsPairwise(s[1..]);
      assert forall i :: 0 < i < |s| ==> s[i] == s[1..][i - 1];
      if forall i, j :: 0 <= i < j < |s| ==> s[i] != s[j] {
        forall i, j | 0 <= i < j < |s[1..]|
          ensures s[1..][i] != s[1..][j]
        {
          assert s[i + 1] != s[j + 1];
        }
      }
    }
  }

  ghost predicate Appears(n: ListNode, s: seq<ListNode>)
  {
    n in s
  }

  ghost function IndexIn(s: seq<ListNode>, n: ListNode): (i: nat)
    requires Appears(n, s)
    ensures i < |s| && s[i] == n
  {
    if s[0] == n then 0 else 1 + IndexIn(s[1..], n)
  }

  lemma OnlyAt(s: seq<ListNode>, i: nat)
    requires NoRepeats(s) && i < |s|
    ensures Appears(s[i], s) && IndexIn(s, s[i]) == i
    ensures forall j :: 0 <= j < |s| && j != i ==> s[j] != s[i]
  {
    NoRepeatsPairwise(s);
  }

  // s lists the nodes of members, each once.
  ghost predicate Lists(s: seq<ListNode>, members: set<ListNode>)
  {
    && NoRepeats(s)
    && (forall i :: 0 <= i < |s| ==> s[i] in members)
    && (forall n {:trigger Appears(n, s)} :: n in members ==> Appears(n, s))
  }

  // The next pointers from s[0] on visit s and end.
  ghost predicate NextOk(s: seq<ListNode>)
    reads s
  {
    forall i {:trigger s[i].next} :: 0 <= i < |s| ==> s[i].next == if i + 1 < |s| then s[i + 1] else null
  }

  // Every node but the first points back to its predecessor.
  ghost predicate PrevOk(s: seq<ListNode>)
    reads s
  {
    forall i {:trigger s[i].prev} :: 0 < i < |s| ==> s[i].prev == s[i - 1]
  }

  lemma ListsSnoc(s: seq<ListNode>, members: set<ListNode>, node: ListNode)
    requires Lists(s, members) && node !in members
    ensures Lists(s + [node], members + {node})
  {
    NoRepeatsPairwise(s);
    NoRepeatsPairwise(s + [node]);
    forall n | n in members + {node}
      ensures Appears(n, s + [node])
    {
      if n != node { assert Appears(n, s); }
    }
  }

  // s with its i-th node moved to the front.
  ghost function Moved(s: seq<ListNode>, i: nat): (r: seq<ListNode>)
    requires i < |s|
    ensures |r| == |s| && r[0] == s[i]
    ensures forall m :: 0 < m < |r| ==> r[m] == s[if m <= i then m - 1 else m]
  {
    [s[i]] + s[..i] + s[i + 1..]
  }

  lemma MovedLists(s: seq<ListNode>, members: set<ListNode>, i: nat)
    requires i < |s| && Lists(s, members)
    ensures Lists(Moved(s, i), members)
  {
    NoRepeatsPairwise(s);
    NoRepeatsPairwise(Moved(s, i));
    forall n | n in members
      ensures Appears(n, Moved(s, i))
    {
      assert Appears(n, s);
      var j := IndexIn(s, n);
      assert Moved(s, i)[if j == i then 0 else if j < i then j + 1 else j] == n;
    }
  }

  // The pointers left by promoting s[i] in the list s link up Moved(s, i).
  lemma Relinked(s: seq<ListNode>, i: nat)
    requires 0 < i < |s| && NoRepeats(s)
    requires s[i].next == s[0] && s[i - 1].next == if i + 1 < |s| then s[i + 1] else null
    requires forall m {:trigger s[m].next} :: 0 <= m < |s| && m != i && m != i - 1 ==>
      s[m].next == if m + 1 < |s| then s[m + 1] else null
    requires s[0].prev == s[i] && (i + 1 < |s| ==> s[i + 1].prev == s[i - 1])
    requires forall m {:trigger s[m].prev} :: 0 < m < |s| && m != i && m != i + 1 ==> s[m].prev == s[m - 1]
    ensures NextOk(Moved(s, i)) && PrevOk(Moved(s, i))
  {
    NoRepeatsPairwise(s);
    var r := Moved(s, i);
    forall m | 0 <= m < |r|
      ensures r[m].next == if m + 1 < |r| then r[m + 1] else null
    {
      var k := if m == 0 then i else if m <= i then m - 1 else m;
      assert r[m].next == s[k].next;
    }
    forall m | 0 < m < |r|
      ensures r[m].prev == r[m - 1]
    {
      assert r[m].prev == s[if m <= i then m - 1 else m].prev;
    }
  }

  class List {
    var head: ListNode?
    var tail: ListNode?
    ghost const members: set<ListNode>
    // The nodes in list order.
    ghost var order: seq<ListNode>

    // An acyclic doubly linked list of exactly the members, except that the head may still point back to the tail it
    // was promoted past.
    ghost predicate Valid()
      reads this, members
    {
      && 2 <= |order|
      && Lists(order, members)
      && head == order[0] && tail == order[|order| - 1]
      && NextOk(order) && PrevOk(order)
      && (order[0].prev == null || order[0].prev == order[|order| - 1])
    }

    ghost predicate Stale()
      requires Valid()
      reads this, members
    {
      head.prev != null
    }

    // list_init
    constructor (k: nat)
      requires 2 <= k
      ensures Valid() && !Stale() && |order| == k && fresh(members)
      ensures forall n :: n in members ==> n.bufferId < k && order[n.bufferId] == n && !n.inHash && !n.dirty
    {
      var first: ListNode? := null;
      var last: ListNode? := null;
      ghost var s: seq<ListNode> := [];
      ghost var m: set<ListNode> := {};
      for i := 0 to k
        invariant |s| == i && fresh(m) && Lists(s, m)
        invariant last == if i == 0 then null else s[i - 1]
        invariant first == if i == 0 then null else s[0]
        invariant forall j :: 0 <= j < i ==> s[j].bufferId == j && !s[j].inHash && !s[j].dirty
        invariant NextOk(s) && PrevOk(s) && (i > 0 ==> s[0].prev == null)
      {
        var node := new ListNode(i, last);
        if last == null {
          first := node;
          last := node;
        } else {
          last.next := node;
          last := last.next;
        }
        ListsSnoc(s, m, node);
        s, m := s + [node], m + {node};
      }
      forall n | n in m
        ensures n.bufferId < k && s[n.bufferId] == n && !n.inHash && !n.dirty
      {
        assert Appears(n, s);
        assert s[IndexIn(s, n)] == n;
      }
      head, tail := first, last;
      order, members := s, m;
    }

    // list_prioritize.  The tail case leaves node.prev as it was, so promoting that node again at once takes the
    // middle case on the head and ties the head to itself; every other promotion moves the node to the front.
    method Prioritize(node: ListNode)
      requires Valid() && node in members && Appears(node, order)
      modifies this, members`next, members`prev
      ensures Lists(order, members) && |order| == old(|order|)
      ensures var trip := old(Stale() && node == head);
        && (Valid() <==> !trip)
        && (trip ==> head == node && node.next == node)
        && (!trip ==> var i := IndexIn(old(order), node);
              order == Moved(old(order), i) && (Stale() <==> i == |order| - 1))
    {
      assert Appears(node, order);
      ghost var i := IndexIn(order, node);
      ghost var s := order;
      NoRepeatsPairwise(s);
      if node.prev == null {
        assert i == 0;
        assert order == Moved(order, 0);
        return;
      }
      MovedLists(s, members, i);
      order := Moved(s, i);
      if node.next == null {
        assert i == |s| - 1;
        tail := node.prev;
        node.prev.next := null;
        node.next := head;
        head.prev := node;
        head := node;
        Relinked(s, i);
      } else {
        node.prev.next := node.next;
        node.next.prev := node.prev;
        node.prev := null;
        node.next := head;
        head.prev := node;
        head := node;
        if i > 0 { Relinked(s, i); } else { assert order[0].next == order[0]; }
      }
    }

    // The pointer half of list_add: the tail becomes the head, and heals a stale one.
    method Recycle()
      requires Valid()
      modifies this, members`next, members`prev
      ensures Valid() && !Stale() && order == Moved(old(order), |old(order)| - 1)
    {
      ghost var s := order;
      NoRepeatsPairwise(s);
      var end := tail;
      tail := tail.prev;
      tail.next := null;
      end.prev := null;
      end.next := head;
      head.prev := end;
      head := end;
      MovedLists(s, members, |s| - 1);
      order := Moved(s, |s| - 1);
      Relinked(s, |s| - 1);
    }
  }
}
