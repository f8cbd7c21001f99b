/** The node pool and open list of dtNavMeshQuery together: the steps that every search is made of. */
module SearchStates {
  import opened Basics
  import opened SearchNodes
  import opened NodePools

  /** The open list holds each open node once and nothing else. */
  ghost predicate QueueOk(h: seq<nat>, ns: seq<Node>) {
    && (forall j :: 0 <= j < |h| ==> h[j] < |ns|)
    && (forall i :: 0 <= i < |ns| ==> multiset(h)[i] == if ns[i].open then 1 else 0)
  }

  lemma {:induction false} DistinctSize(h: seq<nat>, s: set<nat>)
    requires forall x :: x in h ==> multiset(h)[x] == 1 && x in s
    ensures |h| <= |s|
  {
    if h != [] {
      var n := |h| - 1;
      var x, h' := h[n], h[..n];
      assert h == h' + [x];
      assert x in h;
      forall y | y in h'
        ensures multiset(h')[y] == 1 && y in s - {x}
      {
        assert y in h;
      }
      DistinctSize(h', s - {x});
    }
  }

  /** A node that is not open leaves room for itself in a list as large as the pool. */
  lemma QueueHasRoom(h: seq<nat>, ns: seq<Node>, j: nat)
    requires QueueOk(h, ns) && j < |ns| && !ns[j].open
    ensures |h| < |ns|
  {
    forall x | x in h
      ensures multiset(h)[x] == 1 && x in Below(|ns|) - {j}
    {
    }
    DistinctSize(h, Below(|ns|) - {j});
  }

  /** What `pop` returns is an open node with the least total. */
  lemma PopsLeastOpen(h: seq<nat>, all: seq<Node>, ns: seq<Node>)
    requires Ordered(h, all) && ns <= all && QueueOk(h, ns) && h != []
    ensures h[0] < |ns| && ns[h[0]].open
    ensures forall j :: 0 <= j < |ns| && ns[j].open ==> ns[h[0]].total <= ns[j].total
    ensures QueueOk(PopHeap(h, all), ns[h[0] := ns[h[0]].(open := false, closed := true)])
    ensures Ordered(PopHeap(h, all), all)
  {
    PopHeapCorrect(h, all);
    assert h[0] in multiset(h);
    forall j | 0 <= j < |ns| && ns[j].open
      ensures ns[h[0]].total <= ns[j].total
    {
      assert j in multiset(h) && j in h;
    }
    QueuePopped(h, PopHeap(h, all), ns, h[0]);
  }

  lemma QueuePopped(h: seq<nat>, h': seq<nat>, ns: seq<Node>, i: nat)
    requires QueueOk(h, ns) && i < |ns| && ns[i].open && multiset(h') + multiset{i} == multiset(h)
    ensures QueueOk(h', ns[i := ns[i].(open := false, closed := true)])
  {
    forall j | 0 <= j < |h'|
      ensures h'[j] < |ns|
    {
      assert h'[j] in multiset(h);
    }
  }

  lemma QueueImproved(h: seq<nat>, h': seq<nat>, ns: seq<Node>, j: nat, n: Node)
    requires QueueOk(h, ns) && j < |ns| && n.open
    requires multiset(h') == if ns[j].open then multiset(h) else multiset(h) + multiset{j}
    ensures QueueOk(h', ns[j := n])
  {
    forall k | 0 <= k < |h'|
      ensures h'[k] < |ns|
    {
      assert h'[k] in multiset(h) + multiset{j};
    }
  }

  lemma OrderedFrame(h: seq<nat>, ns: seq<Node>, ns': seq<Node>)
    requires Ordered(h, ns) && |ns'| == |ns|
    requires forall i :: 0 <= i < |ns| && i in h ==> ns'[i].total == ns[i].total
    ensures Ordered(h, ns')
  {
    forall j: nat
      ensures OrderedAt(h, ns', j)
    {
      assert OrderedAt(h, ns, j);
    }
  }

  lemma PushReady(h: seq<nat>, all: seq<Node>, all': seq<Node>, ns: seq<Node>, j: nat)
    requires Ordered(h, all) && ns <= all && QueueOk(h, ns) && j < |ns| && !ns[j].open
    requires |all'| == |all| && forall i :: 0 <= i < |all| && i != j ==> all'[i] == all[i]
    ensures |h| < |ns| && Ordered(h, all')
    ensures multiset(PushHeap(h, all', j)) == multiset(h) + multiset{j}
  {
    QueueHasRoom(h, ns, j);
    assert j !in multiset(h);
    OrderedFrame(h, all, all');
    PushHeapCorrect(h, all', j);
  }

  class SearchState {
    const pool: NodePool
    const openList: NodeQueue

    ghost predicate Wired()
      reads this, pool, openList
    {
      openList.nodes == pool.nodes && openList.capacity >= pool.nodes.Length &&
      pool.first != openList.heap && pool.next != openList.heap
    }

    /** The pool's handed-out nodes are `ns`, indexed by `at`, and the open list holds the open ones in heap order. */
    ghost predicate Holds(ns: seq<Node>, at: map<Key, nat>)
      reads this, pool, openList, pool.nodes, pool.first, pool.next, openList.heap
    {
      && Wired() && pool.Valid() && openList.Valid()
      && pool.nodeCount == |ns| && pool.nodes[..|ns|] == ns && pool.index == at
      && QueueOk(openList.Heap(), ns)
    }

    constructor (maxNodes: nat, hashSize: nat, bucketOf: PolyRef -> nat)
      requires 0 < maxNodes <= NULL_IDX && 0 < hashSize
      requires forall id :: bucketOf(id) < hashSize
      ensures Holds([], map[]) && pool.nodes.Length == maxNodes
      ensures fresh(pool) && fresh(openList) && fresh(pool.nodes) && fresh(pool.first) && fresh(pool.next)
      ensures fresh(openList.heap)
    {
      var p := new NodePool(maxNodes, hashSize, bucketOf);
      var o := new NodeQueue(p.nodes, maxNodes);
      pool, openList := p, o;
    }

    method Clear()
      requires Wired() && pool.Sized() && openList.Sized()
      modifies pool, openList, pool.first
      ensures Holds([], map[])
    {
      pool.Clear();
      openList.Clear();
    }

    lemma HoldsBound(ns: seq<Node>, at: map<Key, nat>)
      requires Holds(ns, at)
      ensures |ns| <= pool.nodes.Length
    {
    }

    lemma HoldsSized(ns: seq<Node>, at: map<Key, nat>)
      requires Holds(ns, at)
      ensures Wired() && pool.Sized() && openList.Sized()
    {
    }

    method NonEmpty(ghost ns: seq<Node>, ghost at: map<Key, nat>) returns (more: bool)
      requires Holds(ns, at)
      ensures more <==> !openList.Empty()
      ensures !more ==> forall i :: 0 <= i < |ns| ==> !ns[i].open
    {
      more := !openList.Empty();
      assert !more ==> openList.Heap() == [];
    }

    /** Take a least open node off the open list and close it. */
    method PopBest(ghost ns: seq<Node>, ghost at: map<Key, nat>) returns (i: nat)
      requires Holds(ns, at) && !openList.Empty()
      modifies pool.nodes, openList, openList.heap
      ensures i < |ns| && ns[i].open
      ensures forall j :: 0 <= j < |ns| && ns[j].open ==> ns[i].total <= ns[j].total
      ensures Holds(ns[i := ns[i].(open := false, closed := true)], at)
    {
      hide ChainsOk;
      ghost var h, all := openList.Heap(), pool.nodes[..];
      PopsLeastOpen(h, all, ns);
      i := openList.Pop();
      pool.SetNode(i, pool.nodes[i].(open := false, closed := true));
      OrderedFrame(openList.Heap(), all, pool.nodes[..]);
    }

    /** Find or create the node of a polygon; a created one has no flag set and an arbitrary position. */
    method GetNode(id: PolyRef, state: nat, ghost ns: seq<Node>, ghost at: map<Key, nat>)
      returns (i: nat, ghost ns': seq<Node>, ghost at': map<Key, nat>)
      requires Holds(ns, at)
      modifies pool, pool.nodes, pool.first, pool.next
      ensures Holds(ns', at')
      ensures (id, state) in at ==> i == at[(id, state)] && i < |ns| && ns' == ns && at' == at && i != NULL_IDX
      ensures (id, state) !in at && |ns| >= pool.nodes.Length ==> i == NULL_IDX && ns' == ns && at' == at
      ensures (id, state) !in at && |ns| < pool.nodes.Length ==>
        && i == |ns| != NULL_IDX && |ns'| == |ns| + 1 && ns <= ns' && at' == at[(id, state) := |ns|]
        && ns'[i] == Node(ns'[i].pos, 0.0, 0.0, 0, state, false, false, id)
      ensures i != NULL_IDX ==> i < |ns'|
    {
      hide ChainsOk;
      ghost var all, h := pool.nodes[..], openList.Heap();
      i := pool.GetNode(id, state);
      ns', at' := pool.nodes[..pool.nodeCount], pool.index;
      OrderedFrame(h, all, pool.nodes[..]);
      assert |ns'| > |ns| ==> |ns| !in multiset(h);
    }

    /** Read a node of the pool. */
    method GetNodeAt(i: nat, ghost ns: seq<Node>, ghost at: map<Key, nat>) returns (n: Node)
      requires Holds(ns, at) && i < |ns|
      ensures n == ns[i]
    {
      assert pool.nodes[i] == pool.nodes[..|ns|][i];
      n := pool.nodes[i];
    }

    /** Write a better version of a node that is open and move it up in the list. */
    method Lower(j: nat, n: Node, ghost ns: seq<Node>, ghost at: map<Key, nat>)
      requires Holds(ns, at) && j < |ns| && KeyOf(n) == KeyOf(ns[j]) && n.open
      requires ns[j].open && n.total <= ns[j].total
      modifies pool.nodes, openList.heap
      ensures Holds(ns[j := n], at)
    {
      hide ChainsOk;
      ghost var all, h := pool.nodes[..], openList.Heap();
      pool.SetNode(j, n);
      openList.Modify(j, all);
      QueueImproved(h, openList.Heap(), ns, j, n);
    }

    /** Write a node that is not open and put it on the open list. */
    method Enqueue(j: nat, n: Node, ghost ns: seq<Node>, ghost at: map<Key, nat>)
      requires Holds(ns, at) && j < |ns| && KeyOf(n) == KeyOf(ns[j]) && n.open
      requires !ns[j].open
      modifies pool.nodes, openList, openList.heap
      ensures Holds(ns[j := n], at)
    {
      hide ChainsOk;
      ghost var all, h := pool.nodes[..], openList.Heap();
      pool.SetNode(j, n);
      PushReady(h, all, pool.nodes[..], ns, j);
      openList.Push(j);
      QueueImproved(h, openList.Heap(), ns, j, n);
    }

    /** Write a better version of node `j` and put it on the open list, or move it up if it is there already. */
    method Improve(j: nat, n: Node, ghost ns: seq<Node>, ghost at: map<Key, nat>)
      requires Holds(ns, at) && j < |ns| && KeyOf(n) == KeyOf(ns[j]) && n.open
      requires ns[j].open ==> n.total <= ns[j].total
      modifies pool.nodes, openList, openList.heap
      ensures Holds(ns[j := n], at)
    {
      hide Holds;
      var known := GetNodeAt(j, ns, at);
      if known.open {
        Lower(j, n, ns, at);
      } else {
        Enqueue(j, n, ns, at);
      }
    }
  }
}
