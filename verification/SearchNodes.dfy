/** dtNode, dtNodePool and dtNodeQueue: the records, hash pool and binary heap every graph search works on. */
module SearchNodes {
  import opened Basics

  type PolyRef = nat

  const NULL_IDX := 0xffff
  const MAX_STATES := 4

  /** `pidx` is the index of the parent plus one, or 0. A node with neither flag was never reached. */
  datatype Node = Node(
    pos: Vec, cost: real, total: real, pidx: nat, state: nat, open: bool, closed: bool, id: PolyRef)

  // ----- Heap order over node indices -----

  function Parent(j: nat): nat {
    if j == 0 then 0 else (j - 1) / 2
  }

  ghost predicate OrderedAt(h: seq<nat>, ns: seq<Node>, j: nat)
    requires Within(h, |ns|)
  {
    0 < j < |h| ==> ns[h[Parent(j)]].total <= ns[h[j]].total
  }

  /** No node has a smaller total than its parent in the heap. */
  ghost predicate Ordered(h: seq<nat>, ns: seq<Node>) {
    Within(h, |ns|) && forall j: nat :: OrderedAt(h, ns, j)
  }

  /** Ordered except that position `i` may be smaller than its ancestors. */
  ghost predicate OrderedBut(h: seq<nat>, ns: seq<Node>, i: nat) {
    && Within(h, |ns|)
    && (forall j: nat :: j != i ==> OrderedAt(h, ns, j))
    && (forall j: nat :: 0 < j < |h| && 0 < i == Parent(j) ==> ns[h[Parent(i)]].total <= ns[h[j]].total)
  }

  /** Ordered around a hole at `i` whose own content does not count. */
  ghost predicate OrderedAround(h: seq<nat>, ns: seq<Node>, i: nat) {
    && Within(h, |ns|)
    && (forall j: nat :: 0 < j < |h| && j != i && Parent(j) != i ==> OrderedAt(h, ns, j))
    && (forall j: nat :: 0 < j < |h| && 0 < i == Parent(j) < |h| ==> ns[h[Parent(i)]].total <= ns[h[j]].total)
  }

  /** The root of an ordered heap is a minimum. */
  lemma {:induction false} RootIsLeast(h: seq<nat>, ns: seq<Node>, j: nat)
    requires Ordered(h, ns) && j < |h|
    ensures ns[h[0]].total <= ns[h[j]].total
  {
    if j > 0 {
      assert OrderedAt(h, ns, j);
      RootIsLeast(h, ns, Parent(j));
    }
  }

  lemma RootIsLeastOfAll(h: seq<nat>, ns: seq<Node>)
    requires Ordered(h, ns) && h != []
    ensures h[0] < |ns| && forall k :: k in h ==> k < |ns| && ns[h[0]].total <= ns[k].total
  {
    forall k | k in h
      ensures k < |ns| && ns[h[0]].total <= ns[k].total
    {
      var j :| 0 <= j < |h| && h[j] == k;
      RootIsLeast(h, ns, j);
    }
  }

  /** An ordered heap without its last cell is ordered around the root. */
  lemma RestIsOrderedAround(h: seq<nat>, ns: seq<Node>, h': seq<nat>)
    requires Ordered(h, ns) && h' != [] && h' <= h
    ensures OrderedAround(h', ns, 0)
  {
    forall j: nat | 0 < j < |h'|
      ensures OrderedAt(h', ns, j)
    {
      assert OrderedAt(h, ns, j);
    }
  }

  lemma MultisetUpdate(s: seq<nat>, i: nat, x: nat)
    requires i < |s|
    ensures multiset(s[i := x]) == multiset(s)[s[i] := multiset(s)[s[i]] - 1] + multiset{x}
  {
    assert s == s[..i] + [s[i]] + s[i + 1..];
    assert s[i := x] == s[..i] + [x] + s[i + 1..];
  }

  lemma MultisetSwap(s: seq<nat>, i: nat, j: nat)
    requires i < |s| && j < |s|
    ensures multiset(s[i := s[j]][j := s[i]]) == multiset(s)
  {
    if i != j {
      var t := s[i := s[j]];
      MultisetUpdate(s, i, s[j]);
      MultisetUpdate(t, j, s[i]);
    }
  }

  lemma SinkKeepsNodes(h: seq<nat>, i: nat, c: nat, node: nat)
    requires i < |h| && c < |h| && i != c
    ensures multiset(h[i := h[c]][c := node]) == multiset(h[i := node])
  {
    MultisetSwap(h[i := node], i, c);
    assert h[i := h[c]][c := node] == h[i := node][i := h[c]][c := node];
  }

  /** Overwriting the root by the node taken off the end removes just the root. */
  lemma PopKeepsNodes(h: seq<nat>)
    requires |h| > 1
    ensures multiset(h[..|h| - 1][0 := h[|h| - 1]]) + multiset{h[0]} == multiset(h)
  {
    var n := |h| - 1;
    assert h == [h[0]] + h[1..n] + [h[n]];
    assert h[..n][0 := h[n]] == [h[n]] + h[1..n];
  }

  /** Moving the hole's parent down keeps the order. */
  lemma BubbleStep(h: seq<nat>, ns: seq<Node>, i: nat)
    requires OrderedBut(h, ns, i) && 0 < i < |h|
    requires ns[h[Parent(i)]].total > ns[h[i]].total
    ensures OrderedBut(h[i := h[Parent(i)]][Parent(i) := h[i]], ns, Parent(i))
  {
    var p, h' := Parent(i), h[i := h[Parent(i)]][Parent(i) := h[i]];
    assert OrderedAt(h, ns, p);
    forall j: nat | j != p
      ensures OrderedAt(h', ns, j)
    {
      assert j != i ==> OrderedAt(h, ns, j);
    }
    forall j: nat | 0 < j < |h'| && 0 < p == Parent(j)
      ensures ns[h'[Parent(p)]].total <= ns[h'[j]].total
    {
      assert j != i ==> OrderedAt(h, ns, j);
    }
  }

  lemma BubbleDone(h: seq<nat>, ns: seq<Node>, i: nat)
    requires OrderedBut(h, ns, i) && i < |h|
    requires i == 0 || ns[h[Parent(i)]].total <= ns[h[i]].total
    ensures Ordered(h, ns)
  {
    forall j: nat
      ensures OrderedAt(h, ns, j)
    {
    }
  }

  /** Once the hole is a leaf any node may be put there and bubbled up. */
  lemma SinkDone(h: seq<nat>, ns: seq<Node>, i: nat, node: nat)
    requires OrderedAround(h, ns, i) && i < |h| <= 2 * i + 1 && node < |ns|
    ensures OrderedBut(h[i := node], ns, i)
  {
    var h' := h[i := node];
    forall j: nat | j != i
      ensures OrderedAt(h', ns, j)
    {
      assert 0 < j < |h| ==> Parent(j) != i && OrderedAt(h, ns, j);
    }
  }

  /** Lowering one node's total breaks the order only at its own position. */
  lemma LoweredKey(h: seq<nat>, ns: seq<Node>, ns': seq<Node>, i: nat)
    requires Ordered(h, ns) && |ns| <= |ns'| && i < |h|
    requires forall k :: 0 <= k < |ns| && k != h[i] ==> ns'[k].total == ns[k].total
    requires ns'[h[i]].total <= ns[h[i]].total
    requires forall j :: 0 <= j < |h| && j != i ==> h[j] != h[i]
    ensures OrderedBut(h, ns', i)
  {
    forall j: nat | j != i
      ensures OrderedAt(h, ns', j)
    {
      assert OrderedAt(h, ns, j);
    }
    assert OrderedAt(h, ns, i);
    forall j: nat | 0 < j < |h| && 0 < i == Parent(j)
      ensures ns'[h[Parent(i)]].total <= ns'[h[j]].total
    {
      assert OrderedAt(h, ns, j);
    }
  }

  // ----- The sift operations as functions on the heap's contents -----

  /** Let the node at position `i` rise past every ancestor with a larger total. */
  function Bubble(h: seq<nat>, ns: seq<Node>, i: nat): seq<nat>
    requires Within(h, |ns|) && i < |h|
    decreases i
  {
    var p := Parent(i);
    if i > 0 && ns[h[p]].total > ns[h[i]].total then Bubble(h[i := h[p]][p := h[i]], ns, p) else h
  }

  predicate HasChild(h: seq<nat>, i: nat) {
    2 * i + 1 < |h|
  }

  /** The child of `i` with the smaller total, the left one on a tie. */
  function SmallerChild(h: seq<nat>, ns: seq<Node>, i: nat): (c: nat)
    requires Within(h, |ns|) && HasChild(h, i)
    ensures i < c < |h|
  {
    var c := 2 * i + 1;
    if c + 1 < |h| && ns[h[c]].total > ns[h[c + 1]].total then c + 1 else c
  }

  /** Move the hole at `i` down to a leaf, always to the smaller child, then let `node` rise from there. */
  function Trickle(h: seq<nat>, ns: seq<Node>, i: nat, node: nat): seq<nat>
    requires Within(h, |ns|) && i < |h| && node < |ns|
    decreases |h| - i
  {
    if HasChild(h, i) then
      var c := SmallerChild(h, ns, i);
      Trickle(h[i := h[c]], ns, c, node)
    else Bubble(h[i := node], ns, i)
  }

  /** The heap after its root was taken off. */
  function PopHeap(h: seq<nat>, ns: seq<Node>): seq<nat>
    requires Within(h, |ns|) && h != []
  {
    var n := |h| - 1;
    if n == 0 then [] else Trickle(h[..n], ns, 0, h[n])
  }

  function PushHeap(h: seq<nat>, ns: seq<Node>, node: nat): seq<nat>
    requires Within(h, |ns|) && node < |ns|
  {
    Bubble(h + [node], ns, |h|)
  }

  /** Moving the smaller child into the hole keeps the order around the new hole. */
  lemma SinkStep(h: seq<nat>, ns: seq<Node>, i: nat)
    requires OrderedAround(h, ns, i) && HasChild(h, i)
    ensures var c := SmallerChild(h, ns, i); OrderedAround(h[i := h[c]], ns, c)
  {
    var c := SmallerChild(h, ns, i);
    var h' := h[i := h[c]];
    forall j: nat | 0 < j < |h| && j != c && Parent(j) != c
      ensures OrderedAt(h', ns, j)
    {
      if j != i && Parent(j) != i {
        assert OrderedAt(h, ns, j);
      } else if Parent(j) == i {
        assert j == 2 * i + 1 || j == 2 * i + 2;
      }
    }
    forall j: nat | 0 < j < |h| && Parent(j) == c
      ensures ns[h'[Parent(c)]].total <= ns[h'[j]].total
    {
      assert OrderedAt(h, ns, j);
    }
  }

  lemma {:induction false} BubbleOrders(h: seq<nat>, ns: seq<Node>, i: nat)
    requires i < |h| && OrderedBut(h, ns, i)
    ensures Ordered(Bubble(h, ns, i), ns) && multiset(Bubble(h, ns, i)) == multiset(h)
    decreases i
  {
    var p := Parent(i);
    if i > 0 && ns[h[p]].total > ns[h[i]].total {
      BubbleStep(h, ns, i);
      MultisetSwap(h, i, p);
      BubbleOrders(h[i := h[p]][p := h[i]], ns, p);
    } else {
      BubbleDone(h, ns, i);
    }
  }

  lemma {:induction false} TrickleOrders(h: seq<nat>, ns: seq<Node>, i: nat, node: nat)
    requires i < |h| && OrderedAround(h, ns, i) && node < |ns|
    ensures var r := Trickle(h, ns, i, node); Ordered(r, ns) && multiset(r) == multiset(h[i := node])
    decreases |h| - i
  {
    if HasChild(h, i) {
      var c := SmallerChild(h, ns, i);
      SinkStep(h, ns, i);
      SinkKeepsNodes(h, i, c, node);
      TrickleOrders(h[i := h[c]], ns, c, node);
    } else {
      SinkDone(h, ns, i, node);
      BubbleOrders(h[i := node], ns, i);
    }
  }

  /** `pop` takes off a least node and leaves an ordered heap of exactly the other nodes. */
  lemma PopHeapCorrect(h: seq<nat>, ns: seq<Node>)
    requires Ordered(h, ns) && h != []
    ensures Ordered(PopHeap(h, ns), ns)
    ensures multiset(PopHeap(h, ns)) + multiset{h[0]} == multiset(h)
    ensures forall k :: k in h ==> k < |ns| && ns[h[0]].total <= ns[k].total
  {
    RootIsLeastOfAll(h, ns);
    var n := |h| - 1;
    if n > 0 {
      RestIsOrderedAround(h, ns, h[..n]);
      TrickleOrders(h[..n], ns, 0, h[n]);
      PopKeepsNodes(h);
    } else {
      assert h == [h[0]];
    }
  }

  lemma PushHeapCorrect(h: seq<nat>, ns: seq<Node>, node: nat)
    requires Ordered(h, ns) && node < |ns|
    ensures Ordered(PushHeap(h, ns, node), ns)
    ensures multiset(PushHeap(h, ns, node)) == multiset(h) + multiset{node}
  {
    var h' := h + [node];
    forall j: nat | j != |h|
      ensures OrderedAt(h', ns, j)
    {
      assert OrderedAt(h, ns, j);
    }
    BubbleOrders(h', ns, |h|);
  }

  /** `modify` after the total of the node at position `i` was lowered restores the order. */
  lemma ModifyHeapCorrect(h: seq<nat>, ns: seq<Node>, ns': seq<Node>, i: nat)
    requires Ordered(h, ns) && |ns| <= |ns'| && i < |h|
    requires forall k :: 0 <= k < |ns| && k != h[i] ==> ns'[k].total == ns[k].total
    requires ns'[h[i]].total <= ns[h[i]].total
    requires forall j :: 0 <= j < |h| && j != i ==> h[j] != h[i]
    ensures Ordered(Bubble(h, ns', i), ns') && multiset(Bubble(h, ns', i)) == multiset(h)
  {
    LoweredKey(h, ns, ns', i);
    BubbleOrders(h, ns', i);
  }

  lemma TrickleStep(h: seq<nat>, ns: seq<Node>, i: nat, node: nat)
    requires Within(h, |ns|) && i < |h| && node < |ns|
    ensures if 2 * i + 1 < |h|
            then Trickle(h, ns, i, node) == Trickle(h[i := h[SmallerChild(h, ns, i)]], ns, SmallerChild(h, ns, i), node)
            else Trickle(h, ns, i, node) == Bubble(h[i := node], ns, i)
  {
  }

  /** dtNodeQueue: a binary heap of node indices keyed by the totals of the pool's nodes. */
  class NodeQueue {
    const nodes: array<Node>
    const heap: array<nat>
    const capacity: nat
    var size: nat

    ghost predicate Sized()
      reads this
    {
      capacity > 0 && heap.Length == capacity + 1 && size <= capacity
    }

    ghost function Heap(): (h: seq<nat>)
      requires Sized()
      reads this, heap
      ensures |h| == size
    {
      heap[..size]
    }

    ghost predicate Valid()
      reads this, heap, nodes
    {
      Sized() && Ordered(Heap(), nodes[..])
    }

    constructor (nodes: array<Node>, n: nat)
      requires n > 0
      ensures Valid() && Heap() == [] && fresh(heap)
      ensures this.nodes == nodes && capacity == n
    {
      this.nodes := nodes;
      heap := new nat[n + 1](_ => 0);
      capacity, size := n, 0;
    }

    method Clear()
      requires Sized()
      modifies this`size
      ensures Valid() && Heap() == []
    {
      size := 0;
    }

    predicate Empty()
      reads this
    {
      size == 0
    }

    /** Put `node` at position `i` or above, moving larger ancestors down. */
    method BubbleUp(i: nat, node: nat)
      requires Sized() && i < size && node < nodes.Length && Within(Heap()[i := node], |nodes[..]|)
      modifies heap
      ensures Heap() == Bubble(old(Heap())[i := node], nodes[..], i)
    {
      var k := i;
      ghost var ns, h := nodes[..], Heap()[i := node];
      while k > 0 && nodes[heap[Parent(k)]].total > nodes[node].total
        invariant 0 <= k < |h| && h == Heap()[k := node] && Within(h, |ns|)
        invariant k > 0 ==> h[Parent(k)] == heap[Parent(k)]
        invariant Bubble(h, ns, k) == Bubble(old(Heap())[i := node], ns, i)
      {
        var p := Parent(k);
        heap[k] := heap[p];
        h := h[k := h[p]][p := h[k]];
        k := p;
      }
      heap[k] := node;
      assert Heap() == h;
    }

    /** Sink the hole at the root to a leaf ignoring `node`, then let `node` rise from there. */
    method TrickleDown(node: nat)
      requires Sized() && node < nodes.Length && Within(Heap(), |nodes[..]|)
      modifies heap
      ensures Heap() == if size == 0 then [] else Trickle(old(Heap()), nodes[..], 0, node)
    {
      hide Trickle, Bubble;
      var i, child := 0, 1;
      ghost var ns, h := nodes[..], Heap();
      while child < size
        invariant 0 <= i && child == 2 * i + 1 && h == Heap() && Within(h, |ns|)
        invariant forall j :: 0 <= j < size ==> heap[j] < nodes.Length
        invariant size == 0 ==> i == 0
        invariant size > 0 ==> i < size && Trickle(h, ns, i, node) == Trickle(old(Heap()), ns, 0, node)
      {
        if child + 1 < size && nodes[heap[child]].total > nodes[heap[child + 1]].total {
          child := child + 1;
        }
        assert child == SmallerChild(h, ns, i);
        TrickleStep(h, ns, i, node);
        heap[i] := heap[child];
        h := h[i := h[child]];
        i := child;
        child := 2 * i + 1;
      }
      if size == 0 {
        heap[0] := node;
      } else {
        TrickleStep(h, ns, i, node);
        BubbleUp(i, node);
      }
    }

    /** Remove and return a node with the least total. */
    method Pop() returns (result: nat)
      requires Valid() && size > 0
      modifies this`size, heap
      ensures Valid() && result == old(Heap())[0] && Heap() == PopHeap(old(Heap()), nodes[..])
    {
      ghost var h := Heap();
      PopHeapCorrect(h, nodes[..]);
      result := heap[0];
      size := size - 1;
      assert Heap() == h[..size];
      TrickleDown(heap[size]);
    }

    method Push(node: nat)
      requires Valid() && size < capacity && node < nodes.Length
      modifies this`size, heap
      ensures Valid() && Heap() == PushHeap(old(Heap()), nodes[..], node)
    {
      ghost var h := Heap();
      PushHeapCorrect(h, nodes[..], node);
      size := size + 1;
      assert Heap()[size - 1 := node] == h + [node];
      BubbleUp(size - 1, node);
    }

    /** Restore the order after the total of one queued node was lowered from what it was in `ns0`. */
    method Modify(node: nat, ghost ns0: seq<Node>)
      requires Sized() && Ordered(Heap(), ns0) && |ns0| == nodes.Length && node < nodes.Length
      requires multiset(Heap())[node] <= 1
      requires forall k :: 0 <= k < |ns0| && k != node ==> nodes[k].total == ns0[k].total
      requires nodes[node].total <= ns0[node].total
      modifies heap
      ensures Valid() && multiset(Heap()) == multiset(old(Heap()))
    {
      for i := 0 to size
        invariant node !in heap[..i]
      {
        if heap[i] == node {
          ghost var h := Heap();
          OnlyOnce(h, i);
          ModifyHeapCorrect(h, ns0, nodes[..], i);
          assert h[i := node] == h;
          BubbleUp(i, node);
          return;
        }
      }
      ghost var h, ns := Heap(), nodes[..];
      forall j: nat
        ensures OrderedAt(h, ns, j)
      {
        assert OrderedAt(h, ns0, j);
      }
    }
  }

  lemma OnlyOnce(h: seq<nat>, i: nat)
    requires i < |h| && multiset(h)[h[i]] <= 1
    ensures forall j :: 0 <= j < |h| && j != i ==> h[j] != h[i]
  {
    forall j | 0 <= j < |h| && j != i
      ensures h[j] != h[i]
    {
      var a, b := if i < j then i else j, if i < j then j else i;
      assert h == h[..a] + [h[a]] + h[a + 1..b] + [h[b]] + h[b + 1..];
    }
  }
}
