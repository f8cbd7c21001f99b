/** dtNodePool: search nodes handed out in order and found again through chained hash buckets. */
module NodePools {
  import opened SearchNodes
  import opened SharedLists

  type Key = (PolyRef, nat)

  function KeyOf(n: Node): Key {
    (n.id, n.state)
  }

  /** The pool's null index as that of linked lists in general. */
  function LinkOf(x: nat): int {
    if x == NULL_IDX then NULL else x
  }

  function LinksOf(next: seq<nat>): (links: seq<int>)
    ensures |links| == |next| && forall i :: 0 <= i < |next| ==> links[i] == LinkOf(next[i])
  {
    seq(|next|, i requires 0 <= i < |next| => LinkOf(next[i]))
  }

  /** `list` is the chain that starts at `head` and follows `next`. */
  ghost predicate Linked(next: seq<nat>, head: nat, list: seq<nat>) {
    Chain(LinksOf(next), LinkOf(head), list)
  }

  lemma LinkedAt(next: seq<nat>, head: nat, list: seq<nat>, k: nat)
    requires Linked(next, head, list)
    ensures head == if list == [] then NULL_IDX else list[0]
    ensures forall j :: 0 <= j < |list| ==> list[j] < |next|
    ensures k < |list| ==> list[k] < |next| && next[list[k]] == if k + 1 < |list| then list[k + 1] else NULL_IDX
  {
    ChainAt(LinksOf(next), LinkOf(head), list, k);
  }

  lemma LinkedPush(next: seq<nat>, head: nat, list: seq<nat>, i: nat)
    requires Linked(next, head, list) && i < |next| && i !in list && i < NULL_IDX
    ensures Linked(next[i := head], i, [i] + list)
  {
    ChainPush(LinksOf(next), LinkOf(head), list, i);
    assert LinksOf(next[i := head]) == LinksOf(next)[i := LinkOf(head)];
  }

  lemma LinkedFrame(next: seq<nat>, next': seq<nat>, head: nat, list: seq<nat>)
    requires Linked(next, head, list) && |next'| == |next|
    requires forall i :: 0 <= i < |next| && i in list ==> next'[i] == next[i]
    ensures Linked(next', head, list)
  {
    ChainFrame(LinksOf(next), LinksOf(next'), LinkOf(head), list);
  }

  /** `list` is the chain of bucket `b`: strictly descending node indices below `count` that hash to `b`. */
  ghost predicate BucketOk(ns: seq<Node>, next: seq<nat>, head: nat, list: seq<nat>,
                           count: nat, bucketOf: PolyRef -> nat, b: nat)
    requires count <= |ns|
  {
    && Linked(next, head, list)
    && (forall k :: 0 <= k < |list| ==> list[k] < count && bucketOf(ns[list[k]].id) == b)
    && (forall j, k :: 0 <= j < k < |list| ==> list[j] > list[k])
  }

  /** The first `count` nodes are each on the chain of their own bucket, and the chains hold nothing else. */
  ghost predicate ChainsOk(ns: seq<Node>, first: seq<nat>, next: seq<nat>, count: nat,
                           chains: seq<seq<nat>>, bucketOf: PolyRef -> nat)
  {
    && |chains| == |first| && count <= |ns| == |next|
    && (forall id :: bucketOf(id) < |first|)
    && (forall b :: 0 <= b < |chains| ==> BucketOk(ns, next, first[b], chains[b], count, bucketOf, b))
    && (forall i :: 0 <= i < count ==> i in chains[bucketOf(ns[i].id)])
  }

  lemma BucketPush(ns: seq<Node>, next: seq<nat>, head: nat, list: seq<nat>, count: nat,
                   bucketOf: PolyRef -> nat, n: Node)
    requires count < |ns| == |next| <= NULL_IDX && BucketOk(ns, next, head, list, count, bucketOf, bucketOf(n.id))
    ensures BucketOk(ns[count := n], next[count := head], count, [count] + list, count + 1, bucketOf, bucketOf(n.id))
  {
    hide Linked;
    LinkedPush(next, head, list, count);
    var l := [count] + list;
    assert forall k :: 0 < k < |l| ==> l[k] == list[k - 1];
  }

  lemma BucketFrame(ns: seq<Node>, next: seq<nat>, head: nat, list: seq<nat>, count: nat,
                    bucketOf: PolyRef -> nat, b: nat, n: Node, x: nat)
    requires count < |ns| == |next| && BucketOk(ns, next, head, list, count, bucketOf, b)
    ensures BucketOk(ns[count := n], next[count := x], head, list, count + 1, bucketOf, b)
  {
    hide Linked;
    LinkedFrame(next, next[count := x], head, list);
  }

  /** Handing out the next node and pushing it on its bucket's chain keeps all chains right. */
  lemma PushChain(ns: seq<Node>, first: seq<nat>, next: seq<nat>, count: nat,
                  chains: seq<seq<nat>>, bucketOf: PolyRef -> nat, n: Node)
    requires ChainsOk(ns, first, next, count, chains, bucketOf) && count < |ns| <= NULL_IDX
    ensures bucketOf(n.id) < |chains|
    ensures var b := bucketOf(n.id);
      ChainsOk(ns[count := n], first[b := count], next[count := first[b]], count + 1,
               chains[b := [count] + chains[b]], bucketOf)
  {
    var b := bucketOf(n.id);
    var ns', next', chains' := ns[count := n], next[count := first[b]], chains[b := [count] + chains[b]];
    BucketPush(ns, next, first[b], chains[b], count, bucketOf, n);
    forall c | 0 <= c < |chains| && c != b
      ensures BucketOk(ns', next', first[c], chains[c], count + 1, bucketOf, c)
    {
      BucketFrame(ns, next, first[c], chains[c], count, bucketOf, c, n, first[b]);
    }
    forall i | 0 <= i < count + 1
      ensures i in chains'[bucketOf(ns'[i].id)]
    {
      assert i < count ==> i in chains[bucketOf(ns[i].id)];
    }
  }

  lemma ChainsFrame(ns: seq<Node>, ns': seq<Node>, first: seq<nat>, next: seq<nat>, count: nat,
                    chains: seq<seq<nat>>, bucketOf: PolyRef -> nat)
    requires ChainsOk(ns, first, next, count, chains, bucketOf) && |ns'| == |ns|
    requires forall i :: 0 <= i < count ==> ns'[i].id == ns[i].id
    ensures ChainsOk(ns', first, next, count, chains, bucketOf)
  {
    forall b | 0 <= b < |chains|
      ensures BucketOk(ns', next, first[b], chains[b], count, bucketOf, b)
    {
      assert BucketOk(ns, next, first[b], chains[b], count, bucketOf, b);
    }
    forall i | 0 <= i < count
      ensures i in chains[bucketOf(ns'[i].id)]
    {
      assert i in chains[bucketOf(ns[i].id)];
    }
  }

  /** The nodes on a chain that belong to a polygon, in chain order, up to `max` of them. */
  function Matches(ns: seq<Node>, list: seq<nat>, id: PolyRef, max: nat): (r: seq<nat>)
    requires forall k :: 0 <= k < |list| ==> list[k] < |ns|
    ensures |r| <= max
  {
    if list == [] then []
    else
      var n := |list| - 1;
      var r := Matches(ns, list[..n], id, max);
      if ns[list[n]].id == id && |r| < max then r + [list[n]] else r
  }

  lemma MatchesStep(ns: seq<Node>, list: seq<nat>, k: nat, id: PolyRef, max: nat)
    requires (forall j :: 0 <= j < |list| ==> list[j] < |ns|) && k < |list|
    ensures var r := Matches(ns, list[..k], id, max);
      Matches(ns, list[..k + 1], id, max) == if ns[list[k]].id == id && |r| < max then r + [list[k]] else r
  {
    assert list[..k + 1][..k] == list[..k];
  }

  lemma {:induction false} MatchesFull(ns: seq<Node>, list: seq<nat>, k: nat, id: PolyRef, max: nat)
    requires (forall j :: 0 <= j < |list| ==> list[j] < |ns|) && k <= |list|
    requires |Matches(ns, list[..k], id, max)| == max
    ensures Matches(ns, list, id, max) == Matches(ns, list[..k], id, max)
  {
    if k < |list| {
      assert list[..|list| - 1][..k] == list[..k];
      MatchesFull(ns, list[..|list| - 1], k, id, max);
    } else {
      assert list[..k] == list;
    }
  }

  /** Each match once, none of another polygon, and all of them unless the limit was reached. */
  lemma {:induction false} MatchesFacts(ns: seq<Node>, list: seq<nat>, id: PolyRef, max: nat)
    requires forall k :: 0 <= k < |list| ==> list[k] < |ns|
    requires forall j, k :: 0 <= j < k < |list| ==> list[j] > list[k]
    ensures var r := Matches(ns, list, id, max);
      && (forall j :: 0 <= j < |r| ==> r[j] in list && ns[r[j]].id == id)
      && (forall j, k :: 0 <= j < k < |r| ==> r[j] > r[k])
      && (|r| < max ==> forall i :: i in list && ns[i].id == id ==> i in r)
  {
    if list != [] {
      var n := |list| - 1;
      MatchesFacts(ns, list[..n], id, max);
      var r := Matches(ns, list[..n], id, max);
      assert forall i :: i in list[..n] ==> i > list[n];
      assert list == list[..n] + [list[n]];
    }
  }

  class NodePool {
    const nodes: array<Node>
    const first: array<nat>
    const next: array<nat>
    const bucketOf: PolyRef -> nat
    var nodeCount: nat

    ghost var chains: seq<seq<nat>>
    ghost var index: map<Key, nat>

    ghost predicate Sized()
      reads this
    {
      && 0 < nodes.Length <= NULL_IDX && next.Length == nodes.Length && nodeCount <= nodes.Length
      && first.Length > 0 && first != next
      && forall id :: bucketOf(id) < first.Length
    }

    /** No two handed-out nodes have the same polygon reference and state. */
    ghost predicate IndexOk()
      requires Sized()
      reads this, nodes
    {
      && (forall i :: 0 <= i < nodeCount ==> KeyOf(nodes[i]) in index && index[KeyOf(nodes[i])] == i)
      && (forall key :: key in index ==> index[key] < nodeCount && KeyOf(nodes[index[key]]) == key)
    }

    ghost predicate Valid()
      reads this, nodes, first, next
    {
      Sized() && ChainsOk(nodes[..], first[..], next[..], nodeCount, chains, bucketOf) && IndexOk()
    }

    constructor (maxNodes: nat, hashSize: nat, bucketOf: PolyRef -> nat)
      requires 0 < maxNodes <= NULL_IDX && 0 < hashSize
      requires forall id :: bucketOf(id) < hashSize
      ensures Valid() && nodeCount == 0 && index == map[]
      ensures nodes.Length == maxNodes && fresh(nodes) && fresh(first) && fresh(next)
    {
      nodes := new Node[maxNodes](_ => Node((0.0, 0.0, 0.0), 0.0, 0.0, 0, 0, false, false, 0));
      first := new nat[hashSize](_ => NULL_IDX);
      next := new nat[maxNodes](_ => NULL_IDX);
      this.bucketOf := bucketOf;
      nodeCount := 0;
      chains, index := seq(hashSize, _ => []), map[];
    }

    method Clear()
      requires Sized()
      modifies this`nodeCount, this`chains, this`index, first
      ensures Valid() && nodeCount == 0 && index == map[]
    {
      forall b | 0 <= b < first.Length {
        first[b] := NULL_IDX;
      }
      nodeCount := 0;
      chains, index := seq(first.Length, _ => []), map[];
    }

    /** What a bucket's chain says about the index. */
    lemma ChainIndex(id: PolyRef, state: nat)
      requires Valid()
      ensures var list := chains[bucketOf(id)];
        && Linked(next[..], first[bucketOf(id)], list)
        && (forall k :: 0 <= k < |list| ==> list[k] < nodeCount)
        && (forall k :: 0 <= k < |list| && KeyOf(nodes[list[k]]) == (id, state) ==>
              (id, state) in index && index[(id, state)] == list[k])
        && ((id, state) in index ==> index[(id, state)] in list)
    {
      hide Linked;
      var b, ns := bucketOf(id), nodes[..];
      assert BucketOk(ns, next[..], first[b], chains[b], nodeCount, bucketOf, b);
      if (id, state) in index {
        assert ns[index[(id, state)]].id == id;
      }
    }

    /** The handed-out node with this reference and state, or the null index. */
    method FindNode(id: PolyRef, state: nat) returns (i: nat)
      requires Valid()
      ensures i == if (id, state) in index then index[(id, state)] else NULL_IDX
    {
      ChainIndex(id, state);
      hide Linked, ChainsOk, IndexOk;
      ghost var list, k := chains[bucketOf(id)], 0;
      i := first[bucketOf(id)];
      LinkedAt(next[..], i, list, 0);
      while i != NULL_IDX
        invariant 0 <= k <= |list| && i == if k < |list| then list[k] else NULL_IDX
        invariant forall j :: 0 <= j < k ==> KeyOf(nodes[list[j]]) != (id, state)
        decreases |list| - k
      {
        if nodes[i].id == id && nodes[i].state == state {
          return;
        }
        LinkedAt(next[..], first[bucketOf(id)], list, k);
        i, k := next[i], k + 1;
      }
    }

    /** What MatchesFacts says of the chain is what FindNodes returns. */
    lemma FindNodesFacts(id: PolyRef, max: nat)
      requires Valid()
      ensures var r := Matches(nodes[..], chains[bucketOf(id)], id, max);
        && (forall j, k :: 0 <= j < k < |r| ==> r[j] > r[k])
        && (forall i :: i in r ==> i < nodeCount && nodes[i].id == id)
        && (|r| < max ==> forall i :: 0 <= i < nodeCount && nodes[i].id == id ==> i in r)
    {
      var b, ns := bucketOf(id), nodes[..];
      assert BucketOk(ns, next[..], first[b], chains[b], nodeCount, bucketOf, b);
      MatchesFacts(ns, chains[b], id, max);
      forall i | 0 <= i < nodeCount && nodes[i].id == id
        ensures i in chains[b]
      {
        assert i in chains[bucketOf(ns[i].id)];
      }
    }

    /** Follow the chain that starts at `head` and collect the nodes of a polygon. */
    method CollectMatches(head: nat, ghost list: seq<nat>, id: PolyRef, max: nat) returns (found: seq<nat>)
      requires next.Length == nodes.Length <= NULL_IDX && Linked(next[..], head, list)
      ensures found == Matches(nodes[..], list, id, max)
    {
      hide Linked;
      ghost var k, ns := 0, nodes[..];
      found := [];
      var i := head;
      LinkedAt(next[..], head, list, 0);
      while i != NULL_IDX
        invariant 0 <= k <= |list| && i == if k < |list| then list[k] else NULL_IDX
        invariant found == Matches(ns, list[..k], id, max)
        decreases |list| - k
      {
        MatchesStep(ns, list, k, id, max);
        if nodes[i].id == id {
          if |found| >= max {
            MatchesFull(ns, list, k, id, max);
            return;
          }
          found := found + [i];
        }
        LinkedAt(next[..], head, list, k);
        i, k := next[i], k + 1;
      }
      assert list[..k] == list;
    }

    /** The handed-out nodes of a polygon in chain order, up to `max` of them. */
    method FindNodes(id: PolyRef, max: nat) returns (found: seq<nat>)
      requires Valid()
      ensures found == Matches(nodes[..], chains[bucketOf(id)], id, max)
    {
      ghost var b := bucketOf(id);
      assert BucketOk(nodes[..], next[..], first[b], chains[b], nodeCount, bucketOf, b);
      found := CollectMatches(first[bucketOf(id)], chains[b], id, max);
    }

    /** Hand out the next node and link it in front of its bucket's chain. */
    method LinkNode(n: Node)
      requires Sized() && nodeCount < nodes.Length
      modifies this`nodeCount, nodes, first, next
      ensures Sized() && nodeCount == old(nodeCount) + 1
      ensures var i, b := old(nodeCount), bucketOf(n.id);
        && nodes[..] == old(nodes[..])[i := n] && first[..] == old(first[..])[b := i]
        && next[..] == old(next[..])[i := old(first[..])[b]]
    {
      var i, bucket := nodeCount, bucketOf(n.id);
      nodeCount := nodeCount + 1;
      nodes[i] := n;
      next[i] := first[bucket];
      first[bucket] := i;
    }

    /** Put a fresh node for `(id, state)` into the next unused cell. */
    method AllocNode(id: PolyRef, state: nat)
      requires Valid() && nodeCount < nodes.Length && (id, state) !in index
      modifies this`nodeCount, this`chains, this`index, nodes, first, next
      ensures Valid() && nodeCount == old(nodeCount) + 1
      ensures index == old(index)[(id, state) := old(nodeCount)]
      ensures nodes[..] == old(nodes[..])[old(nodeCount) :=
        Node(old(nodes[nodeCount].pos), 0.0, 0.0, 0, state, false, false, id)]
    {
      hide ChainsOk;
      var i, bucket := nodeCount, bucketOf(id);
      var n := Node(nodes[i].pos, 0.0, 0.0, 0, state, false, false, id);
      PushChain(nodes[..], first[..], next[..], i, chains, bucketOf, n);
      ghost var ns := nodes[..];
      LinkNode(n);
      chains := chains[bucket := [i] + chains[bucket]];
      index := index[(id, state) := i];
      assert forall k :: 0 <= k < i ==> nodes[k] == nodes[..][k] == ns[k];
      assert nodes[i] == nodes[..][i];
    }

    /** Write a handed-out node without changing its identity. */
    method SetNode(i: nat, n: Node)
      requires Valid() && i < nodeCount && KeyOf(n) == KeyOf(nodes[i])
      modifies nodes
      ensures Valid() && nodes[..] == old(nodes[..])[i := n]
    {
      hide Linked;
      ghost var ns := nodes[..];
      nodes[i] := n;
      ChainsFrame(ns, nodes[..], first[..], next[..], nodeCount, chains, bucketOf);
    }

    /** Find or allocate; the null index when the pool is exhausted. */
    method GetNode(id: PolyRef, state: nat) returns (i: nat)
      requires Valid()
      modifies this`nodeCount, this`chains, this`index, nodes, first, next
      ensures Valid()
      ensures (id, state) in old(index) ==>
        i == old(index)[(id, state)] && nodeCount == old(nodeCount) && index == old(index) &&
        nodes[..] == old(nodes[..])
      ensures (id, state) !in old(index) && old(nodeCount) >= nodes.Length ==>
        i == NULL_IDX && nodeCount == old(nodeCount) && index == old(index) && nodes[..] == old(nodes[..])
      ensures (id, state) !in old(index) && old(nodeCount) < nodes.Length ==>
        && i == old(nodeCount) && nodeCount == i + 1 && index == old(index)[(id, state) := i]
        && nodes[..] == old(nodes[..])[i := Node(old(nodes[nodeCount].pos), 0.0, 0.0, 0, state, false, false, id)]
    {
      i := FindNode(id, state);
      if i != NULL_IDX || nodeCount >= nodes.Length {
        return;
      }
      i := nodeCount;
      AllocNode(id, state);
    }
  }
}
