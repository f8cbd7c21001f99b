/** findPolysAroundCircle on the node pool and the open list, proved against CircleSearchModel. */
module CircleSearch {
  import opened Basics
  import opened SearchNodes
  import opened NodePools
  import opened SearchStates
  import opened CircleSearchModel

  datatype Result =
    | InvalidParam
    | Found(refs: seq<PolyRef>, parents: seq<PolyRef>, costs: seq<real>, bufferTooSmall: bool, outOfNodes: bool)

  /** `cost` is what some walk to `ref` costs. */
  ghost predicate Reached(q: Query, start: PolyRef, pos: map<PolyRef, Vec>, ref: PolyRef, cost: real) {
    exists w :: Walk(q, start, w) && w[|w| - 1] == ref && Covers(pos, w) && WalkCost(q, pos, w) == cost
  }

  /** `cost` is attained by a walk to `ref` and no walk there costs less. */
  ghost predicate Least(q: Query, start: PolyRef, pos: map<PolyRef, Vec>, ref: PolyRef, cost: real) {
    && Reached(q, start, pos, ref, cost)
    && (forall w :: Walk(q, start, w) && w[|w| - 1] == ref ==> Covers(pos, w) && cost <= WalkCost(q, pos, w))
  }

  /** What is reported of the closed nodes: the first `max` of them in closing order. */
  ghost predicate Reported(s: Search, r: Result, max: nat)
    requires forall k :: 0 <= k < |s.order| ==> s.order[k] < |s.ns|
  {
    && r.Found? && |r.refs| == |r.parents| == |r.costs| == Min(|s.order|, max)
    && (r.bufferTooSmall <==> |s.order| > max)
    && forall k :: 0 <= k < |r.refs| ==>
        && r.refs[k] == s.ns[s.order[k]].id && r.costs[k] == s.ns[s.order[k]].total
        && r.parents[k] == ParentRef(s.ns, s.order[k])
  }

  /** The start is put on the open list. */
  method Start(st: SearchState, startRef: PolyRef, center: Vec)
    requires st.Wired() && st.pool.Sized() && st.openList.Sized()
    modifies st.pool, st.pool.nodes, st.pool.first, st.pool.next, st.openList, st.openList.heap
    ensures st.Holds(Init(startRef, center).ns, Init(startRef, center).at)
  {
    st.Clear();
    var i, ns, at := st.GetNode(startRef, 0, [], map[]);
    var n := Node(center, 0.0, 0.0, 0, 0, true, false, startRef);
    st.Improve(i, n, ns, at);
    assert ns[0 := n] == Init(startRef, center).ns;
  }

  /** What a step from `u` to `v` needs of the state. */
  ghost predicate Ready(q: Query, s: Search, u: nat, v: PolyRef) {
    && u < |s.ns| == |s.walks| && Expands(q, s.ns[u].id, v)
    && ((v, 0) in s.at ==>
          s.at[(v, 0)] < |s.ns| && KeyOf(s.ns[s.at[(v, 0)]]) == (v, 0) &&
          s.ns[s.at[(v, 0)]].open != s.ns[s.at[(v, 0)]].closed)
  }

  /** The part of a step that follows the tests on the link: find the node and improve it if that pays. */
  method Visit(st: SearchState, q: Query, u: nat, v: PolyRef, ghost s: Search) returns (outOfNodes: bool)
    requires st.Holds(s.ns, s.at) && Ready(q, s, u, v)
    modifies st.pool, st.pool.nodes, st.pool.first, st.pool.next, st.openList, st.openList.heap
    ensures outOfNodes ==> st.Holds(s.ns, s.at) && |s.ns| >= st.pool.nodes.Length
    ensures !outOfNodes ==> st.Holds(Relax(q, s, u, v).ns, Relax(q, s, u, v).at)
  {
    hide SearchState.Holds;
    var j, ns, at := st.GetNode(v, 0, s.ns, s.at);
    if j == NULL_IDX {
      return true;
    }
    outOfNodes := false;
    var best := st.GetNodeAt(u, ns, at);
    var n := st.GetNodeAt(j, ns, at);
    if n.closed {
      return;
    }
    var pos := n.pos;
    if !n.open && !n.closed {
      pos := Midpoint(q.portal(best.id, v));
    }
    var total := best.total + q.getCost(best.pos, pos, best.id, v);
    if n.open && total >= n.total {
      return;
    }
    var n' := n.(pos := pos, pidx := u + 1, total := total, open := true);
    st.Improve(j, n', ns, at);
    assert ns[j := n'] == Relax(q, s, u, v).ns;
  }

  /** Follow one link of the node being expanded. */
  method FollowLink(st: SearchState, q: Query, u: nat, parentRef: PolyRef, v: PolyRef,
                    ghost s: Search, ghost start: PolyRef, ghost done: seq<PolyRef>, ghost complete: bool)
    returns (outOfNodes: bool, ghost s': Search)
    requires st.Holds(s.ns, s.at) && Inv(q, start, s, u, done, complete) && NonNegative(q)
    requires v in q.links(s.ns[u].id) && parentRef == ParentRef(s.ns, u)
    modifies st.pool, st.pool.nodes, st.pool.first, st.pool.next, st.openList, st.openList.heap
    ensures st.Holds(s'.ns, s'.at) && Inv(q, start, s', u, done + [v], complete && !outOfNodes)
    ensures Refines(s, s', u) && (outOfNodes ==> |s'.ns| >= st.pool.nodes.Length)
  {
    hide SearchState.Holds, Refines, Settled, Attained, Parented, OrderOk, NodesOk, NodeOk, Tight;
    outOfNodes, s' := false, s;
    UnchangedRefines(q, start, s, u, done, complete);
    var best := st.GetNodeAt(u, s.ns, s.at);
    var bestRef := best.id;
    if v == 0 || v == parentRef {
      if v != 0 {
        ParentTight(q, start, s, u, done, complete);
      }
      SkipInv(q, start, s, u, done, v, complete);
      return;
    }
    if !q.passFilter(v) || q.portal(bestRef, v) == NoPortal ||
       !q.touches(q.portal(bestRef, v).va, q.portal(bestRef, v).vb) {
      SkipInv(q, start, s, u, done, v, complete);
      return;
    }
    ReadyToStep(q, start, s, u, done, v, complete);
    outOfNodes := Visit(st, q, u, v, s);
    if !outOfNodes {
      s' := Relax(q, s, u, v);
      RelaxRefines(q, start, s, u, done, v, complete);
      RelaxInv(q, start, s, u, done, v, complete);
    }
  }

  lemma ReadyToStep(q: Query, start: PolyRef, s: Search, u: nat, done: seq<PolyRef>, v: PolyRef, complete: bool)
    requires Inv(q, start, s, u, done, complete) && Expands(q, s.ns[u].id, v)
    ensures Ready(q, s, u, v)
  {
    assert NodeOk(s, u);
    assert (v, 0) in s.at ==> NodeOk(s, s.at[(v, 0)]);
  }

  lemma UnchangedRefines(q: Query, start: PolyRef, s: Search, u: nat, done: seq<PolyRef>, complete: bool)
    requires Inv(q, start, s, u, done, complete)
    ensures Refines(s, s, u)
  {
    assert u == s.order[|s.order| - 1];
  }

  method ParentOf(st: SearchState, q: Query, u: nat, ghost s: Search, ghost start: PolyRef, ghost complete: bool)
    returns (parentRef: PolyRef)
    requires st.Holds(s.ns, s.at) && Inv(q, start, s, u, [], complete)
    ensures parentRef == ParentRef(s.ns, u)
  {
    hide SearchState.Holds, Settled, Attained, OrderOk, NodesOk;
    ParentInRange(q, start, s, u, complete);
    var best := st.GetNodeAt(u, s.ns, s.at);
    parentRef := 0;
    if best.pidx > 0 {
      var parent := st.GetNodeAt(best.pidx - 1, s.ns, s.at);
      parentRef := parent.id;
    }
  }

  /** Follow all links of the node being expanded, in list order. */
  method FollowLinks(st: SearchState, q: Query, u: nat, parentRef: PolyRef, links: seq<PolyRef>,
                     ghost s: Search, ghost start: PolyRef, ghost complete: bool)
    returns (outOfNodes: bool, ghost s': Search)
    requires st.Holds(s.ns, s.at) && Inv(q, start, s, u, [], complete) && NonNegative(q)
    requires links == q.links(s.ns[u].id) && parentRef == ParentRef(s.ns, u)
    modifies st.pool, st.pool.nodes, st.pool.first, st.pool.next, st.openList, st.openList.heap
    ensures st.Holds(s'.ns, s'.at) && Inv(q, start, s', -1, [], complete && !outOfNodes)
    ensures Refines(s, s', u) && (outOfNodes ==> |s'.ns| >= st.pool.nodes.Length)
  {
    hide SearchState.Holds, Refines, Settled, Attained, Parented, OrderOk, NodesOk, NodeOk, Tight;
    outOfNodes, s' := false, s;
    UnchangedRefines(q, start, s, u, [], complete);
    for k := 0 to |links|
      invariant st.Holds(s'.ns, s'.at) && Inv(q, start, s', u, links[..k], complete && !outOfNodes)
      invariant Refines(s, s', u) && s'.ns[u] == s.ns[u] && parentRef == ParentRef(s'.ns, u)
      invariant outOfNodes ==> |s'.ns| >= st.pool.nodes.Length
    {
      ghost var s0 := s';
      var full;
      full, s' := FollowLink(st, q, u, parentRef, links[k], s0, start, links[..k], complete && !outOfNodes);
      RefinesMore(q, start, s, s0, s', u, links[..k], complete);
      assert links[..k + 1] == links[..k] + [links[k]];
      outOfNodes := outOfNodes || full;
    }
    assert links[..|links|] == links;
    ExpandedInv(q, start, s', u, complete && !outOfNodes);
  }

  lemma RefinesKeeps(s: Search, s': Search, u: nat)
    requires u < |s.ns| && Refines(s, s', u)
    ensures |s.ns| <= |s'.ns| && s'.order == s.order && forall x :: x in s.pos ==> x in s'.pos && s'.pos[x] == s.pos[x]
  {
  }

  lemma ParentInRange(q: Query, start: PolyRef, s: Search, u: nat, complete: bool)
    requires Inv(q, start, s, u, [], complete)
    ensures s.ns[u].pidx <= |s.ns|
  {
    assert NodeOk(s, u);
  }

  /** The node being expanded and its parent do not change while it is expanded. */
  lemma RefinesMore(q: Query, start: PolyRef, s: Search, s1: Search, s2: Search, u: nat,
                    done: seq<PolyRef>, complete: bool)
    requires u < |s.ns| && Refines(s, s1, u) && Refines(s1, s2, u) && s1.ns[u] == s.ns[u]
    requires exists c :: Inv(q, start, s1, u, done, c)
    ensures Refines(s, s2, u) && s2.ns[u] == s1.ns[u] && ParentRef(s2.ns, u) == ParentRef(s1.ns, u)
    ensures |s1.ns| <= |s2.ns|
  {
    assert NodeOk(s1, u) && u in s1.order && s1.ns[u].closed;
  }

  lemma ExpandedInv(q: Query, start: PolyRef, s: Search, u: nat, complete: bool)
    requires u < |s.ns| && Inv(q, start, s, u, q.links(s.ns[u].id), complete)
    ensures Inv(q, start, s, -1, [], complete)
  {
    if complete {
      forall i, v | 0 <= i < |s.ns| && s.ns[i].closed && Edge(q, s.ns[i].id, v)
        ensures Tight(q, s, i, v)
      {
      }
    }
  }

  // ----- The search -----

  /** The `k`th result's parent: none for the start, otherwise an earlier result from which the step to this one makes
      up its cost. */
  ghost predicate ParentOk(q: Query, start: PolyRef, pos: map<PolyRef, Vec>, r: Result, k: nat)
    requires r.Found? && |r.refs| == |r.parents| == |r.costs| && k < |r.refs|
  {
    if r.refs[k] == start then r.parents[k] == 0
    else
      exists j :: 0 <= j < k && r.parents[k] == r.refs[j] && Edge(q, r.refs[j], r.refs[k]) &&
                  r.refs[j] in pos && r.refs[k] in pos &&
                  r.costs[k] == r.costs[j] + q.getCost(pos[r.refs[j]], pos[r.refs[k]], r.refs[j], r.refs[k])
  }

  /** What the results mean for the caller, in terms of the final positions of the polygons and the number of nodes. */
  ghost predicate Meaning(q: Query, start: PolyRef, pos: map<PolyRef, Vec>, count: nat, r: Result, max: nat)
    requires r.Found? && |r.refs| == |r.parents| == |r.costs|
  {
    && Distinct(r.refs)
    && (forall j, k :: 0 <= j < k < |r.costs| ==> r.costs[j] <= r.costs[k])
    && |r.refs| == Min(count, max) && (r.bufferTooSmall <==> count > max)
    && (forall k :: 0 <= k < |r.refs| ==> Reached(q, start, pos, r.refs[k], r.costs[k]))
    && (forall k :: 0 <= k < |r.refs| ==> ParentOk(q, start, pos, r, k))
    && (!r.outOfNodes ==>
          && (forall k :: 0 <= k < |r.refs| ==> Least(q, start, pos, r.refs[k], r.costs[k]))
          && (!r.bufferTooSmall ==> forall w :: Walk(q, start, w) ==> w[|w| - 1] in r.refs))
  }

  /** The pool's nodes are the polygons with a position, each at its own. */
  ghost predicate NodesAt(ns: seq<Node>, at: map<Key, nat>, pos: map<PolyRef, Vec>) {
    && (forall i :: 0 <= i < |ns| ==> ns[i].id in pos && pos[ns[i].id] == ns[i].pos)
    && (forall x :: x in pos ==> (x, 0) in at && at[(x, 0)] < |ns| && ns[at[(x, 0)]].id == x)
  }

  function ReportNode(s: Search, i: nat, r: Result, max: nat): Result
    requires r.Found? && i < |s.ns|
  {
    if |r.refs| < max then
      r.(refs := r.refs + [s.ns[i].id], parents := r.parents + [ParentRef(s.ns, i)],
         costs := r.costs + [s.ns[i].total])
    else r.(bufferTooSmall := true)
  }

  lemma ReportClosed(s: Search, i: nat, r: Result, max: nat)
    requires NodesOk(s) && OrderOk(s) && i < |s.ns| && Reported(s, r, max)
    ensures forall k :: 0 <= k < |Close(s, i).order| ==> Close(s, i).order[k] < |s.ns|
    ensures Reported(Close(s, i), ReportNode(s, i, r, max), max)
  {
    var c, r' := Close(s, i), ReportNode(s, i, r, max);
    forall k | 0 <= k < |r'.refs|
      ensures r'.refs[k] == c.ns[c.order[k]].id && r'.costs[k] == c.ns[c.order[k]].total
      ensures r'.parents[k] == ParentRef(c.ns, c.order[k])
    {
      assert k < |r.refs| ==> c.order[k] == s.order[k];
    }
  }

  /** Expanding a node does not touch what was reported. */
  lemma ReportKept(s: Search, s': Search, u: nat, r: Result, max: nat)
    requires NodesOk(s) && OrderOk(s) && u < |s.ns| && Refines(s, s', u) && OrderOk(s') && Reported(s, r, max)
    ensures Reported(s', r, max)
  {
    forall k | 0 <= k < |r.refs|
      ensures s'.ns[s.order[k]] == s.ns[s.order[k]]
      ensures ParentRef(s'.ns, s.order[k]) == ParentRef(s.ns, s.order[k])
    {
      var n := s.order[k];
      assert n in s.order && NodeOk(s, n);
    }
  }

  lemma ReportDistinct(q: Query, start: PolyRef, s: Search, r: Result, max: nat, complete: bool)
    requires Inv(q, start, s, -1, [], complete) && Reported(s, r, max)
    ensures Distinct(r.refs) && forall j, k :: 0 <= j < k < |r.costs| ==> r.costs[j] <= r.costs[k]
  {
    forall j, k | 0 <= j < k < |r.refs|
      ensures r.refs[j] != r.refs[k]
    {
      assert NodeOk(s, s.order[j]) && NodeOk(s, s.order[k]);
    }
  }

  /** A closed node's total is the least cost of a walk to its polygon. */
  lemma ClosedIsLeast(q: Query, start: PolyRef, s: Search, i: nat)
    requires Inv(q, start, s, -1, [], true) && (forall j :: 0 <= j < |s.ns| ==> !s.ns[j].open) && i < |s.ns|
    ensures Least(q, start, s.pos, s.ns[i].id, s.ns[i].total)
  {
    assert AttainedBy(q, start, s, i) && NodeOk(s, i);
    forall w | Walk(q, start, w) && w[|w| - 1] == s.ns[i].id
      ensures Covers(s.pos, w) && s.ns[i].total <= WalkCost(q, s.pos, w)
    {
      NoWalkIsCheaper(q, start, s, w);
    }
  }

  /** Every polygon some walk reaches was closed. */
  lemma ReachedIsClosed(q: Query, start: PolyRef, s: Search, w: seq<PolyRef>)
    requires Inv(q, start, s, -1, [], true) && (forall j :: 0 <= j < |s.ns| ==> !s.ns[j].open)
    requires Walk(q, start, w)
    ensures exists k :: 0 <= k < |s.order| && s.ns[s.order[k]].id == w[|w| - 1]
  {
    NoWalkIsCheaper(q, start, s, w);
    var i := s.at[(w[|w| - 1], 0)];
    assert NodeOk(s, i) && i in s.order;
  }

  lemma ReportReached(q: Query, start: PolyRef, s: Search, r: Result, max: nat, complete: bool, k: nat)
    requires Inv(q, start, s, -1, [], complete) && Reported(s, r, max) && k < |r.refs|
    ensures Reached(q, start, s.pos, r.refs[k], r.costs[k])
  {
    assert AttainedBy(q, start, s, s.order[k]);
  }

  /** Where the parent of the `k`th closed node is in the order. */
  lemma ParentPlace(q: Query, start: PolyRef, s: Search, complete: bool, k: nat) returns (j: nat)
    requires Inv(q, start, s, -1, [], complete) && k < |s.order| && s.order[k] < |s.ns|
    ensures s.ns[s.order[k]].id == start ==> s.ns[s.order[k]].pidx == 0
    ensures s.ns[s.order[k]].id != start ==>
      && j < k && 0 < s.ns[s.order[k]].pidx <= |s.ns| && s.order[j] == s.ns[s.order[k]].pidx - 1
  {
    hide Settled, Attained, Located, Tight, Edge, OrderOk;
    var i := s.order[k];
    assert NodeOk(s, i) && NodeOk(s, 0) && ParentedAt(q, s, i) && ParentFirst(s, k);
    j := 0;
    if s.ns[i].id != start {
      var p := s.ns[i].pidx - 1;
      j :| 0 <= j < k && s.order[j] == p;
    }
  }

  lemma ReportParent(q: Query, start: PolyRef, s: Search, r: Result, max: nat, complete: bool, k: nat)
    requires Inv(q, start, s, -1, [], complete) && Reported(s, r, max) && k < |r.refs|
    ensures ParentOk(q, start, s.pos, r, k)
  {
    hide Settled, Attained, Located, Tight, Edge;
    var i := s.order[k];
    var j := ParentPlace(q, start, s, complete, k);
    if s.ns[i].id != start {
      var p := s.order[j];
      assert NodeOk(s, i) && NodeOk(s, p) && ParentedAt(q, s, i);
      hide Inv, NodesOk, OrderOk;
      assert r.refs[j] == s.ns[p].id && r.costs[j] == s.ns[p].total && r.parents[k] == s.ns[p].id;
    }
  }

  /** When nothing is open any more, every node was closed. */
  lemma AllClosed(s: Search)
    requires NodesOk(s) && OrderOk(s) && forall j :: 0 <= j < |s.ns| ==> !s.ns[j].open
    ensures |s.order| == |s.ns|
  {
    forall i | 0 <= i < |s.ns|
      ensures i in s.order
    {
      assert NodeOk(s, i);
    }
    DistinctBound(s.order, |s.ns|);
    DistinctCard(s.order);
    SubsetCard(Below(|s.ns|), Elements(s.order));
  }

  lemma ReportComplete(q: Query, start: PolyRef, s: Search, r: Result, max: nat)
    requires Inv(q, start, s, -1, [], true) && Reported(s, r, max)
    requires forall j :: 0 <= j < |s.ns| ==> !s.ns[j].open
    ensures forall k :: 0 <= k < |r.refs| ==> Least(q, start, s.pos, r.refs[k], r.costs[k])
    ensures !r.bufferTooSmall ==> forall w :: Walk(q, start, w) ==> w[|w| - 1] in r.refs
  {
    hide Settled, Attained, Located, Parented, Least, NodesOk;
    forall k | 0 <= k < |r.refs|
      ensures Least(q, start, s.pos, r.refs[k], r.costs[k])
    {
      ClosedIsLeast(q, start, s, s.order[k]);
    }
    if !r.bufferTooSmall {
      forall w | Walk(q, start, w)
        ensures w[|w| - 1] in r.refs
      {
        ReachedIsClosed(q, start, s, w);
        var k :| 0 <= k < |s.order| && s.ns[s.order[k]].id == w[|w| - 1];
        assert r.refs[k] == w[|w| - 1];
      }
    }
  }

  lemma ReportMeaning(q: Query, start: PolyRef, s: Search, r: Result, max: nat)
    requires r.Found? && Inv(q, start, s, -1, [], !r.outOfNodes) && Reported(s, r, max)
    requires forall j :: 0 <= j < |s.ns| ==> !s.ns[j].open
    ensures Meaning(q, start, s.pos, |s.ns|, r, max)
  {
    AllClosed(s);
    ReportDistinct(q, start, s, r, max, !r.outOfNodes);
    if !r.outOfNodes {
      ReportComplete(q, start, s, r, max);
    }
    forall k | 0 <= k < |r.refs|
      ensures Reached(q, start, s.pos, r.refs[k], r.costs[k]) && ParentOk(q, start, s.pos, r, k)
    {
      ReportReached(q, start, s, r, max, !r.outOfNodes, k);
      ReportParent(q, start, s, r, max, !r.outOfNodes, k);
    }
    hide Reached, ParentOk, Inv, Least;
  }

  lemma SearchNodesAt(q: Query, start: PolyRef, s: Search, complete: bool)
    requires Inv(q, start, s, -1, [], complete)
    ensures NodesAt(s.ns, s.at, s.pos)
  {
    forall i | 0 <= i < |s.ns|
      ensures s.ns[i].id in s.pos && s.pos[s.ns[i].id] == s.ns[i].pos
    {
      assert NodeOk(s, i);
    }
  }

  method FindPolysAroundCircle(st: SearchState, q: Query, startRef: PolyRef, center: Vec, maxResult: nat)
    returns (r: Result, ghost pos: map<PolyRef, Vec>, ghost known: seq<Node>, ghost at: map<Key, nat>)
    requires st.Wired() && st.pool.Sized() && st.openList.Sized() && NonNegative(q)
    modifies st.pool, st.pool.nodes, st.pool.first, st.pool.next, st.openList, st.openList.heap
    ensures st.Wired() && st.pool.Sized() && st.openList.Sized()
    ensures r.InvalidParam? <==> startRef == 0 || !q.isValid(startRef)
    ensures r.Found? ==> startRef in pos && pos[startRef] == center && Located(q, startRef, pos)
    ensures r.Found? ==> st.Holds(known, at) && NodesAt(known, at, pos)
    ensures r.Found? ==> |r.refs| == |r.parents| == |r.costs| <= maxResult
    ensures r.Found? ==> Meaning(q, startRef, pos, |known|, r, maxResult)
    ensures r.Found? && r.outOfNodes ==> |known| == st.pool.nodes.Length
  {
    hide SearchState.Holds, Refines, Settled, Attained, Parented, NodesOk, NodeOk, Tight;
    pos, known, at := map[], [], map[];
    if startRef == 0 || !q.isValid(startRef) {
      return InvalidParam, pos, known, at;
    }
    Start(st, startRef, center);
    ghost var s := Init(startRef, center);
    InitInv(q, startRef, center);
    r := Found([], [], [], false, false);
    var more := st.NonEmpty(s.ns, s.at);
    while more
      invariant st.Holds(s.ns, s.at) && r.Found? && Inv(q, startRef, s, -1, [], !r.outOfNodes)
      invariant Reported(s, r, maxResult)
      invariant more ==> !st.openList.Empty()
      invariant !more ==> forall i :: 0 <= i < |s.ns| ==> !s.ns[i].open
      invariant startRef in s.pos && s.pos[startRef] == center
      invariant r.outOfNodes ==> |s.ns| >= st.pool.nodes.Length
      decreases st.pool.nodes.Length - |s.order|
    {
      r, s := CloseBest(st, q, startRef, s, r, maxResult);
      more := st.NonEmpty(s.ns, s.at);
    }
    pos, known, at := s.pos, s.ns, s.at;
    st.HoldsSized(s.ns, s.at);
    st.HoldsBound(s.ns, s.at);
    SearchNodesAt(q, startRef, s, !r.outOfNodes);
    ReportMeaning(q, startRef, s, r, maxResult);
  }

  /** One round: close a least open node, report it and expand it. */
  method CloseBest(st: SearchState, q: Query, startRef: PolyRef, ghost s: Search, r: Result, maxResult: nat)
    returns (r': Result, ghost s': Search)
    requires st.Holds(s.ns, s.at) && r.Found? && Inv(q, startRef, s, -1, [], !r.outOfNodes) && NonNegative(q)
    requires Reported(s, r, maxResult) && !st.openList.Empty()
    requires r.outOfNodes ==> |s.ns| >= st.pool.nodes.Length
    modifies st.pool, st.pool.nodes, st.pool.first, st.pool.next, st.openList, st.openList.heap
    ensures st.Holds(s'.ns, s'.at) && r'.Found? && Inv(q, startRef, s', -1, [], !r'.outOfNodes)
    ensures Reported(s', r', maxResult) && (r'.outOfNodes ==> |s'.ns| >= st.pool.nodes.Length)
    ensures |s.order| < |s'.order| <= st.pool.nodes.Length
    ensures forall x :: x in s.pos ==> x in s'.pos && s'.pos[x] == s.pos[x]
  {
    hide SearchState.Holds, Refines, Settled, Attained, Parented, NodesOk, NodeOk, Tight;
    var i := st.PopBest(s.ns, s.at);
    ghost var c := Close(s, i);
    CloseInv(q, startRef, s, i, !r.outOfNodes);
    var best := st.GetNodeAt(i, c.ns, c.at);
    var parentRef := ParentOf(st, q, i, c, startRef, !r.outOfNodes);
    r' := r;
    if |r.refs| < maxResult {
      r' := r'.(refs := r.refs + [best.id], parents := r.parents + [parentRef], costs := r.costs + [best.total]);
    } else {
      r' := r'.(bufferTooSmall := true);
    }
    ReportClosed(s, i, r, maxResult);
    var outOfNodes;
    outOfNodes, s' := FollowLinks(st, q, i, parentRef, q.links(best.id), c, startRef, !r.outOfNodes);
    ReportKept(c, s', i, r', maxResult);
    r' := r'.(outOfNodes := r.outOfNodes || outOfNodes);
    st.HoldsBound(s'.ns, s'.at);
    DistinctBound(s'.order, |s'.ns|);
    RefinesKeeps(c, s', i);
  }
}
