/** findPath and getPathToNode on the node pool and the open list, proved against PathSearchModel. */
module PathSearch {
  import opened Basics
  import opened SearchNodes
  import opened NodePools
  import opened SearchStates
  import opened PathSearchModel

  datatype Status = InvalidParam | Success(partial: bool, bufferTooSmall: bool, outOfNodes: bool)

  method Start(st: SearchState, q: Query)
    requires st.Wired() && st.pool.Sized() && st.openList.Sized()
    modifies st.pool, st.pool.nodes, st.pool.first, st.pool.next, st.openList, st.openList.heap
    ensures st.Holds(Init(q).ns, Init(q).at)
  {
    hide SearchState.Holds;
    st.Clear();
    var i, ns, at := st.GetNode(q.startRef, 0, [], map[]);
    var n := Node(q.startPos, 0.0, q.dist(q.startPos, q.endPos) * H_SCALE, 0, 0, true, false, q.startRef);
    st.Improve(i, n, ns, at);
    assert ns[0 := n] == Init(q).ns;
  }

  /** What a step along `l` needs of the state. */
  ghost predicate Ready(s: Search, u: nat, l: Link) {
    && u < |s.ns| == |s.labels| == |s.chains|
    && var key := (l.ref, CrossSide(l));
       key in s.at ==>
         s.at[key] < |s.ns| && KeyOf(s.ns[s.at[key]]) == key && s.ns[s.at[key]].open != s.ns[s.at[key]].closed
  }

  /** The part of a step that follows the tests on the link: find the node and improve it if that pays. */
  method Visit(st: SearchState, q: Query, u: nat, parentRef: PolyRef, l: Link, lastBest: nat, lastCost: real,
               ghost s: Search)
    returns (outOfNodes: bool, best: nat, bestCost: real)
    requires st.Holds(s.ns, s.at) && Ready(s, u, l) && parentRef == ParentRef(s.ns, u)
    requires lastBest == s.best && lastCost == s.bestCost
    modifies st.pool, st.pool.nodes, st.pool.first, st.pool.next, st.openList, st.openList.heap
    ensures outOfNodes ==> st.Holds(s.ns, s.at) && best == s.best && bestCost == s.bestCost
    ensures outOfNodes ==> |s.ns| >= st.pool.nodes.Length
    ensures !outOfNodes ==> var s' := Relax(q, s, u, l);
      st.Holds(s'.ns, s'.at) && best == s'.best && bestCost == s'.bestCost
  {
    hide SearchState.Holds;
    best, bestCost := lastBest, lastCost;
    var j, ns, at := st.GetNode(l.ref, CrossSide(l), s.ns, s.at);
    if j == NULL_IDX {
      return true, best, bestCost;
    }
    outOfNodes := false;
    var bestNode := st.GetNodeAt(u, ns, at);
    var n := st.GetNodeAt(j, ns, at);
    if !n.open && !n.closed {
      n := n.(pos := q.edgeMidPoint(bestNode.id, l.ref));
    }
    assert n == Target(q, s, u, l) && j == TargetIndex(s, l);
    var cost, heuristic;
    if l.ref == q.endRef {
      var curCost := q.getCost(bestNode.pos, n.pos, parentRef, bestNode.id, l.ref);
      var endCost := q.getCost(n.pos, q.endPos, bestNode.id, l.ref, 0);
      cost, heuristic := bestNode.cost + curCost + endCost, 0.0;
    } else {
      var curCost := q.getCost(bestNode.pos, n.pos, parentRef, bestNode.id, l.ref);
      cost, heuristic := bestNode.cost + curCost, q.dist(n.pos, q.endPos) * H_SCALE;
    }
    var total := cost + heuristic;
    if n.open && total >= n.total {
      return;
    }
    if n.closed && total >= n.total {
      return;
    }
    var n' := n.(pidx := u + 1, id := l.ref, closed := false, cost := cost, total := total, open := true);
    assert n' == Improved(q, s, u, l);
    st.Improve(j, n', ns, at);
    assert ns[j := n'] == Relax(q, s, u, l).ns && at == Relax(q, s, u, l).at;
    if heuristic < bestCost {
      bestCost := heuristic;
      best := j;
    }
  }

  lemma ReadyToStep(q: Query, s: Search, u: nat, l: Link, done: seq<Link>, complete: bool)
    requires Inv(q, s, u, done, complete)
    ensures Ready(s, u, l)
  {
    assert NodeOk(q, s, u);
    var key := (l.ref, CrossSide(l));
    assert key in s.at ==> NodeOk(q, s, s.at[key]);
  }

  /** Follow one link of the node being expanded. */
  method FollowLink(st: SearchState, q: Query, u: nat, parentRef: PolyRef, l: Link, lastBest: nat, lastCost: real,
                    ghost s: Search, ghost done: seq<Link>, ghost complete: bool)
    returns (outOfNodes: bool, best: nat, bestCost: real, ghost s': Search)
    requires st.Holds(s.ns, s.at) && Inv(q, s, u, done, complete) && NonNegative(q)
    requires l in q.links(s.ns[u].id) && parentRef == ParentRef(s.ns, u)
    requires lastBest == s.best && lastCost == s.bestCost
    modifies st.pool, st.pool.nodes, st.pool.first, st.pool.next, st.openList, st.openList.heap
    ensures st.Holds(s'.ns, s'.at) && Inv(q, s', u, done + [l], complete && !outOfNodes)
    ensures Steps(s, s') && best == s'.best && bestCost == s'.bestCost
    ensures outOfNodes ==> |s'.ns| >= st.pool.nodes.Length
    ensures s'.ns[u].id == s.ns[u].id && parentRef == ParentRef(s'.ns, u)
  {
    hide SearchState.Holds, NodesOk, NodeOk, ParentsOk, BestOk, GoalOpen, Expanded, Steps, LabelsOk, ParentChains;
    outOfNodes, best, bestCost, s' := false, lastBest, lastCost, s;
    StepsRefl(s);
    if l.ref == 0 || l.ref == parentRef {
      SkipInv(q, s, u, l, done, complete);
      return;
    }
    if !q.passFilter(l.ref) {
      SkipInv(q, s, u, l, done, complete);
      return;
    }
    ReadyToStep(q, s, u, l, done, complete);
    outOfNodes, best, bestCost := Visit(st, q, u, parentRef, l, lastBest, lastCost, s);
    if !outOfNodes {
      s' := Relax(q, s, u, l);
      RelaxInv(q, s, u, l, done, complete);
      RelaxKeepsParent(q, s, u, l, done, complete);
    }
  }

  lemma StepsRefl(s: Search)
    ensures Steps(s, s)
  {
  }

  lemma StepsGrow(s: Search, s': Search)
    requires Steps(s, s')
    ensures |s.ns| <= |s'.ns|
  {
  }

  lemma StepsTrans(s: Search, s1: Search, s2: Search)
    requires Steps(s, s1) && Steps(s1, s2)
    ensures Steps(s, s2)
  {
  }

  lemma RelaxIdentities(q: Query, s: Search, u: nat, l: Link, done: seq<Link>, complete: bool)
    requires Inv(q, s, u, done, complete) && NonNegative(q) && Ready(s, u, l)
    ensures var s' := Relax(q, s, u, l); |s.ns| <= |s'.ns| && s'.ns[u] == s.ns[u]
    ensures var s' := Relax(q, s, u, l); forall i :: 0 <= i < |s.ns| ==> s'.ns[i].id == s.ns[i].id
  {
    if Pays(q, s, u, l) {
      var j := TargetIndex(s, l);
      PaysLowers(q, s, u, l);
      ImprovedCost(q, s, u, l);
      assert j < |s.ns| ==> Improved(q, s, u, l).id == s.ns[j].id;
      hide Inv, NodesOk, Target, StepCost, Heuristic, Improved, Rerouted;
      assert j != u;
    }
  }

  /** The node being expanded is not improved through itself, so its parent stays. */
  lemma RelaxKeepsParent(q: Query, s: Search, u: nat, l: Link, done: seq<Link>, complete: bool)
    requires Inv(q, s, u, done, complete) && NonNegative(q)
    requires Ready(s, u, l)
    ensures var s' := Relax(q, s, u, l);
      u < |s'.ns| && s'.ns[u].id == s.ns[u].id && ParentRef(s'.ns, u) == ParentRef(s.ns, u)
  {
    if Pays(q, s, u, l) {
      ParentInRange(q, s, u, done, complete);
      RelaxIdentities(q, s, u, l, done, complete);
      hide Inv, Relax;
    }
  }

  /** Follow all links of the node being expanded, in list order. */
  method FollowLinks(st: SearchState, q: Query, u: nat, parentRef: PolyRef, links: seq<Link>, lastBest: nat,
                     lastCost: real, ghost s: Search, ghost complete: bool)
    returns (outOfNodes: bool, best: nat, bestCost: real, ghost s': Search)
    requires st.Holds(s.ns, s.at) && Inv(q, s, u, [], complete) && NonNegative(q)
    requires links == q.links(s.ns[u].id) && parentRef == ParentRef(s.ns, u)
    requires lastBest == s.best && lastCost == s.bestCost
    modifies st.pool, st.pool.nodes, st.pool.first, st.pool.next, st.openList, st.openList.heap
    ensures st.Holds(s'.ns, s'.at) && Inv(q, s', -1, [], complete && !outOfNodes)
    ensures Steps(s, s') && best == s'.best && bestCost == s'.bestCost
    ensures outOfNodes ==> |s'.ns| >= st.pool.nodes.Length
  {
    hide SearchState.Holds, NodesOk, NodeOk, ParentsOk, BestOk, GoalOpen, Expanded, Steps, LabelsOk, ParentChains;
    outOfNodes, best, bestCost, s' := false, lastBest, lastCost, s;
    StepsRefl(s);
    for k := 0 to |links|
      invariant st.Holds(s'.ns, s'.at) && Inv(q, s', u, links[..k], complete && !outOfNodes)
      invariant Steps(s, s') && best == s'.best && bestCost == s'.bestCost
      invariant outOfNodes ==> |s'.ns| >= st.pool.nodes.Length
      invariant links == q.links(s'.ns[u].id) && parentRef == ParentRef(s'.ns, u)
    {
      ghost var s0 := s';
      var full;
      full, best, bestCost, s' := FollowLink(st, q, u, parentRef, links[k], best, bestCost, s0, links[..k],
                                             complete && !outOfNodes);
      StepsTrans(s, s0, s');
      StepsGrow(s0, s');
      assert links[..k + 1] == links[..k] + [links[k]];
      outOfNodes := outOfNodes || full;
    }
    assert links[..|links|] == links;
    ExpandedInv(q, s', u, complete && !outOfNodes);
  }

  // ----- The path to a node -----

  /** The chain facts getPathToNode relies on. */
  ghost predicate IsChain(ns: seq<Node>, c: seq<nat>, i: nat) {
    && c != [] && c[0] == i && Within(c, |ns|)
    && forall k :: 0 <= k < |c| ==> ns[c[k]].pidx == if k + 1 < |c| then c[k + 1] + 1 else 0
  }

  lemma ChainIsChain(q: Query, s: Search, i: nat)
    requires NodesOk(q, s) && ParentsOk(q, s.ns) && ParentChains(s.ns, s.chains) && i < |s.ns|
    ensures IsChain(s.ns, s.chains[i], i)
  {
    ChainFacts(q, s.ns, s.chains, i);
  }

  /** The number of nodes from `endNode` to the start. */
  method PathLength(st: SearchState, endNode: nat, ghost ns: seq<Node>, ghost at: map<Key, nat>, ghost c: seq<nat>)
    returns (length: nat)
    requires st.Holds(ns, at) && IsChain(ns, c, endNode)
    ensures length == |c|
  {
    hide SearchState.Holds;
    var pidx := endNode + 1;
    length := 0;
    while pidx != 0
      invariant 0 <= length <= |c| && pidx == if length < |c| then c[length] + 1 else 0
      decreases |c| - length
    {
      var n := st.GetNodeAt(pidx - 1, ns, at);
      length, pidx := length + 1, n.pidx;
    }
  }

  /** The ancestor `steps` parents above a node, as an index plus one. */
  method Ancestor(st: SearchState, endNode: nat, steps: nat,
                  ghost ns: seq<Node>, ghost at: map<Key, nat>, ghost c: seq<nat>)
    returns (pidx: nat)
    requires st.Holds(ns, at) && IsChain(ns, c, endNode) && steps < |c|
    ensures pidx == c[steps] + 1
  {
    hide SearchState.Holds;
    pidx := endNode + 1;
    for k := 0 to steps
      invariant pidx == c[k] + 1
    {
      var n := st.GetNodeAt(pidx - 1, ns, at);
      pidx := n.pidx;
    }
  }

  /** Write the start of the path to a node, as much of it as fits. */
  method GetPathToNode(st: SearchState, endNode: nat, path: array<PolyRef>,
                       ghost ns: seq<Node>, ghost at: map<Key, nat>, ghost c: seq<nat>)
    returns (pathCount: nat, bufferTooSmall: bool)
    requires st.Holds(ns, at) && IsChain(ns, c, endNode) && path.Length > 0
    requires path != st.pool.first && path != st.pool.next && path != st.openList.heap
    modifies path
    ensures st.Holds(ns, at)
    ensures pathCount == Min(|c|, path.Length) && (bufferTooSmall <==> |c| > path.Length)
    ensures path[..pathCount] == PathRefs(ns, c, pathCount)
  {
    hide SearchState.Holds;
    var length := PathLength(st, endNode, ns, at, c);
    var writeCount := if length > path.Length then path.Length else length;
    var pidx := Ancestor(st, endNode, length - writeCount, ns, at, c);
    var i := writeCount;
    while i > 0
      invariant 0 <= i <= writeCount && st.Holds(ns, at)
      invariant pidx == if i > 0 then c[|c| - i] + 1 else 0
      invariant forall k :: i <= k < writeCount ==> path[k] == ns[c[|c| - 1 - k]].id
    {
      i := i - 1;
      var n := st.GetNodeAt(pidx - 1, ns, at);
      path[i] := n.id;
      pidx := n.pidx;
    }
    pathCount, bufferTooSmall := writeCount, length > path.Length;
  }

  // ----- The search -----

  function OpenCount(ns: seq<Node>): nat {
    if ns == [] then 0 else OpenCount(ns[..|ns| - 1]) + if ns[|ns| - 1].open then 1 else 0
  }

  lemma {:induction false} CloseCount(ns: seq<Node>, i: nat, n: Node)
    requires i < |ns| && ns[i].open && !n.open
    ensures OpenCount(ns[i := n]) + 1 == OpenCount(ns)
  {
    var k := |ns| - 1;
    if i < k {
      CloseCount(ns[..k], i, n);
      assert ns[i := n][..k] == ns[..k][i := n];
    } else {
      assert ns[i := n][..k] == ns[..k];
    }
  }

  /** How far a node is from the goal; a node of the goal polygon is there. */
  function ToGoal(q: Query, n: Node): real {
    if n.id == q.endRef then 0.0 else q.dist(n.pos, q.endPos)
  }

  /** No known node is nearer to the goal. */
  ghost predicate Nearest(q: Query, ns: seq<Node>, b: nat)
    requires b < |ns|
  {
    forall i :: 0 <= i < |ns| ==> ToGoal(q, ns[b]) <= ToGoal(q, ns[i])
  }

  /** How a search ends: with the goal taken off the open list, or with nothing open. */
  ghost predicate Ended(q: Query, s: Search, best: nat, complete: bool) {
    && NodesOk(q, s) && ParentsOk(q, s.ns) && ParentChains(s.ns, s.chains) && best < |s.ns|
    && Nearest(q, s.ns, best) && Discovered(q, s.ns)
    && (s.ns[best].id != q.endRef ==> forall i :: 0 <= i < |s.ns| ==> !s.ns[i].open)
    && (complete && s.ns[best].id != q.endRef ==> forall w :: Walk(q, w) ==> w[|w| - 1] != q.endRef)
    && (Plain(q) ==> ParentsPaid(q, s.ns))
    && (complete && Plain(q) && s.ns[best].id == q.endRef ==> GoalLeast(q, s.ns, s.ns[best].cost))
  }

  lemma GoalEnds(q: Query, s: Search, i: nat, complete: bool)
    requires Inv(q, s, -1, [], complete) && NonNegative(q) && i < |s.ns| && s.ns[i].open && s.ns[i].id == q.endRef
    requires forall j :: 0 <= j < |s.ns| && s.ns[j].open ==> s.ns[i].total <= s.ns[j].total
    ensures Ended(q, Close(s, i), i, complete)
  {
    hide TightNodes;
    DiscoveredFrame(q, s.ns, Close(s, i).ns);
    CloseNodes(q, s, i);
    CloseCheap(q, s, i, complete);
    var ns' := Close(s, i).ns;
    forall pos: PolyRef -> Vec, w |
      complete && Plain(q) && Placed(ns', pos) && Admissible(q, pos) && Walk(q, w) && w[|w| - 1] == q.endRef
      ensures ns'[i].cost <= WalkCost(q, pos, w)
    {
      forall k | 0 <= k < |s.ns|
        ensures pos(s.ns[k].id) == s.ns[k].pos
      {
        assert pos(ns'[k].id) == ns'[k].pos;
      }
      OpenGoalIsLeast(q, s, i, pos, w);
    }
  }

  lemma ExhaustionEnds(q: Query, s: Search, complete: bool)
    requires Inv(q, s, -1, [], complete) && forall i :: 0 <= i < |s.ns| ==> !s.ns[i].open
    ensures Ended(q, s, s.best, complete)
  {
    if complete {
      forall w | Walk(q, w)
        ensures w[|w| - 1] != q.endRef
      {
        ExhaustedMeansUnreachable(q, s, w);
      }
    }
  }

  /** The progress of one round: a way was used for the first time, or nothing changed but the closed node. */
  lemma RoundProgress(q: Query, s: Search, i: nat, s': Search, m: nat, complete: bool)
    requires i < |s.ns| && s.ns[i].open && Steps(Close(s, i), s') && LabelsOk(q, s') && |s'.ns| <= m
    ensures s'.used == s.used ==> OpenCount(s'.ns) < OpenCount(s.ns)
    ensures s'.used != s.used ==> Ways(m, m) - s'.used < Ways(m, m) - s.used
  {
    UsedBound(q, s', m);
    CloseCount(s.ns, i, Close(s, i).ns[i]);
    if s'.used != s.used {
      var p :| p in s'.used && p !in s.used;
      assert p in Ways(m, m) - s.used && p !in Ways(m, m) - s'.used;
    }
  }

  /** One round: close a least open node and, unless it is the goal, expand it. */
  method Round(st: SearchState, q: Query, lastBest: nat, lastCost: real, ghost s: Search, ghost complete: bool)
    returns (found: bool, outOfNodes: bool, best: nat, bestCost: real, ghost s': Search)
    requires st.Holds(s.ns, s.at) && Inv(q, s, -1, [], complete) && NonNegative(q) && !st.openList.Empty()
    requires lastBest == s.best && lastCost == s.bestCost
    modifies st.pool, st.pool.nodes, st.pool.first, st.pool.next, st.openList, st.openList.heap
    ensures st.Holds(s'.ns, s'.at) && |s.ns| <= |s'.ns|
    ensures outOfNodes ==> |s'.ns| >= st.pool.nodes.Length
    ensures found ==> Ended(q, s', best, complete) && !outOfNodes
    ensures !found ==>
      && Inv(q, s', -1, [], complete && !outOfNodes) && best == s'.best && bestCost == s'.bestCost
      && (s'.used == s.used ==> OpenCount(s'.ns) < OpenCount(s.ns))
      && (s'.used != s.used ==>
            Ways(st.pool.nodes.Length, st.pool.nodes.Length) - s'.used <
            Ways(st.pool.nodes.Length, st.pool.nodes.Length) - s.used)
  {
    hide SearchState.Holds, NodesOk, NodeOk, ParentsOk, BestOk, GoalOpen, Expanded, Steps, LabelsOk, ParentChains,
      Ended, Ways;
    best, bestCost, outOfNodes := lastBest, lastCost, false;
    var i := st.PopBest(s.ns, s.at);
    s' := Close(s, i);
    var bestNode := st.GetNodeAt(i, s'.ns, s'.at);
    if bestNode.id == q.endRef {
      best, found := i, true;
      GoalEnds(q, s, i, complete);
      return;
    }
    found := false;
    CloseInv(q, s, i, complete);
    ghost var c := s';
    var parentRef := 0;
    ParentInRange(q, c, i, [], complete);
    if bestNode.pidx != 0 {
      var parent := st.GetNodeAt(bestNode.pidx - 1, c.ns, c.at);
      parentRef := parent.id;
    }
    outOfNodes, best, bestCost, s' :=
      FollowLinks(st, q, i, parentRef, q.links(bestNode.id), lastBest, lastCost, c, complete);
    st.HoldsBound(s'.ns, s'.at);
    StepsGrow(c, s');
    RoundProgress(q, s, i, s', st.pool.nodes.Length, complete);
  }

  lemma ParentInRange(q: Query, s: Search, u: nat, done: seq<Link>, complete: bool)
    requires Inv(q, s, u, done, complete) && u < |s.ns|
    ensures s.ns[u].pidx <= |s.ns|
  {
    assert u > 0 ==> ParentOk(q, s.ns, u);
  }

  /** Search until the goal is taken off the open list or nothing is open any more. */
  method Search(st: SearchState, q: Query) returns (best: nat, outOfNodes: bool, ghost s: PathSearchModel.Search)
    requires st.Wired() && st.pool.Sized() && st.openList.Sized() && NonNegative(q) && q.startRef != q.endRef
    modifies st.pool, st.pool.nodes, st.pool.first, st.pool.next, st.openList, st.openList.heap
    ensures st.Holds(s.ns, s.at) && Ended(q, s, best, !outOfNodes)
    ensures outOfNodes ==> |s.ns| == st.pool.nodes.Length
  {
    hide SearchState.Holds, Inv, NodesOk, ParentsOk, ParentChains, Ended, Ways;
    Start(st, q);
    s := Init(q);
    InitInv(q);
    var bestCost := q.dist(q.startPos, q.endPos) * H_SCALE;
    best, outOfNodes := 0, false;
    var more := st.NonEmpty(s.ns, s.at);
    while more
      invariant st.Holds(s.ns, s.at) && Inv(q, s, -1, [], !outOfNodes) && best == s.best && bestCost == s.bestCost
      invariant outOfNodes ==> |s.ns| >= st.pool.nodes.Length
      invariant more ==> !st.openList.Empty()
      invariant !more ==> forall i :: 0 <= i < |s.ns| ==> !s.ns[i].open
      decreases Ways(st.pool.nodes.Length, st.pool.nodes.Length) - s.used, OpenCount(s.ns)
    {
      var found, full;
      found, full, best, bestCost, s := Round(st, q, best, bestCost, s, !outOfNodes);
      if found {
        st.HoldsBound(s.ns, s.at);
        return;
      }
      outOfNodes := outOfNodes || full;
      more := st.NonEmpty(s.ns, s.at);
    }
    st.HoldsBound(s.ns, s.at);
    ExhaustionEnds(q, s, !outOfNodes);
  }

  /** What a path from the start says: it ends at the goal or, if it is partial, as near to it as any known node is,
      every known node having been expanded; `complete` tells that the pool never ran out of nodes. */
  ghost predicate FullOk(q: Query, ns: seq<Node>, full: seq<PolyRef>, partial: bool, complete: bool) {
    && Walk(q, full) && (partial <==> full[|full| - 1] != q.endRef)
    && (q.startRef != q.endRef ==> exists b :: 0 <= b < |ns| && ns[b].id == full[|full| - 1] && Nearest(q, ns, b))
    && (partial ==> forall i :: 0 <= i < |ns| ==> !ns[i].open)
    && (partial && complete ==> forall w :: Walk(q, w) ==> w[|w| - 1] != q.endRef)
    && (Plain(q) && !partial && complete ==> LeastPath(q, ns, full))
  }

  /** What is stored is such a path, or as much of it as `max` polygons hold. */
  ghost predicate PathOk(q: Query, ns: seq<Node>, path: seq<PolyRef>, max: nat, status: Status) {
    && status.Success?
    && exists full: seq<PolyRef> :: FullOk(q, ns, full, status.partial, !status.outOfNodes) &&
                      path == Take(full, max) && (status.bufferTooSmall <==> |full| > max)
  }

  /** Where polygons lie so that the heuristic is admissible, no walk to the goal costs less than the path. */
  ghost predicate LeastPath(q: Query, ns: seq<Node>, path: seq<PolyRef>) {
    forall pos: PolyRef -> Vec :: Placed(ns, pos) && Admissible(q, pos) ==>
      LeastUnder(q, pos, WalkCost(q, pos, path))
  }

  lemma StoredPathOk(q: Query, s: PathSearchModel.Search, best: nat, max: nat, status: Status)
    requires status.Success? && Ended(q, s, best, !status.outOfNodes) && max > 0
    requires Within(s.chains[best], |s.ns|)
    requires status.bufferTooSmall <==> |s.chains[best]| > max
    requires status.partial <==> s.ns[best].id != q.endRef
    ensures PathOk(q, s.ns, PathRefs(s.ns, s.chains[best], Min(|s.chains[best]|, max)), max, status)
  {
    ChainIsChain(q, s, best);
    var c := s.chains[best];
    var full := PathRefs(s.ns, c, |c|);
    PathIsWalk(q, s, best, |c|);
    if Plain(q) && !status.partial && !status.outOfNodes {
      StoredPathLeast(q, s, best);
    }
    assert PathRefs(s.ns, c, Min(|c|, max)) == Take(full, max);
    hide ParentsOk, ParentChains, NodesOk, Discovered, LeastPath, Plain;
    assert FullOk(q, s.ns, full, status.partial, !status.outOfNodes);
  }

  lemma StoredPathLeast(q: Query, s: PathSearchModel.Search, best: nat)
    requires Ended(q, s, best, true) && Plain(q) && s.ns[best].id == q.endRef && Within(s.chains[best], |s.ns|)
    ensures LeastPath(q, s.ns, PathRefs(s.ns, s.chains[best], |s.chains[best]|))
  {
    hide ParentsOk, ParentChains, ParentsPaid, Placed, Admissible, Plain, Nearest;
    ChainEnds(q, s.ns, s.chains, best);
    var path := PathRefs(s.ns, s.chains[best], |s.chains[best]|);
    forall pos: PolyRef -> Vec | Placed(s.ns, pos) && Admissible(q, pos)
      ensures LeastUnder(q, pos, WalkCost(q, pos, path))
    {
      PathCost(q, s, best, pos);
      assert LeastUnder(q, pos, s.ns[best].cost);
    }
  }

  /** With metric distances and steps that cost at least the scaled distance, a path that reaches the goal is a cheapest
      walk. */
  lemma FoundPathIsCheapest(q: Query, ns: seq<Node>, path: seq<PolyRef>, max: nat, status: Status,
                            pos: PolyRef -> Vec, w: seq<PolyRef>)
    requires PathOk(q, ns, path, max, status)
    requires !status.partial && !status.outOfNodes && !status.bufferTooSmall
    requires Plain(q) && NonNegative(q) && CostsDistance(q) && Placed(ns, pos)
    requires Walk(q, w) && w[|w| - 1] == q.endRef
    ensures WalkCost(q, pos, path) <= WalkCost(q, pos, w)
  {
    hide WalkCost, CostsDistance, Admissible, Plain, NonNegative, Placed;
    DistanceIsAdmissible(q, pos);
    assert LeastPath(q, ns, path);
    assert LeastUnder(q, pos, WalkCost(q, pos, path));
  }

  /** The path of the start alone. */
  lemma StartPathOk(q: Query)
    requires q.startRef == q.endRef && NonNegative(q)
    ensures FullOk(q, [], [q.startRef], false, true)
  {
    forall pos: PolyRef -> Vec, w | Walk(q, w)
      ensures WalkCost(q, pos, [q.startRef]) <= WalkCost(q, pos, w)
    {
      WalkCostNonNegative(q, pos, w);
    }
  }

  lemma PathOkBy(q: Query, ns: seq<Node>, full: seq<PolyRef>, max: nat, status: Status)
    requires status.Success? && FullOk(q, ns, full, status.partial, !status.outOfNodes)
    requires status.bufferTooSmall <==> |full| > max
    ensures PathOk(q, ns, Take(full, max), max, status)
  {
    hide FullOk;
  }

  /** The part of findPath that searches. */
  method SearchPath(st: SearchState, q: Query, path: array<PolyRef>)
    returns (status: Status, pathCount: nat, ghost known: seq<Node>, ghost at: map<Key, nat>)
    requires st.Wired() && st.pool.Sized() && st.openList.Sized() && NonNegative(q)
    requires path != st.pool.first && path != st.pool.next && path != st.openList.heap
    requires path.Length > 0 && q.startRef != q.endRef
    modifies st.pool, st.pool.nodes, st.pool.first, st.pool.next, st.openList, st.openList.heap, path
    ensures st.Holds(known, at) && Discovered(q, known) && status.Success? && pathCount <= path.Length
    ensures PathOk(q, known, path[..pathCount], path.Length, status)
    ensures status.outOfNodes ==> |known| == st.pool.nodes.Length
  {
    hide SearchState.Holds, NodesOk, ParentsOk, PathOk, Discovered;
    ghost var s;
    var best, outOfNodes, bufferTooSmall;
    best, outOfNodes, s := Search(st, q);
    ChainIsChain(q, s, best);
    pathCount, bufferTooSmall := GetPathToNode(st, best, path, s.ns, s.at, s.chains[best]);
    var bestNode := st.GetNodeAt(best, s.ns, s.at);
    status, known, at := Success(bestNode.id != q.endRef, bufferTooSmall, outOfNodes), s.ns, s.at;
    StoredPathOk(q, s, best, path.Length, status);
  }

  /** findPath. After a search, `known` and `at` are the nodes in the pool. */
  method FindPath(st: SearchState, q: Query, path: array<PolyRef>)
    returns (status: Status, pathCount: nat, ghost known: seq<Node>, ghost at: map<Key, nat>)
    requires st.Wired() && st.pool.Sized() && st.openList.Sized() && NonNegative(q)
    requires path != st.pool.first && path != st.pool.next && path != st.openList.heap
    modifies st.pool, st.pool.nodes, st.pool.first, st.pool.next, st.openList, st.openList.heap, path
    ensures st.Wired() && st.pool.Sized() && st.openList.Sized()
    ensures status.InvalidParam? <==> !q.isValid(q.startRef) || !q.isValid(q.endRef) || path.Length == 0
    ensures status.Success? && q.startRef != q.endRef ==> st.Holds(known, at) && Discovered(q, known)
    ensures status.Success? ==> pathCount <= path.Length && PathOk(q, known, path[..pathCount], path.Length, status)
    ensures status.Success? && status.outOfNodes ==> |known| == st.pool.nodes.Length
  {
    hide SearchState.Holds, PathOk, FullOk, Discovered;
    pathCount, known, at := 0, [], map[];
    if !q.isValid(q.startRef) || !q.isValid(q.endRef) || path.Length == 0 {
      return InvalidParam, 0, known, at;
    }
    if q.startRef == q.endRef {
      path[0] := q.startRef;
      StartPathOk(q);
      assert path[..1] == [q.startRef] == Take([q.startRef], path.Length);
      PathOkBy(q, [], [q.startRef], path.Length, Success(false, false, false));
      return Success(false, false, false), 1, known, at;
    }
    status, pathCount, known, at := SearchPath(st, q, path);
    st.HoldsSized(known, at);
  }
}
