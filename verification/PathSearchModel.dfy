/** The A* search of findPath with reopening on an abstract state. */
module PathSearchModel {
  import opened Basics
  import opened SearchNodes

  datatype Link = Link(ref: PolyRef, side: nat)

  /** Geometry and the filter are parameters; costs are exact reals. The cost function may depend on the previous, the
      current and the next polygon, as a custom filter's may. */
  datatype Query = Query(
    isValid: PolyRef -> bool, links: PolyRef -> seq<Link>, passFilter: PolyRef -> bool,
    edgeMidPoint: (PolyRef, PolyRef) -> Vec, dist: (Vec, Vec) -> real,
    getCost: (Vec, Vec, PolyRef, PolyRef, PolyRef) -> real,
    startRef: PolyRef, endRef: PolyRef, startPos: Vec, endPos: Vec)

  const H_SCALE := 0.999
  const NO_SIDE := 0xff

  ghost predicate NonNegative(q: Query) {
    && (forall a, b, p, c, n :: q.getCost(a, b, p, c, n) >= 0.0)
    && (forall a, b :: q.dist(a, b) >= 0.0)
  }

  /** The search may step along this link. */
  predicate Follows(q: Query, l: Link) {
    l.ref != 0 && q.passFilter(l.ref)
  }

  ghost predicate Joined(q: Query, a: PolyRef, b: PolyRef) {
    exists l :: l in q.links(a) && l.ref == b && Follows(q, l)
  }

  ghost predicate Walk(q: Query, w: seq<PolyRef>) {
    w != [] && w[0] == q.startRef && forall k :: 0 <= k < |w| - 1 ==> Joined(q, w[k], w[k + 1])
  }

  function CrossSide(l: Link): nat {
    if l.side != NO_SIDE then l.side / 2 else 0
  }

  /** A side of a tile border (0 to 7) and the one clockwise of it share a state; edges inside a tile have state 0. */
  lemma CrossSides(l: Link)
    ensures l.side == 0xff ==> CrossSide(l) == 0
    ensures l.side < 8 ==> 2 * CrossSide(l) <= l.side <= 2 * CrossSide(l) + 1
  {
  }

  function Heuristic(q: Query, n: Node): real {
    if n.id == q.endRef then 0.0 else q.dist(n.pos, q.endPos) * H_SCALE
  }

  /** The cost of the step from `u`, reached through `parentRef`, to node `n`; the goal adds its own last leg. */
  function StepCost(q: Query, parentRef: PolyRef, u: Node, n: Node): real {
    q.getCost(u.pos, n.pos, parentRef, u.id, n.id) +
    if n.id == q.endRef then q.getCost(n.pos, q.endPos, u.id, n.id, 0) else 0.0
  }

  // ----- The search state -----

  /**
   Closed nodes are reopened when a cheaper way to them turns up, so a node's parent may change after others were
   reached through it. The lemmas below show that the parent chains stay acyclic and rooted at the start, that the
   search ends, and when it fails to find the goal.

   `best` and `bestCost` are lastBestNode and lastBestNodeCost. The rest is bookkeeping: `labels[i]` is the way node
   `i` was last improved along, as it was then; `chains[i]` its present parent chain, from `i` to the start; `used`
   all ways any node was ever improved along.
   */
  datatype Search = Search(
    ns: seq<Node>, at: map<(PolyRef, nat), nat>, best: nat, bestCost: real,
    labels: seq<seq<nat>>, chains: seq<seq<nat>>, used: set<seq<nat>>)

  function StartNode(q: Query): Node {
    Node(q.startPos, 0.0, q.dist(q.startPos, q.endPos) * H_SCALE, 0, 0, true, false, q.startRef)
  }

  function Init(q: Query): Search {
    Search([StartNode(q)], map[(q.startRef, 0) := 0], 0, StartNode(q).total, [[0]], [[0]], {[0]})
  }

  function Close(s: Search, i: nat): Search
    requires i < |s.ns|
  {
    s.(ns := s.ns[i := s.ns[i].(open := false, closed := true)])
  }

  function ParentRef(ns: seq<Node>, i: nat): PolyRef
    requires i < |ns|
  {
    if 0 < ns[i].pidx <= |ns| then ns[ns[i].pidx - 1].id else 0
  }

  /** The chains after node `j` got the tail `tail`: those through `j` change from there on. */
  function Rerouted(chains: seq<seq<nat>>, j: nat, tail: seq<nat>): (r: seq<seq<nat>>)
    ensures |r| == |chains|
  {
    seq(|chains|, i requires 0 <= i < |chains| =>
      Reroute(chains[i], j, tail))
  }

  /** The node a link leads to: the known one, or a fresh one at the edge's midpoint. */
  function Target(q: Query, s: Search, u: nat, l: Link): Node
    requires u < |s.ns|
  {
    var key := (l.ref, CrossSide(l));
    if key in s.at && s.at[key] < |s.ns| then s.ns[s.at[key]]
    else Node(q.edgeMidPoint(s.ns[u].id, l.ref), 0.0, 0.0, 0, CrossSide(l), false, false, l.ref)
  }

  function TargetIndex(s: Search, l: Link): nat {
    var key := (l.ref, CrossSide(l));
    if key in s.at then s.at[key] else |s.ns|
  }

  /** The target as an improvement through `u` would leave it. */
  function Improved(q: Query, s: Search, u: nat, l: Link): Node
    requires u < |s.ns|
  {
    var n := Target(q, s, u, l);
    var cost := s.ns[u].cost + StepCost(q, ParentRef(s.ns, u), s.ns[u], n);
    n.(pidx := u + 1, cost := cost, total := cost + Heuristic(q, n), open := true, closed := false)
  }

  predicate Pays(q: Query, s: Search, u: nat, l: Link)
    requires u < |s.ns|
  {
    var n := Target(q, s, u, l);
    (n.open || n.closed) ==> Improved(q, s, u, l).total < n.total
  }

  function Relax(q: Query, s: Search, u: nat, l: Link): Search
    requires u < |s.ns| && u < |s.labels| && u < |s.chains| && TargetIndex(s, l) <= |s.ns|
    requires |s.labels| == |s.chains| == |s.ns|
  {
    if !Pays(q, s, u, l) then s
    else
      var j, n := TargetIndex(s, l), Improved(q, s, u, l);
      var h := Heuristic(q, n);
      var way, tail := s.labels[u] + [j], [j] + s.chains[u];
      Search(
        if j < |s.ns| then s.ns[j := n] else s.ns + [n],
        s.at[(l.ref, CrossSide(l)) := j],
        if h < s.bestCost then j else s.best, if h < s.bestCost then h else s.bestCost,
        if j < |s.ns| then s.labels[j := way] else s.labels + [way],
        if j < |s.ns| then Rerouted(s.chains, j, tail) else s.chains + [tail],
        s.used + {way})
  }

  // ----- The invariant -----

  ghost predicate NodeOk(q: Query, s: Search, i: nat)
    requires i < |s.ns|
  {
    var n := s.ns[i];
    && (n.id, n.state) in s.at && s.at[(n.id, n.state)] == i
    && n.open != n.closed && n.cost >= 0.0 && n.total == n.cost + Heuristic(q, n)
  }

  ghost predicate NodesOk(q: Query, s: Search) {
    && s.ns != [] && s.ns[0].id == q.startRef && s.ns[0].cost == 0.0 && s.ns[0].pidx == 0
    && (forall i :: 0 <= i < |s.ns| ==> NodeOk(q, s, i))
    && (forall key :: key in s.at ==>
          s.at[key] < |s.ns| && key == (s.ns[s.at[key]].id, s.ns[s.at[key]].state))
  }

  /** Node `i`'s parent is known, not the goal, joined to `i` by a link, and costs no more. */
  ghost predicate ParentOk(q: Query, ns: seq<Node>, i: nat)
    requires i < |ns|
  {
    0 < ns[i].pidx <= |ns| &&
    var p := ns[ns[i].pidx - 1];
    p.id != q.endRef && Joined(q, p.id, ns[i].id) && p.cost <= ns[i].cost
  }

  ghost predicate ParentsOk(q: Query, ns: seq<Node>) {
    forall i :: 0 < i < |ns| ==> ParentOk(q, ns, i)
  }

  /** The parent chains: `[0]` for the start, otherwise the node followed by its parent's chain. */
  ghost predicate ParentChains(ns: seq<Node>, chains: seq<seq<nat>>) {
    && |chains| == |ns| && (|ns| > 0 ==> chains[0] == [0])
    && forall i :: 0 < i < |ns| ==> 0 < ns[i].pidx <= |ns| && chains[i] == [i] + chains[ns[i].pidx - 1]
  }

  function LabelCost(q: Query, ns: seq<Node>, p: seq<nat>): real
    requires Within(p, |ns|)
  {
    if |p| <= 1 then 0.0
    else
      var n := |p| - 1;
      LabelCost(q, ns, p[..n]) +
      StepCost(q, if n > 1 then ns[p[n - 2]].id else 0, ns[p[n - 1]], ns[p[n]])
  }

  /** A way some node was once improved along: no node twice, the goal only last, never better than the node is now. */
  ghost predicate UsedOk(q: Query, s: Search, p: seq<nat>) {
    && p != [] && Within(p, |s.ns|) && Distinct(p) && p[0] == 0
    && (forall k :: 0 <= k < |p| - 1 ==> s.ns[p[k]].id != q.endRef)
    && (|p| > 1 ==> p[..|p| - 1] in s.used)
    && s.ns[p[|p| - 1]].cost <= LabelCost(q, s.ns, p)
  }

  ghost predicate LabelOk(q: Query, s: Search, i: nat)
    requires i < |s.ns| && i < |s.labels|
  {
    var p := s.labels[i];
    && p in s.used && p != [] && Within(p, |s.ns|) && p[|p| - 1] == i
    && LabelCost(q, s.ns, p) == s.ns[i].cost
    && s.ns[i].pidx == if |p| > 1 then p[|p| - 2] + 1 else 0
  }

  ghost predicate LabelsOk(q: Query, s: Search) {
    && |s.labels| == |s.ns|
    && (forall i :: 0 <= i < |s.ns| ==> LabelOk(q, s, i))
    && (forall p :: p in s.used ==> UsedOk(q, s, p))
  }

  /** `best` is the known node with the least heuristic. */
  ghost predicate BestOk(q: Query, s: Search) {
    && s.best < |s.ns| && s.bestCost == Heuristic(q, s.ns[s.best])
    && forall i :: 0 <= i < |s.ns| ==> s.bestCost <= Heuristic(q, s.ns[i])
  }

  ghost predicate Known(ns: seq<Node>, ref: PolyRef) {
    exists i :: 0 <= i < |ns| && ns[i].id == ref
  }

  /** Every closed node's links lead to known polygons; of the node being expanded, those in `done`. */
  ghost predicate Expanded(q: Query, ns: seq<Node>, cur: int, done: seq<Link>) {
    forall i, l :: (0 <= i < |ns| && ns[i].closed && l in q.links(ns[i].id) && Follows(q, l) &&
                    (i == cur ==> l in done)) ==> Known(ns, l.ref)
  }

  ghost predicate GoalOpen(q: Query, ns: seq<Node>) {
    forall i :: 0 <= i < |ns| && ns[i].id == q.endRef ==> ns[i].open
  }

  /** A node came in through a link of its polygon's state and lies at the middle of the edge to it. */
  ghost predicate CameThrough(q: Query, n: Node, a: PolyRef, l: Link) {
    && l in q.links(a) && Follows(q, l) && l.ref == n.id && CrossSide(l) == n.state
    && n.pos == q.edgeMidPoint(a, n.id)
  }

  ghost predicate DiscoveredAt(q: Query, ns: seq<Node>, i: nat)
    requires i < |ns|
  {
    exists j, l :: 0 <= j < |ns| && CameThrough(q, ns[i], ns[j].id, l)
  }

  /** Every node but the first was discovered from a known polygon; the first is at the start position. */
  ghost predicate Discovered(q: Query, ns: seq<Node>) {
    && ns != [] && ns[0].id == q.startRef && ns[0].pos == q.startPos && ns[0].state == 0
    && forall i :: 0 < i < |ns| ==> DiscoveredAt(q, ns, i)
  }

  // ----- What makes a search find cheapest paths -----

  /** The cost of a step does not depend on where it was taken from. */
  ghost predicate Plain(q: Query) {
    forall a, b, p, p', c, n :: q.getCost(a, b, p, c, n) == q.getCost(a, b, p', c, n)
  }

  /** Some node of the polygon that link `l` leads to costs no more than the step from node `i`. */
  ghost predicate TightLink(q: Query, ns: seq<Node>, i: nat, l: Link)
    requires i < |ns|
  {
    exists j :: 0 <= j < |ns| && ns[j].id == l.ref && ns[j].cost <= ns[i].cost + StepCost(q, 0, ns[i], ns[j])
  }

  ghost predicate TightNode(q: Query, ns: seq<Node>, i: nat, links: seq<Link>)
    requires i < |ns|
  {
    forall l :: l in links && Follows(q, l) ==> TightLink(q, ns, i, l)
  }

  /** No step from a closed node can lower a cost any more; of the node being expanded, those along the links in
      `done`. */
  ghost predicate TightNodes(q: Query, ns: seq<Node>, cur: int, done: seq<Link>) {
    forall i :: 0 <= i < |ns| && ns[i].closed ==> TightNode(q, ns, i, if i == cur then done else q.links(ns[i].id))
  }

  /** A node costs at least what the step from its parent makes. */
  ghost predicate ParentPaid(q: Query, ns: seq<Node>, i: nat)
    requires i < |ns|
  {
    0 < ns[i].pidx <= |ns| ==>
      var p := ns[ns[i].pidx - 1];
      p.cost + StepCost(q, 0, p, ns[i]) <= ns[i].cost
  }

  ghost predicate ParentsPaid(q: Query, ns: seq<Node>) {
    forall i :: 0 < i < |ns| ==> ParentPaid(q, ns, i)
  }

  ghost predicate Cheap(q: Query, ns: seq<Node>, cur: int, done: seq<Link>, complete: bool) {
    Plain(q) ==> ParentsPaid(q, ns) && (complete ==> TightNodes(q, ns, cur, done))
  }

  /** `cur` is the node being expanded or -1; `complete` tells that the pool never ran out of nodes. */
  ghost predicate Inv(q: Query, s: Search, cur: int, done: seq<Link>, complete: bool) {
    && NodesOk(q, s) && ParentsOk(q, s.ns) && ParentChains(s.ns, s.chains) && LabelsOk(q, s) && BestOk(q, s)
    && GoalOpen(q, s.ns) && (complete ==> Expanded(q, s.ns, cur, done)) && Cheap(q, s.ns, cur, done, complete)
    && Discovered(q, s.ns)
    && (cur >= 0 ==> cur < |s.ns| && s.ns[cur].id != q.endRef)
  }

  // ----- Parent chains -----

  lemma {:induction false} ChainFactsAt(q: Query, ns: seq<Node>, chains: seq<seq<nat>>, i: nat, k: nat)
    requires ParentsOk(q, ns) && ParentChains(ns, chains) && i < |ns| && k < |chains[i]|
    ensures var c := chains[i];
      && c[0] == i && c[|c| - 1] == 0
      && c[k] < |ns| && ns[c[k]].cost <= ns[i].cost && chains[c[k]] == c[k..]
      && (k < |c| - 1 ==> c[k] > 0 && ns[c[k]].pidx == c[k + 1] + 1)
    decreases |chains[i]|
  {
    var c := chains[i];
    if i > 0 {
      assert ParentOk(q, ns, i);
      var p := ns[i].pidx - 1;
      assert c[1..] == chains[p];
      ChainNonEmpty(ns, chains, p);
      ChainFactsAt(q, ns, chains, p, if k > 0 then k - 1 else 0);
      assert k > 0 ==> c[k..] == c[1..][k - 1..];
      hide ParentsOk, ParentChains;
    }
  }

  lemma ChainNonEmpty(ns: seq<Node>, chains: seq<seq<nat>>, i: nat)
    requires ParentChains(ns, chains) && i < |ns|
    ensures chains[i] != []
  {
    assert i > 0 ==> chains[i] == [i] + chains[ns[i].pidx - 1];
  }

  /** A node's chain runs from the node to the start along parents, and no node on it costs more. */
  lemma ChainFacts(q: Query, ns: seq<Node>, chains: seq<seq<nat>>, i: nat)
    requires ParentsOk(q, ns) && ParentChains(ns, chains) && i < |ns|
    ensures var c := chains[i];
      && c != [] && c[0] == i && c[|c| - 1] == 0
      && (forall k :: 0 <= k < |c| ==> c[k] < |ns| && ns[c[k]].cost <= ns[i].cost && chains[c[k]] == c[k..])
      && (forall k :: 0 <= k < |c| - 1 ==> c[k] > 0 && ns[c[k]].pidx == c[k + 1] + 1)
  {
    var c := chains[i];
    ChainNonEmpty(ns, chains, i);
    assert |chains| == |ns|;
    hide ParentsOk, ParentChains;
    ChainFactsAt(q, ns, chains, i, 0);
    forall k | 0 <= k < |c|
      ensures c[k] < |ns| && ns[c[k]].cost <= ns[i].cost && chains[c[k]] == c[k..]
    {
      ChainFactsAt(q, ns, chains, i, k);
    }
    forall k | 0 <= k < |c| - 1
      ensures c[k] > 0 && ns[c[k]].pidx == c[k + 1] + 1
    {
      ChainFactsAt(q, ns, chains, i, k);
    }
  }

  /** Parent chains are acyclic. */
  lemma ChainDistinct(q: Query, ns: seq<Node>, chains: seq<seq<nat>>, i: nat)
    requires ParentsOk(q, ns) && ParentChains(ns, chains) && i < |ns|
    ensures Distinct(chains[i])
  {
    var c := chains[i];
    ChainFacts(q, ns, chains, i);
    forall j, k | 0 <= j < k < |c|
      ensures c[j] != c[k]
    {
      assert |chains[c[j]]| == |c| - j && |chains[c[k]]| == |c| - k;
    }
  }

  lemma IndexOfCons(x: nat, s: seq<nat>, j: nat)
    requires j in s && x != j
    ensures IndexOf([x] + s, j) == 1 + IndexOf(s, j)
  {
    assert ([x] + s)[1..] == s;
  }

  function Reroute(c: seq<nat>, j: nat, tail: seq<nat>): seq<nat> {
    if j in c then c[..IndexOf(c, j)] + tail else c
  }

  lemma CutCons(x: nat, c: seq<nat>, k: nat, tail: seq<nat>)
    requires k <= |c|
    ensures ([x] + c)[..1 + k] + tail == [x] + (c[..k] + tail)
  {
    assert ([x] + c)[..1 + k] == [x] + c[..k];
  }

  lemma RerouteCons(x: nat, c: seq<nat>, j: nat, tail: seq<nat>)
    requires x != j
    ensures Reroute([x] + c, j, tail) == [x] + Reroute(c, j, tail)
  {
    hide IndexOf;
    if j in c {
      IndexOfCons(x, c, j);
      CutCons(x, c, IndexOf(c, j), tail);
      assert j in [x] + c;
    }
  }

  lemma RerouteHead(j: nat, c: seq<nat>, tail: seq<nat>)
    ensures Reroute([j] + c, j, tail) == tail
  {
    assert IndexOf([j] + c, j) == 0;
  }

  lemma RerouteOther(c: seq<nat>, j: nat, tail: seq<nat>)
    requires j !in c
    ensures Reroute(c, j, tail) == c
  {
  }

  /** Giving node `j` a parent whose chain avoids `j` reroutes exactly the chains through `j`. */
  lemma RerouteOk(ns: seq<Node>, chains: seq<seq<nat>>, j: nat, u: nat, n: Node)
    requires ParentChains(ns, chains) && 0 < j < |ns| && u < |ns| && j !in chains[u] && n.pidx == u + 1
    ensures ParentChains(ns[j := n], Rerouted(chains, j, [j] + chains[u]))
  {
    hide Reroute, IndexOf;
    var tail := [j] + chains[u];
    var r := Rerouted(chains, j, tail);
    forall i | 0 < i < |ns| && i != j
      ensures r[i] == [i] + r[ns[i].pidx - 1]
    {
      RerouteCons(i, chains[ns[i].pidx - 1], j, tail);
    }
    RerouteHead(j, chains[ns[j].pidx - 1], tail);
    RerouteOther(chains[u], j, tail);
    RerouteOther([0], j, tail);
  }

  // ----- Ways -----

  lemma {:induction false} LabelCostFrame(q: Query, ns: seq<Node>, ns': seq<Node>, p: seq<nat>)
    requires Within(p, |ns|) && |ns| <= |ns'|
    requires forall i :: 0 <= i < |ns| ==> ns'[i].id == ns[i].id && ns'[i].pos == ns[i].pos
    ensures Within(p, |ns'|) && LabelCost(q, ns', p) == LabelCost(q, ns, p)
  {
    if |p| > 1 {
      LabelCostFrame(q, ns, ns', p[..|p| - 1]);
    }
  }

  lemma UsedPrefix(q: Query, s: Search, p: seq<nat>)
    requires LabelsOk(q, s) && NonNegative(q) && p in s.used
    ensures p != [] && Within(p, |s.ns|)
    ensures |p| > 1 ==>
      var f := p[..|p| - 1];
      f in s.used && Within(f, |s.ns|) && LabelCost(q, s.ns, f) <= LabelCost(q, s.ns, p)
  {
    assert UsedOk(q, s, p);
    hide LabelsOk, UsedOk;
  }

  /** Every prefix of a way was a way, and costs no more. */
  lemma {:induction false} PrefixUsed(q: Query, s: Search, p: seq<nat>, k: nat)
    requires LabelsOk(q, s) && NonNegative(q) && p in s.used && 0 < k <= |p|
    ensures p[..k] in s.used && Within(p, |s.ns|) && LabelCost(q, s.ns, p[..k]) <= LabelCost(q, s.ns, p)
    decreases |p|
  {
    hide LabelsOk, NonNegative, Within, LabelCost;
    UsedPrefix(q, s, p);
    if k < |p| {
      var n := |p| - 1;
      PrefixUsed(q, s, p[..n], k);
      assert p[..n][..k] == p[..k];
    } else {
      assert p[..k] == p;
    }
  }

  lemma ImprovedCost(q: Query, s: Search, u: nat, l: Link)
    requires NonNegative(q) && u < |s.ns|
    ensures Improved(q, s, u, l).cost >= s.ns[u].cost
  {
  }

  /** An improvement of a known node lowers its cost; the start is never improved. */
  lemma PaysLowers(q: Query, s: Search, u: nat, l: Link)
    requires NodesOk(q, s) && NonNegative(q) && u < |s.ns| && Pays(q, s, u, l)
    ensures TargetIndex(s, l) <= |s.ns| && TargetIndex(s, l) > 0
    ensures TargetIndex(s, l) < |s.ns| ==>
      Target(q, s, u, l) == s.ns[TargetIndex(s, l)] && Improved(q, s, u, l).cost < s.ns[TargetIndex(s, l)].cost
  {
    var j := TargetIndex(s, l);
    ImprovedCost(q, s, u, l);
    assert NodeOk(q, s, u) && NodeOk(q, s, 0);
    if j < |s.ns| {
      assert NodeOk(q, s, j);
    }
  }

  /** The improved node is not on the way to the node it is improved through. */
  lemma NotOnWay(q: Query, s: Search, u: nat, l: Link)
    requires NodesOk(q, s) && LabelsOk(q, s) && NonNegative(q) && u < |s.ns| && Pays(q, s, u, l)
    ensures TargetIndex(s, l) !in s.labels[u]
  {
    var j, p := TargetIndex(s, l), s.labels[u];
    PaysLowers(q, s, u, l);
    ImprovedCost(q, s, u, l);
    assert LabelOk(q, s, u);
    if j in p {
      var k := IndexOf(p, j);
      PrefixUsed(q, s, p, k + 1);
    }
  }

  /** Nor is it on the present parent chain of that node. */
  lemma NotOnChain(q: Query, s: Search, u: nat, l: Link)
    requires NodesOk(q, s) && ParentsOk(q, s.ns) && ParentChains(s.ns, s.chains) && NonNegative(q)
    requires u < |s.ns| && Pays(q, s, u, l)
    ensures TargetIndex(s, l) !in s.chains[u]
  {
    PaysLowers(q, s, u, l);
    ImprovedCost(q, s, u, l);
    ChainFacts(q, s.ns, s.chains, u);
  }

  // ----- One step keeps the invariant -----

  /** What a step changes: at most one node, which is created or becomes cheaper; identities stay. */
  ghost predicate Steps(s: Search, s': Search) {
    && |s.ns| <= |s'.ns|
    && (forall i :: 0 <= i < |s.ns| ==>
          s'.ns[i].id == s.ns[i].id && s'.ns[i].state == s.ns[i].state && s'.ns[i].pos == s.ns[i].pos &&
          s'.ns[i].cost <= s.ns[i].cost)
    && s.used <= s'.used && (s'.used == s.used ==> s' == s)
  }

  lemma RelaxNodes(q: Query, s: Search, u: nat, l: Link)
    requires NodesOk(q, s) && |s.labels| == |s.chains| == |s.ns| && NonNegative(q) && u < |s.ns|
    requires TargetIndex(s, l) <= |s.ns|
    ensures NodesOk(q, Relax(q, s, u, l))
  {
    if Pays(q, s, u, l) {
      var s' := Relax(q, s, u, l);
      PaysLowers(q, s, u, l);
      ImprovedCost(q, s, u, l);
      assert NodeOk(q, s, u);
      forall i | 0 <= i < |s'.ns|
        ensures NodeOk(q, s', i)
      {
        assert i < |s.ns| ==> NodeOk(q, s, i);
      }
    }
  }

  lemma RelaxParents(q: Query, s: Search, u: nat, l: Link)
    requires NodesOk(q, s) && ParentsOk(q, s.ns) && |s.labels| == |s.chains| == |s.ns| && NonNegative(q)
    requires u < |s.ns| && TargetIndex(s, l) <= |s.ns| && s.ns[u].id != q.endRef
    requires l in q.links(s.ns[u].id) && Follows(q, l)
    ensures ParentsOk(q, Relax(q, s, u, l).ns)
  {
    if Pays(q, s, u, l) {
      var s', j := Relax(q, s, u, l), TargetIndex(s, l);
      PaysLowers(q, s, u, l);
      ImprovedCost(q, s, u, l);
      assert j < |s.ns| ==> NodeOk(q, s, j);
      forall i | 0 < i < |s'.ns|
        ensures ParentOk(q, s'.ns, i)
      {
        assert i != j ==> ParentOk(q, s.ns, i);
      }
    }
  }

  lemma DiscoveredFrame(q: Query, ns: seq<Node>, ns': seq<Node>)
    requires Discovered(q, ns) && |ns'| == |ns|
    requires forall i :: 0 <= i < |ns| ==>
      ns'[i].id == ns[i].id && ns'[i].state == ns[i].state && ns'[i].pos == ns[i].pos
    ensures Discovered(q, ns')
  {
    forall i | 0 < i < |ns'|
      ensures DiscoveredAt(q, ns', i)
    {
      assert DiscoveredAt(q, ns, i);
      var j, l :| 0 <= j < |ns| && CameThrough(q, ns[i], ns[j].id, l);
      assert CameThrough(q, ns'[i], ns'[j].id, l);
    }
  }

  lemma DiscoveredPush(q: Query, ns: seq<Node>, n: Node, u: nat, l: Link)
    requires Discovered(q, ns) && u < |ns| && CameThrough(q, n, ns[u].id, l)
    ensures Discovered(q, ns + [n])
  {
    var ns' := ns + [n];
    forall i | 0 < i < |ns'|
      ensures DiscoveredAt(q, ns', i)
    {
      if i < |ns| {
        assert DiscoveredAt(q, ns, i);
        var j, k :| 0 <= j < |ns| && CameThrough(q, ns[i], ns[j].id, k);
        assert CameThrough(q, ns'[i], ns'[j].id, k);
      } else {
        assert CameThrough(q, ns'[i], ns'[u].id, l);
      }
    }
  }

  lemma RelaxDiscovered(q: Query, s: Search, u: nat, l: Link)
    requires NodesOk(q, s) && Discovered(q, s.ns) && |s.labels| == |s.chains| == |s.ns| && NonNegative(q)
    requires u < |s.ns| && TargetIndex(s, l) <= |s.ns| && l in q.links(s.ns[u].id) && Follows(q, l)
    ensures Discovered(q, Relax(q, s, u, l).ns)
  {
    RelaxShape(q, s, u, l);
    if Pays(q, s, u, l) {
      var j, n := TargetIndex(s, l), Improved(q, s, u, l);
      PaysLowers(q, s, u, l);
      TargetFacts(q, s, u, l);
      hide NodesOk, Discovered, Relax, Improved, Pays, Target, TargetIndex;
      if j < |s.ns| {
        DiscoveredFrame(q, s.ns, s.ns[j := n]);
      } else {
        DiscoveredPush(q, s.ns, n, u, l);
      }
    }
  }

  lemma TargetFacts(q: Query, s: Search, u: nat, l: Link)
    requires NodesOk(q, s) && u < |s.ns| && TargetIndex(s, l) <= |s.ns| && l in q.links(s.ns[u].id) && Follows(q, l)
    ensures var j, n := TargetIndex(s, l), Improved(q, s, u, l);
      if j < |s.ns| then n.id == s.ns[j].id && n.state == s.ns[j].state && n.pos == s.ns[j].pos
      else CameThrough(q, n, s.ns[u].id, l)
  {
    hide StepCost, Heuristic;
  }

  lemma RelaxShape(q: Query, s: Search, u: nat, l: Link)
    requires |s.labels| == |s.chains| == |s.ns| && u < |s.ns| && TargetIndex(s, l) <= |s.ns|
    ensures
      var s', j, n := Relax(q, s, u, l), TargetIndex(s, l), Improved(q, s, u, l);
      && s'.ns == (if !Pays(q, s, u, l) then s.ns else if j < |s.ns| then s.ns[j := n] else s.ns + [n])
      && s'.chains == (if !Pays(q, s, u, l) then s.chains
                       else if j < |s.ns| then Rerouted(s.chains, j, [j] + s.chains[u])
                       else s.chains + [[j] + s.chains[u]])
      && n.pidx == u + 1
  {
    hide Pays, Rerouted;
  }

  lemma AppendedChain(ns: seq<Node>, chains: seq<seq<nat>>, u: nat, n: Node)
    requires ParentChains(ns, chains) && u < |ns| && n.pidx == u + 1
    ensures ParentChains(ns + [n], chains + [[|ns|] + chains[u]])
  {
  }

  lemma RelaxChains(q: Query, s: Search, u: nat, l: Link)
    requires NodesOk(q, s) && ParentsOk(q, s.ns) && ParentChains(s.ns, s.chains) && |s.labels| == |s.ns|
    requires NonNegative(q) && u < |s.ns| && TargetIndex(s, l) <= |s.ns|
    ensures ParentChains(Relax(q, s, u, l).ns, Relax(q, s, u, l).chains)
  {
    assert |s.chains| == |s.ns|;
    RelaxShape(q, s, u, l);
    hide NodesOk, ParentsOk, ParentChains, Relax, Improved, Rerouted, Pays;
    if Pays(q, s, u, l) {
      var j, n := TargetIndex(s, l), Improved(q, s, u, l);
      PaysLowers(q, s, u, l);
      NotOnChain(q, s, u, l);
      if j < |s.ns| {
        RerouteOk(s.ns, s.chains, j, u, n);
      } else {
        AppendedChain(s.ns, s.chains, u, n);
      }
    }
  }

  /** The new way's cost is the improved node's cost. */
  lemma WayCost(q: Query, s: Search, u: nat, l: Link, ns': seq<Node>, j: nat)
    requires NodesOk(q, s) && u < |s.ns| == |s.labels| && LabelOk(q, s, u)
    requires |s.ns| <= |ns'| && j < |ns'|
    requires forall i :: 0 <= i < |s.ns| ==> ns'[i].id == s.ns[i].id && ns'[i].pos == s.ns[i].pos
    requires ns'[j].id == Improved(q, s, u, l).id && ns'[j].pos == Improved(q, s, u, l).pos
    ensures Within(s.labels[u] + [j], |ns'|) && LabelCost(q, ns', s.labels[u] + [j]) == Improved(q, s, u, l).cost
  {
    var p := s.labels[u];
    LabelCostFrame(q, s.ns, ns', p);
    assert (p + [j])[..|p|] == p;
  }

  lemma RelaxUsed(q: Query, s: Search, s': Search, p: seq<nat>)
    requires Steps(s, s') && UsedOk(q, s, p)
    ensures UsedOk(q, s', p)
  {
    LabelCostFrame(q, s.ns, s'.ns, p);
  }

  /** A way that pays was not used before. */
  lemma NewWay(q: Query, s: Search, u: nat, l: Link)
    requires NodesOk(q, s) && LabelsOk(q, s) && NonNegative(q) && u < |s.ns| && Pays(q, s, u, l)
    ensures s.labels[u] + [TargetIndex(s, l)] !in s.used
  {
    var j := TargetIndex(s, l);
    PaysLowers(q, s, u, l);
    var way := s.labels[u] + [j];
    assert LabelOk(q, s, u);
    if way in s.used {
      assert UsedOk(q, s, way);
      assert way[|way| - 1] == j;
      WayCost(q, s, u, l, s.ns, j);
    }
  }

  lemma RelaxSteps(q: Query, s: Search, u: nat, l: Link)
    requires NodesOk(q, s) && LabelsOk(q, s) && |s.chains| == |s.ns| && NonNegative(q)
    requires u < |s.ns| && TargetIndex(s, l) <= |s.ns| && s.ns[u].id != q.endRef
    ensures Steps(s, Relax(q, s, u, l))
  {
    if Pays(q, s, u, l) {
      var s', j := Relax(q, s, u, l), TargetIndex(s, l);
      PaysLowers(q, s, u, l);
      NewWay(q, s, u, l);
      hide NodesOk, LabelsOk, Heuristic, StepCost, Rerouted;
    }
  }

  /** What a step leaves as it is, or makes cheaper. */
  ghost predicate Lowered(ns: seq<Node>, ns': seq<Node>) {
    && |ns| <= |ns'|
    && forall i :: 0 <= i < |ns| ==>
      && ns'[i].id == ns[i].id && ns'[i].pos == ns[i].pos && ns'[i].cost <= ns[i].cost
      && (ns'[i].closed ==> ns'[i] == ns[i])
  }

  /** A step changes no node but the target. */
  lemma RelaxLowers(q: Query, s: Search, u: nat, l: Link)
    requires NodesOk(q, s) && |s.labels| == |s.chains| == |s.ns| && NonNegative(q) && u < |s.ns|
    requires TargetIndex(s, l) <= |s.ns|
    ensures var ns' := Relax(q, s, u, l).ns; Lowered(s.ns, ns') && ns'[u] == s.ns[u]
    ensures var ns' := Relax(q, s, u, l).ns; forall i :: |s.ns| <= i < |ns'| ==> !ns'[i].closed
  {
    if Pays(q, s, u, l) {
      PaysLowers(q, s, u, l);
      ImprovedCost(q, s, u, l);
    }
  }

  lemma RelaxAt(q: Query, s: Search, u: nat, l: Link)
    requires NodesOk(q, s) && |s.labels| == |s.chains| == |s.ns| && NonNegative(q) && u < |s.ns| && Pays(q, s, u, l)
    ensures
      var s', j, way := Relax(q, s, u, l), TargetIndex(s, l), s.labels[u] + [TargetIndex(s, l)];
      && j < |s'.ns| == |s'.labels| && s'.ns[j] == Improved(q, s, u, l)
      && s'.labels[j] == way && s'.used == s.used + {way}
  {
    PaysLowers(q, s, u, l);
    hide Improved, Pays;
  }

  lemma WayUsed(q: Query, s: Search, u: nat, l: Link)
    requires NodesOk(q, s) && LabelsOk(q, s) && |s.chains| == |s.ns| && NonNegative(q)
    requires u < |s.ns| && TargetIndex(s, l) <= |s.ns| && s.ns[u].id != q.endRef && Pays(q, s, u, l)
    ensures UsedOk(q, Relax(q, s, u, l), s.labels[u] + [TargetIndex(s, l)])
    ensures LabelOk(q, Relax(q, s, u, l), TargetIndex(s, l))
  {
    var s', j := Relax(q, s, u, l), TargetIndex(s, l);
    var p := s.labels[u];
    NotOnWay(q, s, u, l);
    RelaxLowers(q, s, u, l);
    RelaxAt(q, s, u, l);
    assert LabelOk(q, s, u) && UsedOk(q, s, p);
    hide Relax, NodesOk, LabelsOk, Pays;
    WayCost(q, s, u, l, s'.ns, j);
    assert (p + [j])[..|p|] == p;
    hide Heuristic, StepCost, LabelCost;
  }

  lemma RelaxLabels(q: Query, s: Search, u: nat, l: Link)
    requires NodesOk(q, s) && LabelsOk(q, s) && |s.chains| == |s.ns| && NonNegative(q)
    requires u < |s.ns| && TargetIndex(s, l) <= |s.ns| && s.ns[u].id != q.endRef
    ensures LabelsOk(q, Relax(q, s, u, l))
  {
    hide NodesOk, UsedOk, LabelOk;
    if Pays(q, s, u, l) {
      var s', j := Relax(q, s, u, l), TargetIndex(s, l);
      RelaxSteps(q, s, u, l);
      WayUsed(q, s, u, l);
      forall x | x in s'.used
        ensures UsedOk(q, s', x)
      {
        if x in s.used {
          RelaxUsed(q, s, s', x);
        }
      }
      forall i | 0 <= i < |s'.ns| && i != j
        ensures LabelOk(q, s', i)
      {
        KeptLabel(q, s, s', i);
      }
    }
  }

  lemma KeptLabel(q: Query, s: Search, s': Search, i: nat)
    requires i < |s.ns| && |s.labels| == |s.ns| && |s'.labels| == |s'.ns| && Steps(s, s') && LabelOk(q, s, i)
    requires s'.ns[i] == s.ns[i] && s'.labels[i] == s.labels[i]
    ensures LabelOk(q, s', i)
  {
    LabelCostFrame(q, s.ns, s'.ns, s.labels[i]);
  }

  lemma RelaxBest(q: Query, s: Search, u: nat, l: Link)
    requires NodesOk(q, s) && BestOk(q, s) && |s.labels| == |s.chains| == |s.ns| && NonNegative(q)
    requires u < |s.ns| && TargetIndex(s, l) <= |s.ns|
    ensures BestOk(q, Relax(q, s, u, l))
  {
    if Pays(q, s, u, l) {
      PaysLowers(q, s, u, l);
    }
  }

  lemma RelaxFlags(q: Query, s: Search, u: nat, l: Link, done: seq<Link>, complete: bool)
    requires NodesOk(q, s) && |s.labels| == |s.chains| == |s.ns| && NonNegative(q)
    requires u < |s.ns| && TargetIndex(s, l) <= |s.ns|
    requires GoalOpen(q, s.ns) && (complete ==> Expanded(q, s.ns, u, done))
    ensures GoalOpen(q, Relax(q, s, u, l).ns)
    ensures complete ==> Expanded(q, Relax(q, s, u, l).ns, u, done + [l])
  {
    var s', j := Relax(q, s, u, l), TargetIndex(s, l);
    if Pays(q, s, u, l) {
      PaysLowers(q, s, u, l);
    }
    assert j < |s.ns| ==> NodeOk(q, s, j);
    assert j < |s'.ns| && s'.ns[j].id == l.ref;
    if complete {
      forall i, x | 0 <= i < |s'.ns| && s'.ns[i].closed && x in q.links(s'.ns[i].id) && Follows(q, x) &&
                    (i == u ==> x in done + [l])
        ensures Known(s'.ns, x.ref)
      {
        assert i < |s.ns| && s.ns[i].closed;
        if i != u || x in done {
          assert Known(s.ns, x.ref);
          var k :| 0 <= k < |s.ns| && s.ns[k].id == x.ref;
          assert s'.ns[k].id == x.ref;
        }
      }
    }
  }

  lemma PlainStep(q: Query, p: PolyRef, u: Node, n: Node)
    requires Plain(q)
    ensures StepCost(q, p, u, n) == StepCost(q, 0, u, n)
  {
  }

  lemma TightLinkStays(q: Query, ns: seq<Node>, ns': seq<Node>, i: nat, l: Link)
    requires Lowered(ns, ns') && i < |ns| && ns'[i] == ns[i] && TightLink(q, ns, i, l)
    ensures TightLink(q, ns', i, l)
  {
    var j :| 0 <= j < |ns| && ns[j].id == l.ref && ns[j].cost <= ns[i].cost + StepCost(q, 0, ns[i], ns[j]);
    assert StepCost(q, 0, ns'[i], ns'[j]) == StepCost(q, 0, ns[i], ns[j]);
  }

  lemma TightNodeStays(q: Query, ns: seq<Node>, ns': seq<Node>, i: nat, links: seq<Link>)
    requires Lowered(ns, ns') && i < |ns| && ns'[i] == ns[i] && TightNode(q, ns, i, links)
    ensures TightNode(q, ns', i, links)
  {
    forall l | l in links && Follows(q, l)
      ensures TightLink(q, ns', i, l)
    {
      TightLinkStays(q, ns, ns', i, l);
    }
  }

  lemma TightNodesStay(q: Query, ns: seq<Node>, ns': seq<Node>, u: nat, done: seq<Link>, l: Link)
    requires Lowered(ns, ns') && u < |ns| && TightNodes(q, ns, u, done) && TightLink(q, ns', u, l)
    requires forall i :: |ns| <= i < |ns'| ==> !ns'[i].closed
    ensures TightNodes(q, ns', u, done + [l])
  {
    hide TightLink;
    forall i | 0 <= i < |ns'| && ns'[i].closed
      ensures TightNode(q, ns', i, if i == u then done + [l] else q.links(ns'[i].id))
    {
      TightNodeStays(q, ns, ns', i, if i == u then done else q.links(ns[i].id));
    }
  }

  /** After a step the link followed is tight. */
  lemma RelaxTightens(q: Query, s: Search, u: nat, l: Link)
    requires Plain(q) && NodesOk(q, s) && |s.labels| == |s.chains| == |s.ns| && NonNegative(q) && u < |s.ns|
    requires TargetIndex(s, l) <= |s.ns|
    ensures TightLink(q, Relax(q, s, u, l).ns, u, l)
  {
    var s', j, n := Relax(q, s, u, l), TargetIndex(s, l), Target(q, s, u, l);
    RelaxLowers(q, s, u, l);
    PlainStep(q, ParentRef(s.ns, u), s.ns[u], n);
    assert j < |s.ns| ==> NodeOk(q, s, j);
    assert j < |s'.ns| && s'.ns[j].id == l.ref && s'.ns[j].pos == n.pos;
    assert StepCost(q, 0, s'.ns[u], s'.ns[j]) == StepCost(q, 0, s.ns[u], n);
  }

  /** Lowering or adding a node that is itself paid keeps all parents paid. */
  lemma PaidFrame(q: Query, ns: seq<Node>, ns': seq<Node>, j: nat)
    requires ParentsOk(q, ns) && ParentsPaid(q, ns) && Lowered(ns, ns')
    requires j < |ns'| && ParentPaid(q, ns', j)
    requires forall i :: 0 <= i < |ns'| && i != j ==> i < |ns| && ns'[i] == ns[i]
    ensures ParentsPaid(q, ns')
  {
    forall i | 0 < i < |ns'|
      ensures ParentPaid(q, ns', i)
    {
      if i != j {
        var n := ns'[i];
        assert n == ns[i];
        assert ParentPaid(q, ns, i) && ParentOk(q, ns, i);
        var p := ns[i].pidx - 1;
        assert StepCost(q, 0, ns'[p], ns'[i]) == StepCost(q, 0, ns[p], ns[i]);
      }
    }
  }

  lemma RelaxPays(q: Query, s: Search, u: nat, l: Link)
    requires Plain(q) && NodesOk(q, s) && |s.labels| == |s.chains| == |s.ns| && NonNegative(q) && u < |s.ns|
    requires TargetIndex(s, l) <= |s.ns| && ParentsOk(q, s.ns) && ParentsPaid(q, s.ns)
    ensures ParentsPaid(q, Relax(q, s, u, l).ns)
  {
    hide NodesOk, ParentsOk, ParentsPaid, Relax, Lowered, Pays;
    var j := TargetIndex(s, l);
    RelaxShape(q, s, u, l);
    RelaxLowers(q, s, u, l);
    if Pays(q, s, u, l) {
      PaidByImproved(q, s, u, l);
      PaidFrame(q, s.ns, Relax(q, s, u, l).ns, j);
    }
  }

  lemma PaidByImproved(q: Query, s: Search, u: nat, l: Link)
    requires Plain(q) && NodesOk(q, s) && |s.labels| == |s.chains| == |s.ns| && NonNegative(q) && u < |s.ns|
    requires TargetIndex(s, l) <= |s.ns| && Pays(q, s, u, l)
    ensures TargetIndex(s, l) < |Relax(q, s, u, l).ns| && ParentPaid(q, Relax(q, s, u, l).ns, TargetIndex(s, l))
  {
    RelaxShape(q, s, u, l);
    RelaxLowers(q, s, u, l);
    PlainStep(q, ParentRef(s.ns, u), s.ns[u], Target(q, s, u, l));
    var n := Improved(q, s, u, l);
    assert StepCost(q, 0, s.ns[u], n) == StepCost(q, 0, s.ns[u], Target(q, s, u, l));
    hide NodesOk, Relax, Pays, StepCost;
  }

  lemma RelaxCheap(q: Query, s: Search, u: nat, l: Link, done: seq<Link>, complete: bool)
    requires NodesOk(q, s) && |s.labels| == |s.chains| == |s.ns| && NonNegative(q) && u < |s.ns|
    requires TargetIndex(s, l) <= |s.ns| && ParentsOk(q, s.ns) && Cheap(q, s.ns, u, done, complete)
    ensures Cheap(q, Relax(q, s, u, l).ns, u, done + [l], complete)
  {
    hide NodesOk, Relax, TightNodes, TightLink, ParentsPaid, ParentsOk, Plain;
    if Plain(q) {
      RelaxPays(q, s, u, l);
      if complete {
        RelaxLowers(q, s, u, l);
        RelaxTightens(q, s, u, l);
        TightNodesStay(q, s.ns, Relax(q, s, u, l).ns, u, done, l);
      }
    }
  }

  /** Stepping back to the parent never pays. */
  lemma SkipCheap(q: Query, s: Search, u: nat, l: Link, done: seq<Link>, complete: bool)
    requires Cheap(q, s.ns, u, done, complete) && ParentsOk(q, s.ns) && NodesOk(q, s) && NonNegative(q) && u < |s.ns|
    requires !Follows(q, l) || l.ref == ParentRef(s.ns, u)
    ensures Cheap(q, s.ns, u, done + [l], complete)
  {
    if Plain(q) && complete {
      if Follows(q, l) {
        assert u > 0 && ParentOk(q, s.ns, u);
        assert StepCost(q, 0, s.ns[u], s.ns[s.ns[u].pidx - 1]) >= 0.0;
        assert TightLink(q, s.ns, u, l);
      }
      forall i | 0 <= i < |s.ns| && s.ns[i].closed
        ensures TightNode(q, s.ns, i, if i == u then done + [l] else q.links(s.ns[i].id))
      {
        assert TightNode(q, s.ns, i, if i == u then done else q.links(s.ns[i].id));
      }
    }
  }

  lemma CloseCheap(q: Query, s: Search, i: nat, complete: bool)
    requires Cheap(q, s.ns, -1, [], complete) && i < |s.ns| && s.ns[i].open
    ensures Cheap(q, Close(s, i).ns, i, [], complete)
  {
    var ns' := Close(s, i).ns;
    forall k | 0 < k < |ns'| && ParentsPaid(q, s.ns)
      ensures ParentPaid(q, ns', k)
    {
      assert ParentPaid(q, s.ns, k);
      var p := s.ns[k].pidx - 1;
      assert 0 <= p < |s.ns| ==> StepCost(q, 0, ns'[p], ns'[k]) == StepCost(q, 0, s.ns[p], s.ns[k]);
    }
    forall k | 0 <= k < |ns'| && ns'[k].closed && k != i && TightNodes(q, s.ns, -1, [])
      ensures TightNode(q, ns', k, q.links(ns'[k].id))
    {
      forall l | l in q.links(ns'[k].id) && Follows(q, l)
        ensures TightLink(q, ns', k, l)
      {
        assert TightLink(q, s.ns, k, l);
        var j :| 0 <= j < |s.ns| && s.ns[j].id == l.ref &&
                 s.ns[j].cost <= s.ns[k].cost + StepCost(q, 0, s.ns[k], s.ns[j]);
        assert StepCost(q, 0, ns'[k], ns'[j]) == StepCost(q, 0, s.ns[k], s.ns[j]);
      }
    }
  }

  lemma ExpandedCheap(q: Query, ns: seq<Node>, u: nat, complete: bool)
    requires u < |ns| && Cheap(q, ns, u, q.links(ns[u].id), complete)
    ensures Cheap(q, ns, -1, [], complete)
  {
    hide TightNode, ParentsPaid, Plain;
  }

  lemma RelaxInv(q: Query, s: Search, u: nat, l: Link, done: seq<Link>, complete: bool)
    requires Inv(q, s, u, done, complete) && NonNegative(q) && l in q.links(s.ns[u].id) && Follows(q, l)
    requires TargetIndex(s, l) <= |s.ns|
    ensures Inv(q, Relax(q, s, u, l), u, done + [l], complete)
    ensures Steps(s, Relax(q, s, u, l))
  {
    hide NodesOk, ParentsOk, BestOk, GoalOpen, Expanded, Steps, Cheap, Discovered;
    RelaxDiscovered(q, s, u, l);
    RelaxCheap(q, s, u, l, done, complete);
    RelaxNodes(q, s, u, l);
    RelaxParents(q, s, u, l);
    RelaxChains(q, s, u, l);
    RelaxLabels(q, s, u, l);
    RelaxBest(q, s, u, l);
    RelaxFlags(q, s, u, l, done, complete);
    RelaxSteps(q, s, u, l);
  }

  /** A link that is not followed, or leads back to the parent, is done. */
  lemma SkipInv(q: Query, s: Search, u: nat, l: Link, done: seq<Link>, complete: bool)
    requires Inv(q, s, u, done, complete) && NonNegative(q)
    requires !Follows(q, l) || l.ref == ParentRef(s.ns, u)
    ensures Inv(q, s, u, done + [l], complete)
  {
    hide NodesOk, ParentsOk, BestOk, GoalOpen, LabelsOk, ParentChains, Cheap, Discovered;
    SkipCheap(q, s, u, l, done, complete);
    if Follows(q, l) {
      assert Known(s.ns, l.ref);
    }
  }

  // ----- Start, closing a node, and the end of an expansion -----

  lemma InitInv(q: Query)
    requires q.startRef != q.endRef
    ensures Inv(q, Init(q), -1, [], true)
  {
    var s := Init(q);
    assert NodeOk(q, s, 0) && LabelOk(q, s, 0);
  }

  lemma CloseInv(q: Query, s: Search, i: nat, complete: bool)
    requires Inv(q, s, -1, [], complete) && i < |s.ns| && s.ns[i].open && s.ns[i].id != q.endRef
    ensures Inv(q, Close(s, i), i, [], complete)
  {
    hide Cheap, Discovered;
    var s' := Close(s, i);
    DiscoveredFrame(q, s.ns, s'.ns);
    CloseNodes(q, s, i);
    CloseLabels(q, s, i);
    CloseCheap(q, s, i, complete);
    if complete {
      forall k, l | 0 <= k < |s'.ns| && s'.ns[k].closed && l in q.links(s'.ns[k].id) && Follows(q, l) && k != i
        ensures Known(s'.ns, l.ref)
      {
        KnownFrame(s.ns, s'.ns, l.ref);
      }
    }
  }

  lemma KnownFrame(ns: seq<Node>, ns': seq<Node>, ref: PolyRef)
    requires Known(ns, ref) && |ns| <= |ns'| && forall i :: 0 <= i < |ns| ==> ns'[i].id == ns[i].id
    ensures Known(ns', ref)
  {
    var k :| 0 <= k < |ns| && ns[k].id == ref;
    assert ns'[k].id == ref;
  }

  lemma CloseNodes(q: Query, s: Search, i: nat)
    requires NodesOk(q, s) && ParentsOk(q, s.ns) && i < |s.ns| && s.ns[i].open
    ensures NodesOk(q, Close(s, i)) && ParentsOk(q, Close(s, i).ns)
  {
    var s' := Close(s, i);
    forall k | 0 <= k < |s'.ns|
      ensures NodeOk(q, s', k)
    {
      assert NodeOk(q, s, k);
    }
    forall k | 0 < k < |s'.ns|
      ensures ParentOk(q, s'.ns, k)
    {
      assert ParentOk(q, s.ns, k);
    }
  }

  lemma CloseLabels(q: Query, s: Search, i: nat)
    requires LabelsOk(q, s) && i < |s.ns|
    ensures LabelsOk(q, Close(s, i))
  {
    var s' := Close(s, i);
    forall p | p in s'.used
      ensures UsedOk(q, s', p)
    {
      assert UsedOk(q, s, p);
      LabelCostFrame(q, s.ns, s'.ns, p);
    }
    forall k | 0 <= k < |s'.ns|
      ensures LabelOk(q, s', k)
    {
      assert LabelOk(q, s, k);
      LabelCostFrame(q, s.ns, s'.ns, s.labels[k]);
    }
  }

  lemma ExpandedInv(q: Query, s: Search, u: nat, complete: bool)
    requires u < |s.ns| && Inv(q, s, u, q.links(s.ns[u].id), complete)
    ensures Inv(q, s, -1, [], complete)
  {
    hide NodesOk, ParentsOk, BestOk, GoalOpen, LabelsOk, ParentChains, Cheap;
    ExpandedCheap(q, s.ns, u, complete);
    if complete {
      forall i, l | 0 <= i < |s.ns| && s.ns[i].closed && l in q.links(s.ns[i].id) && Follows(q, l)
        ensures Known(s.ns, l.ref)
      {
      }
    }
  }

  // ----- The search ends -----

  /** All sequences of at most `len` numbers below `m`. */
  ghost function Ways(m: nat, len: nat): set<seq<nat>> {
    if len == 0 then {[]}
    else Ways(m, len - 1) + set p, x | p in Ways(m, len - 1) && x in Below(m) :: p + [x]
  }

  lemma {:induction false} InWays(p: seq<nat>, m: nat, len: nat)
    requires |p| <= len && forall k :: 0 <= k < |p| ==> p[k] < m
    ensures p in Ways(m, len)
  {
    if len > 0 && p != [] {
      var n := |p| - 1;
      InWays(p[..n], m, len - 1);
      assert p == p[..n] + [p[n]];
    } else if len > 0 {
      InWays(p, m, len - 1);
    }
  }

  /** Each improvement follows a way never used before, and there are only finitely many. */
  lemma UsedBound(q: Query, s: Search, m: nat)
    requires LabelsOk(q, s) && |s.ns| <= m
    ensures s.used <= Ways(m, m)
  {
    forall p | p in s.used
      ensures p in Ways(m, m)
    {
      assert UsedOk(q, s, p);
      DistinctBound(p, |s.ns|);
      InWays(p, m, m);
    }
  }

  // ----- What the result means -----

  /** The polygons of the first `count` nodes of a parent chain, from the start. */
  function PathRefs(ns: seq<Node>, chain: seq<nat>, count: nat): seq<PolyRef>
    requires Within(chain, |ns|) && count <= |chain|
  {
    seq(count, k requires 0 <= k < count => ns[chain[|chain| - 1 - k]].id)
  }

  lemma ChainEnds(q: Query, ns: seq<Node>, chains: seq<seq<nat>>, i: nat)
    requires ParentsOk(q, ns) && ParentChains(ns, chains) && i < |ns|
    ensures |chains| == |ns| && var c := chains[i]; c != [] && c[0] == i && c[|c| - 1] == 0
  {
    ChainFacts(q, ns, chains, i);
  }

  lemma ChainLink(q: Query, ns: seq<Node>, chains: seq<seq<nat>>, i: nat, m: nat)
    requires ParentsOk(q, ns) && ParentChains(ns, chains) && i < |ns| && m < |chains[i]| - 1
    ensures var c := chains[i]; 0 < c[m] < |ns| && c[m + 1] < |ns| && ns[c[m]].pidx == c[m + 1] + 1
  {
    ChainFacts(q, ns, chains, i);
    hide ParentsOk, ParentChains;
  }

  /** Any stored part of a path is a walk over links from the start. */
  lemma PathIsWalk(q: Query, s: Search, i: nat, count: nat)
    requires NodesOk(q, s) && ParentsOk(q, s.ns) && ParentChains(s.ns, s.chains) && i < |s.ns|
    requires Within(s.chains[i], |s.ns|) && 0 < count <= |s.chains[i]|
    ensures Walk(q, PathRefs(s.ns, s.chains[i], count))
    ensures PathRefs(s.ns, s.chains[i], |s.chains[i]|)[|s.chains[i]| - 1] == s.ns[i].id
  {
    hide ParentChains, NodeOk;
    ChainEnds(q, s.ns, s.chains, i);
    var c := s.chains[i];
    var w := PathRefs(s.ns, c, count);
    forall k | 0 <= k < |w| - 1
      ensures Joined(q, w[k], w[k + 1])
    {
      var m := |c| - 2 - k;
      ChainLink(q, s.ns, s.chains, i, m);
      assert ParentOk(q, s.ns, c[m]);
    }
  }

  /** When nothing is open and the pool never ran out, every polygon a walk reaches is known. */
  lemma {:induction false} WalkKnown(q: Query, s: Search, w: seq<PolyRef>)
    requires Inv(q, s, -1, [], true) && (forall i :: 0 <= i < |s.ns| ==> !s.ns[i].open) && Walk(q, w)
    ensures Known(s.ns, w[|w| - 1])
    decreases |w|
  {
    var n := |w| - 1;
    if n == 0 {
      assert s.ns[0].id == w[0];
    } else {
      WalkKnown(q, s, w[..n]);
      var i :| 0 <= i < |s.ns| && s.ns[i].id == w[n - 1];
      assert Joined(q, w[n - 1], w[n]);
      var l :| l in q.links(w[n - 1]) && l.ref == w[n] && Follows(q, l);
      assert NodeOk(q, s, i) && s.ns[i].closed;
    }
  }

  /** If the search ends with nothing open, the goal cannot be reached. */
  lemma ExhaustedMeansUnreachable(q: Query, s: Search, w: seq<PolyRef>)
    requires Inv(q, s, -1, [], true) && (forall i :: 0 <= i < |s.ns| ==> !s.ns[i].open) && Walk(q, w)
    ensures w[|w| - 1] != q.endRef
  {
    WalkKnown(q, s, w);
  }

  // ----- Cheapest paths -----

  /** Polygons lie where their nodes do. */
  ghost predicate Placed(ns: seq<Node>, pos: PolyRef -> Vec) {
    forall i :: 0 <= i < |ns| ==> pos(ns[i].id) == ns[i].pos
  }

  /** There is such a placement if no polygon has two nodes, as in a mesh of one tile. */
  lemma SingleNodesPlaced(q: Query, s: Search) returns (pos: PolyRef -> Vec)
    requires NodesOk(q, s) && forall i :: 0 <= i < |s.ns| ==> s.ns[i].state == 0
    ensures Placed(s.ns, pos)
  {
    var at, ns := s.at, s.ns;
    pos := r => if (r, 0) in at && at[(r, 0)] < |ns| then ns[at[(r, 0)]].pos else (0.0, 0.0, 0.0);
    forall i | 0 <= i < |ns|
      ensures pos(ns[i].id) == ns[i].pos
    {
      assert NodeOk(q, s, i);
    }
  }

  function RefStep(q: Query, pos: PolyRef -> Vec, a: PolyRef, b: PolyRef): real {
    q.getCost(pos(a), pos(b), 0, a, b) + if b == q.endRef then q.getCost(pos(b), q.endPos, a, b, 0) else 0.0
  }

  function WalkCost(q: Query, pos: PolyRef -> Vec, w: seq<PolyRef>): real {
    if |w| <= 1 then 0.0
    else WalkCost(q, pos, w[..|w| - 1]) + RefStep(q, pos, w[|w| - 2], w[|w| - 1])
  }

  /** A walk from anywhere to the goal. */
  ghost predicate Leads(q: Query, w: seq<PolyRef>) {
    w != [] && w[|w| - 1] == q.endRef && forall k :: 0 <= k < |w| - 1 ==> Joined(q, w[k], w[k + 1])
  }

  function HeuristicAt(q: Query, pos: PolyRef -> Vec, r: PolyRef): real {
    if r == q.endRef then 0.0 else q.dist(pos(r), q.endPos) * H_SCALE
  }

  /** The heuristic never exceeds the cost of a walk to the goal. */
  ghost predicate Admissible(q: Query, pos: PolyRef -> Vec) {
    forall w :: Leads(q, w) ==> HeuristicAt(q, pos, w[0]) <= WalkCost(q, pos, w)
  }

  /** Distances form a metric, and a step costs at least the scaled distance, as with area costs of one or more. */
  ghost predicate CostsDistance(q: Query) {
    && (forall a :: q.dist(a, a) == 0.0)
    && (forall a, b, c :: q.dist(a, c) <= q.dist(a, b) + q.dist(b, c))
    && (forall a, b, p, c, n :: q.getCost(a, b, p, c, n) >= q.dist(a, b) * H_SCALE)
  }

  lemma {:induction false} WalkCostsDistance(q: Query, pos: PolyRef -> Vec, w: seq<PolyRef>)
    requires NonNegative(q) && CostsDistance(q) && w != []
    ensures WalkCost(q, pos, w) >= q.dist(pos(w[0]), pos(w[|w| - 1])) * H_SCALE
  {
    if |w| > 1 {
      var n := |w| - 1;
      WalkCostsDistance(q, pos, w[..n]);
      assert q.dist(pos(w[0]), pos(w[n])) <= q.dist(pos(w[0]), pos(w[n - 1])) + q.dist(pos(w[n - 1]), pos(w[n]));
    }
  }

  /** In particular when no step costs less than its distance. */
  lemma FullDistanceCosts(q: Query)
    requires NonNegative(q) && forall a :: q.dist(a, a) == 0.0
    requires forall a, b, c :: q.dist(a, c) <= q.dist(a, b) + q.dist(b, c)
    requires forall a, b, p, c, n :: q.getCost(a, b, p, c, n) >= q.dist(a, b)
    ensures CostsDistance(q)
  {
    forall a, b, p, c, n
      ensures q.getCost(a, b, p, c, n) >= q.dist(a, b) * H_SCALE
    {
      assert q.dist(a, b) >= q.dist(a, b) * H_SCALE;
    }
  }

  /** Then the heuristic is admissible wherever the polygons lie. */
  lemma DistanceIsAdmissible(q: Query, pos: PolyRef -> Vec)
    requires NonNegative(q) && CostsDistance(q)
    ensures Admissible(q, pos)
  {
    forall w | Leads(q, w)
      ensures HeuristicAt(q, pos, w[0]) <= WalkCost(q, pos, w)
    {
      if |w| > 1 {
        var n := |w| - 1;
        WalkCostsDistance(q, pos, w[..n]);
        WalkCostNonNegative(q, pos, w);
        var a, b, c := pos(w[0]), pos(w[n - 1]), pos(w[n]);
        assert q.dist(a, q.endPos) <= q.dist(a, b) + q.dist(b, q.endPos);
        assert q.dist(b, q.endPos) <= q.dist(b, c) + q.dist(c, q.endPos);
      }
    }
  }

  /** No walk to the goal costs less, wherever polygons without nodes lie, as long as the heuristic is admissible. */
  ghost predicate GoalLeast(q: Query, ns: seq<Node>, cost: real) {
    forall pos: PolyRef -> Vec :: Placed(ns, pos) && Admissible(q, pos) ==> LeastUnder(q, pos, cost)
  }

  ghost predicate LeastUnder(q: Query, pos: PolyRef -> Vec, cost: real) {
    forall w :: Walk(q, w) && w[|w| - 1] == q.endRef ==> cost <= WalkCost(q, pos, w)
  }

  lemma {:induction false} WalkCostSplit(q: Query, pos: PolyRef -> Vec, w: seq<PolyRef>, k: nat)
    requires k < |w|
    ensures WalkCost(q, pos, w) == WalkCost(q, pos, w[..k + 1]) + WalkCost(q, pos, w[k..])
    decreases |w|
  {
    var n := |w| - 1;
    if k < n {
      WalkCostSplit(q, pos, w[..n], k);
      assert w[..n][..k + 1] == w[..k + 1] && w[..n][k..] == w[k..][..n - k];
    } else {
      assert w[..k + 1] == w;
    }
  }

  /** Along a walk from the start there is an open node, or the end has been closed, at a cost no more than the
      walk's. */
  lemma {:induction false} OpenOnWalk(q: Query, ns: seq<Node>, pos: PolyRef -> Vec, w: seq<PolyRef>, k: nat)
    returns (m: nat, i: nat)
    requires Placed(ns, pos) && TightNodes(q, ns, -1, []) && Walk(q, w) && k < |w|
    requires ns != [] && ns[0].id == q.startRef && ns[0].cost == 0.0
    requires forall j :: 0 <= j < |ns| ==> ns[j].open != ns[j].closed
    ensures m <= k && i < |ns| && ns[i].id == w[m] && ns[i].cost <= WalkCost(q, pos, w[..m + 1])
    ensures ns[i].open || m == k
  {
    if k == 0 {
      m, i := 0, 0;
    } else {
      m, i := OpenOnWalk(q, ns, pos, w, k - 1);
      if !ns[i].open {
        assert Joined(q, w[m], w[m + 1]);
        var l :| l in q.links(w[m]) && l.ref == w[m + 1] && Follows(q, l);
        assert TightNode(q, ns, i, q.links(ns[i].id)) && TightLink(q, ns, i, l);
        var j :| 0 <= j < |ns| && ns[j].id == l.ref && ns[j].cost <= ns[i].cost + StepCost(q, 0, ns[i], ns[j]);
        assert w[..m + 2][..m + 1] == w[..m + 1];
        m, i := m + 1, j;
      }
    }
  }

  lemma FlagsDiffer(q: Query, s: Search)
    requires NodesOk(q, s)
    ensures forall j :: 0 <= j < |s.ns| ==> s.ns[j].open != s.ns[j].closed
  {
    forall j | 0 <= j < |s.ns|
      ensures s.ns[j].open != s.ns[j].closed
    {
      assert NodeOk(q, s, j);
    }
  }

  /** The total of a node at place `m` of a walk, if the walk up to there costs no less than the node. */
  lemma TotalOnWalk(q: Query, s: Search, i: nat, pos: PolyRef -> Vec, w: seq<PolyRef>, m: nat)
    requires NodesOk(q, s) && Placed(s.ns, pos) && Admissible(q, pos) && Leads(q, w) && m < |w|
    requires i < |s.ns| && s.ns[i].id == w[m] && s.ns[i].cost <= WalkCost(q, pos, w[..m + 1])
    ensures s.ns[i].total <= WalkCost(q, pos, w)
  {
    assert NodeOk(q, s, i);
    WalkCostSplit(q, pos, w, m);
    assert Leads(q, w[m..]);
    assert HeuristicAt(q, pos, w[m]) == Heuristic(q, s.ns[i]);
    hide NodesOk, WalkCost, Joined;
  }

  /** When the goal is a least open node, no walk to the goal costs less than it does. */
  lemma OpenGoalIsLeast(q: Query, s: Search, g: nat, pos: PolyRef -> Vec, w: seq<PolyRef>)
    requires NodesOk(q, s) && GoalOpen(q, s.ns) && TightNodes(q, s.ns, -1, [])
    requires g < |s.ns| && s.ns[g].open && s.ns[g].id == q.endRef
    requires forall j :: 0 <= j < |s.ns| && s.ns[j].open ==> s.ns[g].total <= s.ns[j].total
    requires Placed(s.ns, pos) && Admissible(q, pos) && Walk(q, w) && w[|w| - 1] == q.endRef
    ensures s.ns[g].cost <= WalkCost(q, pos, w)
  {
    assert NodeOk(q, s, g);
    FlagsDiffer(q, s);
    hide TightNodes, Admissible, Placed, WalkCost, Joined;
    var m, i := OpenOnWalk(q, s.ns, pos, w, |w| - 1);
    TotalOnWalk(q, s, i, pos, w, m);
    hide NodesOk;
  }

  /** Walks cost nothing or more. */
  lemma {:induction false} WalkCostNonNegative(q: Query, pos: PolyRef -> Vec, w: seq<PolyRef>)
    requires NonNegative(q)
    ensures WalkCost(q, pos, w) >= 0.0
  {
    if |w| > 1 {
      WalkCostNonNegative(q, pos, w[..|w| - 1]);
    }
  }

  lemma PathRefsCons(ns: seq<Node>, c: seq<nat>, front: seq<nat>, i: nat)
    requires Within(front, |ns|) && i < |ns| && c == [i] + front
    ensures Within(c, |ns|) && PathRefs(ns, c, |c|) == PathRefs(ns, front, |front|) + [ns[i].id]
  {
  }

  lemma WalkCostStep(q: Query, pos: PolyRef -> Vec, w: seq<PolyRef>, b: PolyRef)
    requires w != []
    ensures WalkCost(q, pos, w + [b]) == WalkCost(q, pos, w) + RefStep(q, pos, w[|w| - 1], b)
  {
    assert (w + [b])[..|w|] == w;
  }

  /** A path costs no more than the node it leads to. */
  lemma {:induction false} PathCost(q: Query, s: Search, i: nat, pos: PolyRef -> Vec)
    requires ParentsOk(q, s.ns) && ParentChains(s.ns, s.chains) && ParentsPaid(q, s.ns) && Placed(s.ns, pos)
    requires i < |s.ns| && s.ns[0].cost == 0.0
    ensures Within(s.chains[i], |s.ns|)
    ensures WalkCost(q, pos, PathRefs(s.ns, s.chains[i], |s.chains[i]|)) <= s.ns[i].cost
    decreases |s.chains[i]|
  {
    if i > 0 {
      assert ParentOk(q, s.ns, i) && ParentPaid(q, s.ns, i);
      var p := s.ns[i].pidx - 1;
      var cp := s.chains[p];
      assert s.chains[i] == [i] + cp;
      ChainEnds(q, s.ns, s.chains, p);
      PathCost(q, s, p, pos);
      PathRefsCons(s.ns, s.chains[i], cp, i);
      assert StepCost(q, 0, s.ns[p], s.ns[i]) == RefStep(q, pos, s.ns[p].id, s.ns[i].id);
      hide ParentsOk, ParentChains, ParentsPaid, Placed, WalkCost, RefStep, StepCost;
      WalkCostStep(q, pos, PathRefs(s.ns, cp, |cp|), s.ns[i].id);
    }
  }
}
