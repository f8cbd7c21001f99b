/** The Dijkstra search of findPolysAroundCircle on an abstract state. */
module CircleSearchModel {
  import opened Basics
  import opened SearchNodes

  datatype Portal = NoPortal | Portal(va: Vec, vb: Vec)

  /** Positions, portals and the filter are parameters; costs are exact reals. A node's position is the midpoint of the
      portal through which its polygon was discovered first, and stays fixed.

      `links` are a polygon's link targets in list order, `touches` tests a portal against the circle, and
      `getCost` is the filter's cost of moving between two points across a polygon to the next; it does not depend on
      the polygon before. */
  datatype Query = Query(
    isValid: PolyRef -> bool, links: PolyRef -> seq<PolyRef>, passFilter: PolyRef -> bool,
    portal: (PolyRef, PolyRef) -> Portal, touches: (Vec, Vec) -> bool,
    getCost: (Vec, Vec, PolyRef, PolyRef) -> real)

  ghost predicate NonNegative(q: Query) {
    forall a, b, r, n :: q.getCost(a, b, r, n) >= 0.0
  }

  /** The conditions under which the search steps from `u` to a link target `v`. */
  predicate Expands(q: Query, u: PolyRef, v: PolyRef) {
    v != 0 && q.passFilter(v) && q.portal(u, v).Portal? && q.touches(q.portal(u, v).va, q.portal(u, v).vb)
  }

  predicate Edge(q: Query, u: PolyRef, v: PolyRef) {
    v in q.links(u) && Expands(q, u, v)
  }

  function Midpoint(p: Portal): Vec
    requires p.Portal?
  {
    (p.va.0 + (p.vb.0 - p.va.0) * 0.5, p.va.1 + (p.vb.1 - p.va.1) * 0.5, p.va.2 + (p.vb.2 - p.va.2) * 0.5)
  }

  /** It is the same way from either end. */
  lemma MidpointHalves(p: Portal)
    requires p.Portal?
    ensures var m := Midpoint(p);
      m.0 - p.va.0 == p.vb.0 - m.0 && m.1 - p.va.1 == p.vb.1 - m.1 && m.2 - p.va.2 == p.vb.2 - m.2
  {
  }

  // ----- Walks -----

  ghost predicate Walk(q: Query, start: PolyRef, w: seq<PolyRef>) {
    w != [] && w[0] == start && forall k :: 0 <= k < |w| - 1 ==> Edge(q, w[k], w[k + 1])
  }

  predicate Covers(pos: map<PolyRef, Vec>, w: seq<PolyRef>) {
    forall r :: r in w ==> r in pos
  }

  function WalkCost(q: Query, pos: map<PolyRef, Vec>, w: seq<PolyRef>): real
    requires Covers(pos, w)
  {
    if |w| <= 1 then 0.0
    else
      var n := |w| - 1;
      WalkCost(q, pos, w[..n]) + q.getCost(pos[w[n - 1]], pos[w[n]], w[n - 1], w[n])
  }

  lemma {:induction false} WalkCostFrame(q: Query, pos: map<PolyRef, Vec>, pos': map<PolyRef, Vec>, w: seq<PolyRef>)
    requires Covers(pos, w) && forall r :: r in pos ==> r in pos' && pos'[r] == pos[r]
    ensures Covers(pos', w) && WalkCost(q, pos', w) == WalkCost(q, pos, w)
  {
    if |w| > 1 {
      WalkCostFrame(q, pos, pos', w[..|w| - 1]);
    }
  }

  // ----- The search state -----

  /** `ns` are the pool's nodes, `at` finds them by reference, `order` lists the closed ones as they were popped.
      `pos` and `walks` are bookkeeping: each polygon's position and a walk that attains its node's total. */
  datatype Search = Search(
    ns: seq<Node>, at: map<(PolyRef, nat), nat>, order: seq<nat>,
    pos: map<PolyRef, Vec>, walks: seq<seq<PolyRef>>)

  function Init(startRef: PolyRef, center: Vec): Search {
    Search([Node(center, 0.0, 0.0, 0, 0, true, false, startRef)], map[(startRef, 0) := 0], [],
           map[startRef := center], [[startRef]])
  }

  function Close(s: Search, i: nat): Search
    requires i < |s.ns|
  {
    s.(ns := s.ns[i := s.ns[i].(open := false, closed := true)], order := s.order + [i])
  }

  function ParentRef(ns: seq<Node>, i: nat): PolyRef
    requires i < |ns|
  {
    if 0 < ns[i].pidx <= |ns| then ns[ns[i].pidx - 1].id else 0
  }

  /** What one step from node `u` to polygon `v` does, when the pool has room for `v`. */
  function Relax(q: Query, s: Search, u: nat, v: PolyRef): Search
    requires u < |s.ns| && Expands(q, s.ns[u].id, v) && u < |s.walks|
    requires (v, 0) in s.at ==> s.at[(v, 0)] < |s.ns| && s.at[(v, 0)] < |s.walks|
  {
    if (v, 0) in s.at then
      var j := s.at[(v, 0)];
      var total := s.ns[u].total + q.getCost(s.ns[u].pos, s.ns[j].pos, s.ns[u].id, v);
      if s.ns[j].closed || (s.ns[j].open && total >= s.ns[j].total) then s
      else s.(ns := s.ns[j := s.ns[j].(pidx := u + 1, total := total, open := true)],
              walks := s.walks[j := s.walks[u] + [v]])
    else
      var pos := Midpoint(q.portal(s.ns[u].id, v));
      var total := s.ns[u].total + q.getCost(s.ns[u].pos, pos, s.ns[u].id, v);
      Search(s.ns + [Node(pos, 0.0, total, u + 1, 0, true, false, v)], s.at[(v, 0) := |s.ns|], s.order,
             s.pos[v := pos], s.walks + [s.walks[u] + [v]])
  }

  // ----- The invariant -----

  ghost predicate NodeOk(s: Search, i: nat)
    requires i < |s.ns|
  {
    var n := s.ns[i];
    && n.state == 0 && (n.id, 0) in s.at && s.at[(n.id, 0)] == i
    && n.id in s.pos && s.pos[n.id] == n.pos && n.open != n.closed
    && (n.pidx > 0 ==> n.pidx <= |s.ns| && s.ns[n.pidx - 1].closed)
  }

  /** Every node is indexed by its reference, has its polygon's position and exactly one of the two flags. */
  ghost predicate NodesOk(s: Search) {
    && |s.walks| == |s.ns|
    && (forall i :: 0 <= i < |s.ns| ==> NodeOk(s, i))
    && (forall key :: key in s.at ==> s.at[key] < |s.ns| && key == (s.ns[s.at[key]].id, 0))
    && (forall r :: r in s.pos ==> (r, 0) in s.at)
  }

  /** The closed nodes were popped in order of their totals, none of them above an open one. */
  ghost predicate OrderOk(s: Search) {
    && Distinct(s.order)
    && (forall k :: 0 <= k < |s.order| ==> s.order[k] < |s.ns|)
    && (forall i :: 0 <= i < |s.ns| ==> (i in s.order <==> s.ns[i].closed))
    && (forall j, k :: 0 <= j < k < |s.order| ==> s.ns[s.order[j]].total <= s.ns[s.order[k]].total)
    && (forall k, i :: 0 <= k < |s.order| && 0 <= i < |s.ns| && s.ns[i].open ==>
          s.ns[s.order[k]].total <= s.ns[i].total)
  }

  /** Each position is the center for the start, else the midpoint of a portal through which a step is possible. */
  ghost predicate Located(q: Query, start: PolyRef, pos: map<PolyRef, Vec>) {
    forall r :: r in pos && r != start ==>
      exists u :: u in pos && Edge(q, u, r) && pos[r] == Midpoint(q.portal(u, r))
  }

  ghost predicate AttainedBy(q: Query, start: PolyRef, s: Search, i: nat)
    requires i < |s.ns| && i < |s.walks|
  {
    var w := s.walks[i];
    Walk(q, start, w) && w[|w| - 1] == s.ns[i].id && Covers(s.pos, w) && WalkCost(q, s.pos, w) == s.ns[i].total
  }

  ghost predicate Attained(q: Query, start: PolyRef, s: Search)
    requires |s.walks| == |s.ns|
  {
    forall i :: 0 <= i < |s.ns| ==> AttainedBy(q, start, s, i)
  }

  /** The step from node `i` to polygon `v` cannot lower `v`'s total any more. */
  ghost predicate Tight(q: Query, s: Search, i: nat, v: PolyRef)
    requires NodesOk(s) && i < |s.ns|
  {
    (v, 0) in s.at &&
    s.ns[s.at[(v, 0)]].total <=
      s.ns[i].total + q.getCost(s.ns[i].pos, s.ns[s.at[(v, 0)]].pos, s.ns[i].id, v)
  }

  /** All steps from closed nodes are tight; of the node being expanded, those to the polygons in `done`. */
  ghost predicate Settled(q: Query, s: Search, cur: int, done: seq<PolyRef>)
    requires NodesOk(s)
  {
    forall i, v :: (0 <= i < |s.ns| && s.ns[i].closed && Edge(q, s.ns[i].id, v) && (i == cur ==> v in done)) ==>
      Tight(q, s, i, v)
  }

  /** The start has no parent; any other node costs what its parent, which is closed, and the step from it cost. */
  ghost predicate ParentedAt(q: Query, s: Search, i: nat)
    requires i < |s.ns|
  {
    var n := s.ns[i];
    if i == 0 then n.pidx == 0
    else
      0 < n.pidx <= |s.ns| &&
      var p := s.ns[n.pidx - 1];
      p.closed && Edge(q, p.id, n.id) && n.total == p.total + q.getCost(p.pos, n.pos, p.id, n.id)
  }

  /** The parent of the `k`th closed node was closed before. */
  ghost predicate ParentFirst(s: Search, k: nat)
    requires k < |s.order|
  {
    s.order[k] < |s.ns| && (s.ns[s.order[k]].pidx > 0 ==> s.ns[s.order[k]].pidx - 1 in s.order[..k])
  }

  ghost predicate Parented(q: Query, s: Search, cur: int) {
    && (forall i :: 0 <= i < |s.ns| ==> ParentedAt(q, s, i))
    && (forall k :: 0 <= k < |s.order| ==> ParentFirst(s, k))
    && (|s.ns| > 1 || (cur >= 0 && s.ns != []) ==> s.ns[0].closed)
  }

  /** `complete` tells that the pool never ran out of nodes. */
  ghost predicate Inv(q: Query, start: PolyRef, s: Search, cur: int, done: seq<PolyRef>, complete: bool) {
    && s.ns != [] && s.ns[0].id == start && s.ns[0].total == 0.0
    && NodesOk(s) && OrderOk(s) && Attained(q, start, s) && Located(q, start, s.pos)
    && Parented(q, s, cur)
    && (complete ==> Settled(q, s, cur, done))
    && (cur >= 0 ==> cur < |s.ns| && s.order != [] && s.order[|s.order| - 1] == cur)
  }

  lemma InitInv(q: Query, startRef: PolyRef, center: Vec)
    ensures Inv(q, startRef, Init(startRef, center), -1, [], true)
  {
    var s := Init(startRef, center);
    assert AttainedBy(q, startRef, s, 0) && ParentedAt(q, s, 0);
  }

  /** Popping a least open node. */
  lemma CloseInv(q: Query, start: PolyRef, s: Search, i: nat, complete: bool)
    requires Inv(q, start, s, -1, [], complete) && i < |s.ns| && s.ns[i].open
    requires forall j :: 0 <= j < |s.ns| && s.ns[j].open ==> s.ns[i].total <= s.ns[j].total
    ensures Inv(q, start, Close(s, i), i, [], complete)
  {
    hide Located, OrderOk, Parented;
    var s' := Close(s, i);
    assert NodeOk(s, i);
    CloseParented(q, s, i);
    CloseNodes(s, i);
    CloseOrder(s, i);
    forall j | 0 <= j < |s'.ns|
      ensures AttainedBy(q, start, s', j)
    {
      assert AttainedBy(q, start, s, j);
    }
    if complete {
      forall j, v | 0 <= j < |s'.ns| && s'.ns[j].closed && Edge(q, s'.ns[j].id, v) && j != i
        ensures Tight(q, s', j, v)
      {
        assert Tight(q, s, j, v);
      }
    }
  }

  lemma CloseNodes(s: Search, i: nat)
    requires NodesOk(s) && i < |s.ns|
    requires s.ns[i].open
    ensures NodesOk(Close(s, i))
  {
    var s' := Close(s, i);
    forall j | 0 <= j < |s'.ns|
      ensures NodeOk(s', j)
    {
      assert NodeOk(s, j);
    }
  }

  lemma CloseParentedAt(q: Query, s: Search, i: nat, j: nat)
    requires NodesOk(s) && i < |s.ns| && j < |s.ns| && ParentedAt(q, s, j)
    ensures ParentedAt(q, Close(s, i), j)
  {
  }

  lemma CloseParentFirst(q: Query, s: Search, i: nat, k: nat)
    requires NodesOk(s) && OrderOk(s) && i < |s.ns| && ParentedAt(q, s, i) && k <= |s.order|
    requires k < |s.order| ==> ParentFirst(s, k)
    ensures ParentFirst(Close(s, i), k)
  {
    hide NodesOk, Edge;
    var s' := Close(s, i);
    assert s'.order[..k] == s.order[..k];
    assert k == |s.order| ==> s'.order[..k] == s.order;
  }

  lemma CloseParented(q: Query, s: Search, i: nat)
    requires NodesOk(s) && OrderOk(s) && Parented(q, s, -1) && i < |s.ns| && s.ns[i].open
    ensures Parented(q, Close(s, i), i)
  {
    hide NodesOk, OrderOk, ParentedAt, ParentFirst;
    var s' := Close(s, i);
    forall j | 0 <= j < |s'.ns|
      ensures ParentedAt(q, s', j)
    {
      CloseParentedAt(q, s, i, j);
    }
    forall k | 0 <= k < |s'.order|
      ensures ParentFirst(s', k)
    {
      CloseParentFirst(q, s, i, k);
    }
  }

  lemma CloseOrder(s: Search, i: nat)
    requires OrderOk(s) && i < |s.ns| && s.ns[i].open && !s.ns[i].closed
    requires forall j :: 0 <= j < |s.ns| && s.ns[j].open ==> s.ns[i].total <= s.ns[j].total
    ensures OrderOk(Close(s, i))
  {
    var s' := Close(s, i);
    assert i !in s.order;
    forall j | 0 <= j < |s'.ns|
      ensures j in s'.order <==> s'.ns[j].closed
    {
      assert j in s'.order <==> j in s.order || j == i;
    }
  }

  /** A link that is not followed, or whose step is tight already, is done. */
  lemma SkipInv(q: Query, start: PolyRef, s: Search, u: nat, done: seq<PolyRef>, v: PolyRef, complete: bool)
    requires Inv(q, start, s, u, done, complete)
    requires Edge(q, s.ns[u].id, v) && complete ==> Tight(q, s, u, v)
    ensures Inv(q, start, s, u, done + [v], complete)
  {
    hide Attained, OrderOk, Located, NodesOk, Parented;
  }

  /** Stepping back to the parent can never pay: it was closed before. */
  lemma ParentTight(q: Query, start: PolyRef, s: Search, u: nat, done: seq<PolyRef>, complete: bool)
    requires Inv(q, start, s, u, done, complete) && NonNegative(q) && ParentRef(s.ns, u) != 0
    ensures Tight(q, s, u, ParentRef(s.ns, u))
  {
    hide Settled, Attained, Located;
    var p := s.ns[u].pidx - 1;
    assert NodeOk(s, u) && NodeOk(s, p);
    ClosedTight(q, start, s, u, done, complete, p);
  }

  lemma ClosedTight(q: Query, start: PolyRef, s: Search, u: nat, done: seq<PolyRef>, complete: bool, p: nat)
    requires Inv(q, start, s, u, done, complete) && NonNegative(q) && p < |s.ns| && s.ns[p].closed
    ensures Tight(q, s, u, s.ns[p].id)
  {
    hide Settled, Attained, Located;
    assert NodeOk(s, p);
    var k :| 0 <= k < |s.order| && s.order[k] == p;
  }

  lemma RelaxNode(q: Query, s: Search, u: nat, v: PolyRef, j: nat)
    requires NodesOk(s) && u < |s.ns| && s.ns[u].closed && Expands(q, s.ns[u].id, v) && j < |Relax(q, s, u, v).ns|
    ensures NodeOk(Relax(q, s, u, v), j)
  {
    if j < |s.ns| {
      assert NodeOk(s, j);
    }
  }

  lemma RelaxNodes(q: Query, start: PolyRef, s: Search, u: nat, done: seq<PolyRef>, v: PolyRef, complete: bool)
    requires Inv(q, start, s, u, done, complete) && Expands(q, s.ns[u].id, v)
    ensures NodesOk(Relax(q, s, u, v))
  {
    hide Settled, Attained, Located, Tight, NodeOk;
    var s' := Relax(q, s, u, v);
    assert u in s.order && s.ns[u].closed && NodesOk(s);
    hide Inv;
    forall j | 0 <= j < |s'.ns|
      ensures NodeOk(s', j)
    {
      RelaxNode(q, s, u, v, j);
    }
  }

  /** What a step leaves alone: closed nodes, identities and positions; totals only fall, never below `u`'s. */
  ghost predicate Refines(s: Search, s': Search, u: nat)
    requires u < |s.ns|
  {
    && |s.ns| <= |s'.ns| && s'.order == s.order
    && (forall j :: 0 <= j < |s.ns| ==>
          && s'.ns[j].id == s.ns[j].id && s'.ns[j].pos == s.ns[j].pos && s'.ns[j].closed == s.ns[j].closed
          && s'.ns[j].total <= s.ns[j].total && (s.ns[j].closed ==> s'.ns[j] == s.ns[j]))
    && (forall j :: 0 <= j < |s'.ns| ==>
          (j < |s.ns| || !s'.ns[j].closed) && (s'.ns[j].open ==> s.ns[u].total <= s'.ns[j].total))
    && (forall key :: key in s.at ==> key in s'.at && s'.at[key] == s.at[key])
    && (forall r :: r in s.pos ==> r in s'.pos && s'.pos[r] == s.pos[r])
  }

  lemma RelaxRefines(q: Query, start: PolyRef, s: Search, u: nat, done: seq<PolyRef>, v: PolyRef, complete: bool)
    requires Inv(q, start, s, u, done, complete) && Expands(q, s.ns[u].id, v) && NonNegative(q)
    ensures Refines(s, Relax(q, s, u, v), u)
  {
    hide Settled, Attained, Located, Tight;
    var s' := Relax(q, s, u, v);
    assert u == s.order[|s.order| - 1];
    forall j | 0 <= j < |s'.ns| && s'.ns[j].open
      ensures s.ns[u].total <= s'.ns[j].total
    {
      assert j < |s.ns| ==> NodeOk(s, j);
    }
    if (v, 0) in s.at {
      assert NodeOk(s, s.at[(v, 0)]);
    }
  }

  lemma RelaxOrder(s: Search, s': Search, u: nat)
    requires OrderOk(s) && u < |s.ns| && Refines(s, s', u)
    requires s.order != [] && s.order[|s.order| - 1] == u
    ensures OrderOk(s')
  {
    assert forall k :: 0 <= k < |s.order| ==> s.ns[s.order[k]].total <= s.ns[u].total;
    assert forall k :: 0 <= k < |s.order| ==> s.order[k] in s.order;
  }

  lemma RelaxAttained(q: Query, start: PolyRef, s: Search, u: nat, done: seq<PolyRef>, v: PolyRef, complete: bool)
    requires Inv(q, start, s, u, done, complete) && Edge(q, s.ns[u].id, v)
    ensures Attained(q, start, Relax(q, s, u, v))
  {
    hide Settled, Located, Tight, OrderOk;
    var s' := Relax(q, s, u, v);
    var j := if (v, 0) in s.at then s.at[(v, 0)] else |s.ns|;
    forall i | 0 <= i < |s'.ns| && i != j
      ensures AttainedBy(q, start, s', i)
    {
      assert AttainedBy(q, start, s, i) && NodeOk(s, i);
      WalkCostFrame(q, s.pos, s'.pos, s.walks[i]);
    }
    if s' == s {
      assert AttainedBy(q, start, s, j);
    } else {
      assert (v, 0) in s.at ==> NodeOk(s, j);
      StepAttains(q, start, s, u, v, s', j);
    }
  }

  lemma StepAttains(q: Query, start: PolyRef, s: Search, u: nat, v: PolyRef, s': Search, j: nat)
    requires NodesOk(s) && u < |s.ns| && AttainedBy(q, start, s, u) && Edge(q, s.ns[u].id, v)
    requires j < |s'.ns| && j < |s'.walks| && s'.walks[j] == s.walks[u] + [v] && s'.ns[j].id == v
    requires forall r :: r in s.pos ==> r in s'.pos && s'.pos[r] == s.pos[r]
    requires v in s'.pos && s'.pos[v] == s'.ns[j].pos
    requires s'.ns[j].total == s.ns[u].total + q.getCost(s.ns[u].pos, s'.ns[j].pos, s.ns[u].id, v)
    ensures AttainedBy(q, start, s', j)
  {
    var w := s.walks[u];
    assert NodeOk(s, u);
    hide NodesOk;
    WalkCostFrame(q, s.pos, s'.pos, w);
    assert (w + [v])[..|w|] == w;
  }

  lemma RelaxSettled(q: Query, s: Search, s': Search, u: nat, done: seq<PolyRef>, v: PolyRef)
    requires NodesOk(s) && NodesOk(s') && u < |s.ns| && Refines(s, s', u)
    requires Settled(q, s, u, done) && Tight(q, s', u, v)
    ensures Settled(q, s', u, done + [v])
  {
    forall i, x | 0 <= i < |s'.ns| && s'.ns[i].closed && Edge(q, s'.ns[i].id, x) && (i == u ==> x in done + [v])
      ensures Tight(q, s', i, x)
    {
      if i != u || x in done {
        assert Tight(q, s, i, x);
      }
    }
  }

  lemma RelaxTight(q: Query, start: PolyRef, s: Search, u: nat, done: seq<PolyRef>, v: PolyRef, complete: bool)
    requires Inv(q, start, s, u, done, complete) && Expands(q, s.ns[u].id, v) && NonNegative(q)
    requires NodesOk(Relax(q, s, u, v))
    ensures Tight(q, Relax(q, s, u, v), u, v)
  {
    hide Settled, Located, Attained;
    assert NodeOk(s, u) && u in s.order;
    if (v, 0) in s.at {
      assert NodeOk(s, s.at[(v, 0)]);
      if s.ns[s.at[(v, 0)]].closed {
        ClosedTight(q, start, s, u, done, complete, s.at[(v, 0)]);
      }
    }
  }

  /** One step along a link keeps the invariant and is tight afterwards. */
  lemma RelaxInv(q: Query, start: PolyRef, s: Search, u: nat, done: seq<PolyRef>, v: PolyRef, complete: bool)
    requires Inv(q, start, s, u, done, complete) && Edge(q, s.ns[u].id, v) && NonNegative(q)
    ensures Inv(q, start, Relax(q, s, u, v), u, done + [v], complete)
  {
    hide Settled, Attained, OrderOk, Tight, Located, NodeOk, Refines, Parented;
    RelaxParented(q, start, s, u, done, v, complete);
    RelaxNodes(q, start, s, u, done, v, complete);
    RelaxRefines(q, start, s, u, done, v, complete);
    RelaxOrder(s, Relax(q, s, u, v), u);
    RelaxAttained(q, start, s, u, done, v, complete);
    if complete {
      RelaxTight(q, start, s, u, done, v, complete);
      RelaxSettled(q, s, Relax(q, s, u, v), u, done, v);
    }
    RelaxStart(q, start, s, u, done, v, complete);
    RelaxLocated(q, start, s, u, done, v, complete);
  }

  lemma RelaxParentedAt(q: Query, s: Search, u: nat, v: PolyRef, j: nat)
    requires NodesOk(s) && u < |s.ns| && s.ns[u].closed && s.ns[0].closed && Edge(q, s.ns[u].id, v)
    requires j < |Relax(q, s, u, v).ns| && (j < |s.ns| ==> ParentedAt(q, s, j))
    ensures ParentedAt(q, Relax(q, s, u, v), j)
  {
    assert NodeOk(s, u) && NodeOk(s, 0);
    if (v, 0) in s.at {
      assert NodeOk(s, s.at[(v, 0)]);
    }
    hide Edge;
  }

  lemma RelaxParented(q: Query, start: PolyRef, s: Search, u: nat, done: seq<PolyRef>, v: PolyRef, complete: bool)
    requires Inv(q, start, s, u, done, complete) && Edge(q, s.ns[u].id, v) && NonNegative(q)
    ensures Parented(q, Relax(q, s, u, v), u)
  {
    RelaxRefines(q, start, s, u, done, v, complete);
    hide Settled, Attained, Located, Tight, ParentedAt, Relax, Edge;
    assert u in s.order;
    var s' := Relax(q, s, u, v);
    forall j | 0 <= j < |s'.ns|
      ensures ParentedAt(q, s', j)
    {
      RelaxParentedAt(q, s, u, v, j);
    }
    forall k | 0 <= k < |s'.order|
      ensures ParentFirst(s', k)
    {
      assert ParentFirst(s, k) && s.order[k] in s.order;
    }
  }

  lemma RelaxLocated(q: Query, start: PolyRef, s: Search, u: nat, done: seq<PolyRef>, v: PolyRef, complete: bool)
    requires Inv(q, start, s, u, done, complete) && Edge(q, s.ns[u].id, v)
    ensures Located(q, start, Relax(q, s, u, v).pos)
  {
    hide Settled, Attained, OrderOk, Tight;
    var s' := Relax(q, s, u, v);
    assert NodeOk(s, u);
    forall r | r in s'.pos && r != start
      ensures exists x :: x in s'.pos && Edge(q, x, r) && s'.pos[r] == Midpoint(q.portal(x, r))
    {
      if r in s.pos {
        var x :| x in s.pos && Edge(q, x, r) && s.pos[r] == Midpoint(q.portal(x, r));
        assert x in s'.pos && s'.pos[r] == s.pos[r];
      } else {
        assert r == v && s.ns[u].id in s'.pos;
      }
    }
  }

  /** The start node is never improved: its total is zero. */
  lemma RelaxStart(q: Query, start: PolyRef, s: Search, u: nat, done: seq<PolyRef>, v: PolyRef, complete: bool)
    requires Inv(q, start, s, u, done, complete) && Expands(q, s.ns[u].id, v) && NonNegative(q)
    ensures Relax(q, s, u, v).ns != [] && Relax(q, s, u, v).ns[0].id == start && Relax(q, s, u, v).ns[0].total == 0.0
  {
    hide Settled, Located, Tight, OrderOk;
    assert NodeOk(s, 0) && NodeOk(s, u);
    assert AttainedBy(q, start, s, u);
    WalkCostNonNegative(q, s.pos, s.walks[u]);
  }

  lemma {:induction false} WalkCostNonNegative(q: Query, pos: map<PolyRef, Vec>, w: seq<PolyRef>)
    requires Covers(pos, w) && NonNegative(q)
    ensures WalkCost(q, pos, w) >= 0.0
  {
    if |w| > 1 {
      WalkCostNonNegative(q, pos, w[..|w| - 1]);
    }
  }

  // ----- Main result -----

  /** When nothing is open and the pool never ran out: every polygon a walk can reach was found, at a cost no walk
      can beat. */
  lemma {:induction false} NoWalkIsCheaper(q: Query, start: PolyRef, s: Search, w: seq<PolyRef>)
    requires Inv(q, start, s, -1, [], true) && (forall i :: 0 <= i < |s.ns| ==> !s.ns[i].open)
    requires Walk(q, start, w)
    ensures Covers(s.pos, w) && (w[|w| - 1], 0) in s.at
    ensures s.ns[s.at[(w[|w| - 1], 0)]].total <= WalkCost(q, s.pos, w)
    decreases |w|
  {
    var n := |w| - 1;
    if n == 0 {
      assert NodeOk(s, 0);
    } else {
      assert Edge(q, w[n - 1], w[n]);
      NoWalkIsCheaper(q, start, s, w[..n]);
      WalkStep(q, start, s, w);
    }
  }

  lemma WalkStep(q: Query, start: PolyRef, s: Search, w: seq<PolyRef>)
    requires NodesOk(s) && Settled(q, s, -1, []) && (forall i :: 0 <= i < |s.ns| ==> !s.ns[i].open)
    requires |w| > 1 && Edge(q, w[|w| - 2], w[|w| - 1])
    requires Covers(s.pos, w[..|w| - 1]) && (w[|w| - 2], 0) in s.at
    requires s.ns[s.at[(w[|w| - 2], 0)]].total <= WalkCost(q, s.pos, w[..|w| - 1])
    ensures Covers(s.pos, w) && (w[|w| - 1], 0) in s.at
    ensures s.ns[s.at[(w[|w| - 1], 0)]].total <= WalkCost(q, s.pos, w)
  {
    var n := |w| - 1;
    var i := s.at[(w[n - 1], 0)];
    assert NodeOk(s, i);
    assert Tight(q, s, i, w[n]);
    assert NodeOk(s, s.at[(w[n], 0)]);
    hide NodesOk, Settled, WalkCost, Covers;
    WalkCostSnoc(q, s.pos, w);
  }

  lemma WalkCostSnoc(q: Query, pos: map<PolyRef, Vec>, w: seq<PolyRef>)
    requires |w| > 1 && Covers(pos, w[..|w| - 1]) && w[|w| - 1] in pos
    ensures var n := |w| - 1;
      && Covers(pos, w) && w[n - 1] in pos
      && WalkCost(q, pos, w) == WalkCost(q, pos, w[..n]) + q.getCost(pos[w[n - 1]], pos[w[n]], w[n - 1], w[n])
  {
    var n := |w| - 1;
    assert w == w[..n] + [w[n]] && w[..n][n - 1] == w[n - 1];
  }
}
