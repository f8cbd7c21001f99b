/** buildMeshAdjacency: neighbours across shared edges, found through an edge hash. */
module MeshAdjacency {
  import opened Basics
  import opened PolyGeometry
  import opened SharedLists

  /** An edge from the smaller to the larger vertex, the polygon and place it is from, and the polygon and place that
      has it the other way round; until one is found that is the same polygon. */
  datatype EdgeRec = EdgeRec(vert: Edge, poly0: nat, edge0: nat, poly1: nat, edge1: nat)

  predicate IsEdge(polys: seq<Poly>, i: nat, j: nat) {
    i < |polys| && j < |polys[i]|
  }

  /** Edge `j` of polygon `i`. */
  function EdgeAt(polys: seq<Poly>, i: nat, j: nat): Edge
    requires IsEdge(polys, i, j)
  {
    (polys[i][j], polys[i][Next(j, |polys[i]|)])
  }

  predicate Matched(r: EdgeRec) {
    r.poly0 != r.poly1
  }

  /** A record names an ascending edge, and the place that matches it runs the other way. */
  predicate RecOk(polys: seq<Poly>, r: EdgeRec) {
    && IsEdge(polys, r.poly0, r.edge0) && EdgeAt(polys, r.poly0, r.edge0) == r.vert && r.vert.0 < r.vert.1
    && (Matched(r) ==> IsEdge(polys, r.poly1, r.edge1) && EdgeAt(polys, r.poly1, r.edge1) == Reverse(r.vert))
  }

  /** Edge `(i, j)` comes before edge `(a, b)`. */
  predicate Before(i: nat, j: nat, a: nat, b: nat) {
    i < a || (i == a && j < b)
  }

  /** Every record is right, and no two are from the same place. */
  predicate RecsOk(polys: seq<Poly>, recs: seq<EdgeRec>) {
    && (forall k :: 0 <= k < |recs| ==> RecOk(polys, recs[k]))
    && forall k, m :: 0 <= k < m < |recs| ==> recs[k].poly0 != recs[m].poly0 || recs[k].edge0 != recs[m].edge0
  }

  predicate HasRec(recs: seq<EdgeRec>, i: nat, j: nat) {
    exists k :: 0 <= k < |recs| && recs[k].poly0 == i && recs[k].edge0 == j
  }

  /** Every ascending edge before `(a, b)` has a record, and the records are all of edges before `(a, b)`. */
  ghost predicate Recorded(polys: seq<Poly>, recs: seq<EdgeRec>, a: nat, b: nat) {
    && (forall i: nat, j: nat ::
          IsEdge(polys, i, j) && Before(i, j, a, b) && EdgeAt(polys, i, j).0 < EdgeAt(polys, i, j).1 ==>
            HasRec(recs, i, j))
    && forall k :: 0 <= k < |recs| ==> Before(recs[k].poly0, recs[k].edge0, a, b)
  }

  /** Chain `v` of the hash has exactly the records whose smaller vertex is `v`. */
  ghost predicate Hashed(recs: seq<EdgeRec>, first: seq<int>, next: seq<int>, lists: seq<seq<nat>>, owner: seq<nat>) {
    && Shared(next, first, lists, owner) && |next| == |recs| == |owner|
    && forall k :: 0 <= k < |recs| ==> owner[k] == recs[k].vert.0
  }

  /** Each directed edge occurs at most once, and no polygon has an edge both ways. */
  ghost predicate EdgesUnique(polys: seq<Poly>) {
    && (forall i: nat, j: nat, a: nat, b: nat ::
          IsEdge(polys, i, j) && IsEdge(polys, a, b) && EdgeAt(polys, i, j) == EdgeAt(polys, a, b) ==> i == a && j == b)
    && forall i: nat, j: nat, b: nat ::
         IsEdge(polys, i, j) && IsEdge(polys, i, b) ==> EdgeAt(polys, i, j) != Reverse(EdgeAt(polys, i, b))
  }

  /** No edge matches two records; matched edges come before `(a, b)`. */
  ghost predicate MatchedOnce(recs: seq<EdgeRec>, a: nat, b: nat) {
    && (forall k, m :: 0 <= k < m < |recs| && Matched(recs[k]) && Matched(recs[m]) ==>
          recs[k].poly1 != recs[m].poly1 || recs[k].edge1 != recs[m].edge1)
    && forall k :: 0 <= k < |recs| && Matched(recs[k]) ==> Before(recs[k].poly1, recs[k].edge1, a, b)
  }

  /** Every record of the edge that runs against edge `(i, j)` is matched with it. */
  predicate PlaceMatched(polys: seq<Poly>, recs: seq<EdgeRec>, i: nat, j: nat)
    requires IsEdge(polys, i, j)
  {
    forall k :: 0 <= k < |recs| && recs[k].vert == Reverse(EdgeAt(polys, i, j)) ==>
      recs[k].poly1 == i && recs[k].edge1 == j
  }

  ghost predicate AllMatched(polys: seq<Poly>, recs: seq<EdgeRec>, a: nat, b: nat) {
    forall i: nat, j: nat :: IsEdge(polys, i, j) && Before(i, j, a, b) ==> PlaceMatched(polys, recs, i, j)
  }

  // ----- Recording edges -----

  /** One more edge looked at. */
  lemma RecordStep(polys: seq<Poly>, recs: seq<EdgeRec>, i: nat, j: nat, recs': seq<EdgeRec>)
    requires IsEdge(polys, i, j) && RecsOk(polys, recs) && Recorded(polys, recs, i, j)
    requires recs' == if EdgeAt(polys, i, j).0 < EdgeAt(polys, i, j).1
      then recs + [EdgeRec(EdgeAt(polys, i, j), i, j, i, 0)] else recs
    ensures RecsOk(polys, recs') && Recorded(polys, recs', i, j + 1)
  {
    hide EdgeAt, RecOk;
    assert EdgeAt(polys, i, j).0 < EdgeAt(polys, i, j).1 ==> RecOk(polys, EdgeRec(EdgeAt(polys, i, j), i, j, i, 0)) by {
      NewRecOk(polys, i, j);
    }
    forall a: nat, b: nat |
      IsEdge(polys, a, b) && Before(a, b, i, j + 1) && EdgeAt(polys, a, b).0 < EdgeAt(polys, a, b).1
      ensures HasRec(recs', a, b)
    {
      if a == i && b == j {
        assert recs'[|recs|].poly0 == i;
      } else {
        var k :| 0 <= k < |recs| && recs[k].poly0 == a && recs[k].edge0 == b;
        assert recs'[k] == recs[k];
      }
    }
  }

  lemma NewRecOk(polys: seq<Poly>, i: nat, j: nat)
    requires IsEdge(polys, i, j)
    ensures EdgeAt(polys, i, j).0 < EdgeAt(polys, i, j).1 ==> RecOk(polys, EdgeRec(EdgeAt(polys, i, j), i, j, i, 0))
  {
  }

  method RecordEdges(polys: seq<Poly>, nverts: nat)
    returns (recs: seq<EdgeRec>, first: seq<int>, next: seq<int>, ghost lists: seq<seq<nat>>, ghost owner: seq<nat>)
    requires forall i :: 0 <= i < |polys| ==> forall j :: 0 <= j < |polys[i]| ==> polys[i][j] < nverts
    ensures RecsOk(polys, recs) && Recorded(polys, recs, |polys|, 0) && Hashed(recs, first, next, lists, owner)
    ensures |first| == nverts && forall k :: 0 <= k < |recs| ==> !Matched(recs[k])
  {
    hide RecOk, Shared, HasRec;
    recs, next := [], [];
    first := seq(nverts, _ => NULL);
    lists, owner := seq(nverts, _ => []), [];
    EmptyHash(first, lists);
    for i := 0 to |polys|
      invariant RecsOk(polys, recs) && Recorded(polys, recs, i, 0) && Hashed(recs, first, next, lists, owner)
      invariant |first| == |lists| == nverts && forall k :: 0 <= k < |recs| ==> !Matched(recs[k])
    {
      var t := polys[i];
      for j := 0 to |t|
        invariant RecsOk(polys, recs) && Recorded(polys, recs, i, j) && Hashed(recs, first, next, lists, owner)
        invariant |first| == |lists| == nverts && forall k :: 0 <= k < |recs| ==> !Matched(recs[k])
      {
        var v0 := t[j];
        var v1 := if j + 1 >= |t| then t[0] else t[j + 1];
        assert EdgeAt(polys, i, j) == (v0, v1);
        ghost var before := recs;
        if v0 < v1 {
          PushNew(next, first, lists, owner, v0);
          lists, owner := lists[v0 := [|next|] + lists[v0]], owner + [v0];
          var edgeCount := |recs|;
          recs := recs + [EdgeRec((v0, v1), i, j, i, 0)];
          next := next + [first[v0]];
          first := first[v0 := edgeCount];
        }
        RecordStep(polys, before, i, j, recs);
      }
    }
  }

  lemma EmptyHash(first: seq<int>, lists: seq<seq<nat>>)
    requires |lists| == |first| && forall k :: 0 <= k < |first| ==> first[k] == NULL && lists[k] == []
    ensures Hashed([], first, [], lists, [])
  {
    forall l | 0 <= l < |lists|
      ensures ListOk([], first[l], lists[l], [], l)
    {
    }
  }

  // ----- Matching edges -----

  /** The first record of the chain that is of edge `(v1, v0)` and not yet matched; -1 if there is none. */
  method FindUnmatched(recs: seq<EdgeRec>, first: seq<int>, next: seq<int>, v0: nat, v1: nat,
                       ghost lists: seq<seq<nat>>, ghost owner: seq<nat>)
    returns (e: int)
    requires Hashed(recs, first, next, lists, owner) && v1 < |first|
    ensures -1 <= e < |recs|
    ensures e == -1 <==> forall k :: 0 <= k < |recs| ==> recs[k].vert != (v1, v0) || Matched(recs[k])
    ensures e != -1 ==> recs[e].vert == (v1, v0) && !Matched(recs[e])
  {
    hide Shared, ListOk, Chain, Matched, Distinct;
    ChainOf(recs, first, next, lists, owner, v1);
    ghost var list := lists[v1];
    e := first[v1];
    ghost var m := 0;
    ChainAt(next, first[v1], list, 0);
    while e != NULL
      invariant m <= |list| && e == if m < |list| then list[m] else NULL
      invariant forall n :: 0 <= n < m ==> list[n] < |recs| && (recs[list[n]].vert.1 != v0 || Matched(recs[list[n]]))
      decreases |list| - m
    {
      ChainAt(next, first[v1], list, m);
      if recs[e].vert.1 == v0 && !Matched(recs[e]) {
        return;
      }
      e, m := next[e], m + 1;
    }
    forall k | 0 <= k < |recs|
      ensures recs[k].vert != (v1, v0) || Matched(recs[k])
    {
      assert recs[k].vert.0 == v1 ==> k in list;
    }
  }

  lemma ChainOf(recs: seq<EdgeRec>, first: seq<int>, next: seq<int>, lists: seq<seq<nat>>, owner: seq<nat>, v: nat)
    requires Hashed(recs, first, next, lists, owner) && v < |first|
    ensures |lists| == |first| && Chain(next, first[v], lists[v])
    ensures forall n :: 0 <= n < |lists[v]| ==> lists[v][n] < |recs| && recs[lists[v][n]].vert.0 == v
    ensures forall k :: 0 <= k < |recs| && recs[k].vert.0 == v ==> k in lists[v]
  {
    assert ListOk(next, first[v], lists[v], owner, v);
    forall n | 0 <= n < |lists[v]|
      ensures lists[v][n] < |recs| && recs[lists[v][n]].vert.0 == v
    {
      assert lists[v][n] in lists[v];
    }
  }

  /** The records after looking at edge `(i, j)`: an unmatched record of its reverse is matched with it. */
  function MatchWith(recs: seq<EdgeRec>, e: int, i: nat, j: nat): seq<EdgeRec>
    requires -1 <= e < |recs|
  {
    if e == -1 then recs else recs[e := recs[e].(poly1 := i, edge1 := j)]
  }

  lemma MatchedRecOk(polys: seq<Poly>, r: EdgeRec, i: nat, j: nat)
    requires RecOk(polys, r) && IsEdge(polys, i, j)
    ensures r.vert == Reverse(EdgeAt(polys, i, j)) ==> RecOk(polys, r.(poly1 := i, edge1 := j))
  {
  }

  lemma MatchKeepsOnce(recs: seq<EdgeRec>, e: int, i: nat, j: nat)
    requires -1 <= e < |recs| && MatchedOnce(recs, i, j)
    ensures MatchedOnce(MatchWith(recs, e, i, j), i, j + 1)
  {
  }

  lemma MatchKeepsRecorded(polys: seq<Poly>, recs: seq<EdgeRec>, e: int, i: nat, j: nat)
    requires -1 <= e < |recs| && Recorded(polys, recs, |polys|, 0)
    ensures Recorded(polys, MatchWith(recs, e, i, j), |polys|, 0)
  {
    hide EdgeAt;
    var recs' := MatchWith(recs, e, i, j);
    forall a: nat, b: nat | HasRec(recs, a, b)
      ensures HasRec(recs', a, b)
    {
      var k :| 0 <= k < |recs| && recs[k].poly0 == a && recs[k].edge0 == b;
      assert recs'[k].poly0 == a;
    }
  }

  lemma MatchKeeps(polys: seq<Poly>, recs: seq<EdgeRec>, e: int, i: nat, j: nat)
    requires -1 <= e < |recs| && IsEdge(polys, i, j) && RecsOk(polys, recs)
    requires e != -1 ==> recs[e].vert == Reverse(EdgeAt(polys, i, j))
    ensures RecsOk(polys, MatchWith(recs, e, i, j))
  {
    hide EdgeAt, RecOk;
    var recs' := MatchWith(recs, e, i, j);
    forall k | 0 <= k < |recs'|
      ensures RecOk(polys, recs'[k])
    {
      MatchedRecOk(polys, recs[k], i, j);
    }
  }

  /** With unique edges there is at most one record of an edge. */
  lemma OneRecord(polys: seq<Poly>, recs: seq<EdgeRec>, k: nat, m: nat)
    requires EdgesUnique(polys) && RecsOk(polys, recs) && k < |recs| && m < |recs| && recs[k].vert == recs[m].vert
    ensures k == m
  {
    hide EdgeAt;
    assert RecOk(polys, recs[k]) && RecOk(polys, recs[m]);
  }

  /** With unique edges, a record that runs against edge `(i, j)` cannot have been matched before. */
  lemma NotYetMatched(polys: seq<Poly>, recs: seq<EdgeRec>, k: nat, i: nat, j: nat)
    requires EdgesUnique(polys) && IsEdge(polys, i, j) && RecsOk(polys, recs) && MatchedOnce(recs, i, j)
    requires k < |recs| && recs[k].vert == Reverse(EdgeAt(polys, i, j))
    ensures !Matched(recs[k])
  {
    hide EdgeAt, Matched;
    var r := recs[k];
    assert RecOk(polys, r);
    assert Matched(r) ==> Before(r.poly1, r.edge1, i, j);
  }

  lemma MatchAll(polys: seq<Poly>, recs: seq<EdgeRec>, e: int, i: nat, j: nat)
    requires EdgesUnique(polys) && IsEdge(polys, i, j) && RecsOk(polys, recs) && MatchedOnce(recs, i, j)
    requires AllMatched(polys, recs, i, j) && -1 <= e < |recs|
    requires e == -1 ==> forall k :: 0 <= k < |recs| ==>
      recs[k].vert != Reverse(EdgeAt(polys, i, j)) || Matched(recs[k])
    requires e != -1 ==> recs[e].vert == Reverse(EdgeAt(polys, i, j)) && !Matched(recs[e])
    ensures AllMatched(polys, MatchWith(recs, e, i, j), i, j + 1)
  {
    hide EdgeAt, Matched;
    var recs' := MatchWith(recs, e, i, j);
    forall k | 0 <= k < |recs'| && recs'[k].vert == Reverse(EdgeAt(polys, i, j))
      ensures recs'[k].poly1 == i && recs'[k].edge1 == j
    {
      NotYetMatched(polys, recs, k, i, j);
      if e != -1 {
        OneRecord(polys, recs, k, e);
      }
    }
    forall a: nat, b: nat | IsEdge(polys, a, b) && Before(a, b, i, j)
      ensures PlaceMatched(polys, recs', a, b)
    {
      assert PlaceMatched(polys, recs, a, b) && EdgeAt(polys, a, b) != EdgeAt(polys, i, j);
    }
  }

  /** An edge that does not descend has no record running against it. */
  lemma NothingAgainst(polys: seq<Poly>, recs: seq<EdgeRec>, i: nat, j: nat)
    requires IsEdge(polys, i, j) && RecsOk(polys, recs) && EdgeAt(polys, i, j).0 <= EdgeAt(polys, i, j).1
    ensures forall k :: 0 <= k < |recs| ==> recs[k].vert != Reverse(EdgeAt(polys, i, j))
  {
    forall k | 0 <= k < |recs|
      ensures recs[k].vert != Reverse(EdgeAt(polys, i, j))
    {
      assert RecOk(polys, recs[k]);
    }
  }

  method MatchEdges(polys: seq<Poly>, recs0: seq<EdgeRec>, first: seq<int>, next: seq<int>,
                    ghost lists: seq<seq<nat>>, ghost owner: seq<nat>)
    returns (recs: seq<EdgeRec>)
    requires RecsOk(polys, recs0) && Recorded(polys, recs0, |polys|, 0) && Hashed(recs0, first, next, lists, owner)
    requires forall k :: 0 <= k < |recs0| ==> !Matched(recs0[k])
    requires forall i :: 0 <= i < |polys| ==> forall j :: 0 <= j < |polys[i]| ==> polys[i][j] < |first|
    ensures RecsOk(polys, recs) && Recorded(polys, recs, |polys|, 0) && MatchedOnce(recs, |polys|, 0)
    ensures EdgesUnique(polys) ==> AllMatched(polys, recs, |polys|, 0)
  {
    hide RecOk, Shared, Matched, EdgesUnique, HasRec, PlaceMatched, RecsOk, Recorded;
    recs := recs0;
    for i := 0 to |polys|
      invariant RecsOk(polys, recs) && Recorded(polys, recs, |polys|, 0) && Hashed(recs, first, next, lists, owner)
      invariant MatchedOnce(recs, i, 0) && (EdgesUnique(polys) ==> AllMatched(polys, recs, i, 0))
    {
      var t := polys[i];
      for j := 0 to |t|
        invariant RecsOk(polys, recs) && Recorded(polys, recs, |polys|, 0) && Hashed(recs, first, next, lists, owner)
        invariant MatchedOnce(recs, i, j) && (EdgesUnique(polys) ==> AllMatched(polys, recs, i, j))
      {
        var v0 := t[j];
        var v1 := if j + 1 >= |t| then t[0] else t[j + 1];
        assert EdgeAt(polys, i, j) == (v0, v1);
        var e := -1;
        if v0 > v1 {
          e := FindUnmatched(recs, first, next, v0, v1, lists, owner);
        } else {
          NothingAgainst(polys, recs, i, j);
        }
        MatchKeeps(polys, recs, e, i, j);
        MatchKeepsOnce(recs, e, i, j);
        MatchKeepsRecorded(polys, recs, e, i, j);
        if EdgesUnique(polys) {
          MatchAll(polys, recs, e, i, j);
        }
        if e != -1 {
          recs := recs[e := recs[e].(poly1 := i, edge1 := j)];
        }
      }
    }
  }

  // ----- Storing adjacency -----

  /** What a matched record says about edge `(i, j)`: its neighbour is polygon `v`. */
  predicate Says(r: EdgeRec, i: nat, j: nat, v: int) {
    Matched(r) && ((r.poly0 == i && r.edge0 == j && r.poly1 == v) || (r.poly1 == i && r.edge1 == j && r.poly0 == v))
  }

  /** Two records never say something about the same edge, nor one record twice. */
  lemma SaysOnce(polys: seq<Poly>, recs: seq<EdgeRec>, k: nat, m: nat, i: nat, j: nat, v: int, u: int)
    requires RecsOk(polys, recs) && MatchedOnce(recs, |polys|, 0) && k < |recs| && m < |recs|
    requires Says(recs[k], i, j, v) && Says(recs[m], i, j, u)
    ensures k == m && v == u
  {
    assert RecOk(polys, recs[k]) && RecOk(polys, recs[m]);
  }

  /** The entry of edge `(i, j)` is what one of the first `n` records says, the null index if none says anything. */
  ghost predicate EntryOk(recs: seq<EdgeRec>, n: nat, i: nat, j: nat, v: int)
    requires n <= |recs|
  {
    && (forall k, u :: 0 <= k < n && Says(recs[k], i, j, u) ==> v == u)
    && (v != NULL ==> exists k :: 0 <= k < n && Says(recs[k], i, j, v))
  }

  ghost predicate Stored(polys: seq<Poly>, recs: seq<EdgeRec>, n: nat, adj: array2<int>)
    requires n <= |recs|
    reads adj
  {
    && adj.Length0 == |polys| && (forall i :: 0 <= i < |polys| ==> |polys[i]| <= adj.Length1)
    && forall i: nat, j: nat :: IsEdge(polys, i, j) ==> EntryOk(recs, n, i, j, adj[i, j])
  }

  /** The next record overwrites the two entries it is about and no other. */
  lemma EntryStep(polys: seq<Poly>, recs: seq<EdgeRec>, n: nat, i: nat, j: nat, v: int, v': int)
    requires RecsOk(polys, recs) && MatchedOnce(recs, |polys|, 0) && n < |recs| && EntryOk(recs, n, i, j, v)
    requires var e := recs[n];
      if Matched(e) && (e.poly1, e.edge1) == (i, j) then v' == e.poly0
      else if Matched(e) && (e.poly0, e.edge0) == (i, j) then v' == e.poly1
      else v' == v
    ensures EntryOk(recs, n + 1, i, j, v')
  {
    hide RecsOk, MatchedOnce;
    var e := recs[n];
    if Says(e, i, j, v') {
      forall k, u | 0 <= k < n + 1 && Says(recs[k], i, j, u)
        ensures v' == u
      {
        SaysOnce(polys, recs, k, n, i, j, u, v');
      }
    }
  }

  lemma NothingSaid(recs: seq<EdgeRec>, i: nat, j: nat)
    ensures EntryOk(recs, 0, i, j, NULL)
  {
  }

  method StoreAdjacency(polys: seq<Poly>, recs: seq<EdgeRec>, adj: array2<int>)
    requires RecsOk(polys, recs) && MatchedOnce(recs, |polys|, 0)
    requires adj.Length0 == |polys| && forall i :: 0 <= i < |polys| ==> |polys[i]| <= adj.Length1
    requires forall i: nat, j: nat :: IsEdge(polys, i, j) ==> adj[i, j] == NULL
    modifies adj
    ensures Stored(polys, recs, |recs|, adj)
  {
    hide EntryOk, EdgeAt;
    forall i: nat, j: nat | IsEdge(polys, i, j)
      ensures EntryOk(recs, 0, i, j, adj[i, j])
    {
      NothingSaid(recs, i, j);
    }
    for n := 0 to |recs|
      invariant Stored(polys, recs, n, adj)
    {
      label Round:
      var e := recs[n];
      assert RecOk(polys, e);
      if e.poly0 != e.poly1 {
        adj[e.poly0, e.edge0] := e.poly1;
        adj[e.poly1, e.edge1] := e.poly0;
      }
      forall i: nat, j: nat | IsEdge(polys, i, j)
        ensures EntryOk(recs, n + 1, i, j, adj[i, j])
      {
        EntryStep(polys, recs, n, i, j, old@Round(adj[i, j]), adj[i, j]);
      }
    }
  }

  /** Edge `(b, eb)` of another polygon runs against edge `(i, j)`. */
  predicate Against(polys: seq<Poly>, i: nat, j: nat, b: nat, eb: nat) {
    IsEdge(polys, i, j) && IsEdge(polys, b, eb) && b != i && EdgeAt(polys, b, eb) == Reverse(EdgeAt(polys, i, j))
  }

  /** A stored neighbour has the same edge the other way round and stores the first polygon there. */
  ghost predicate Mutual(polys: seq<Poly>, adj: array2<int>, i: nat, j: nat)
    requires adj.Length0 == |polys| && (forall k :: 0 <= k < |polys| ==> |polys[k]| <= adj.Length1)
    requires IsEdge(polys, i, j)
    reads adj
  {
    adj[i, j] != NULL ==> exists b: nat, eb: nat :: Against(polys, i, j, b, eb) && adj[i, j] == b && adj[b, eb] == i
  }

  lemma StoredMutual(polys: seq<Poly>, recs: seq<EdgeRec>, adj: array2<int>, i: nat, j: nat)
    requires RecsOk(polys, recs) && Stored(polys, recs, |recs|, adj) && IsEdge(polys, i, j)
    ensures Mutual(polys, adj, i, j)
  {
    if adj[i, j] != NULL {
      assert EntryOk(recs, |recs|, i, j, adj[i, j]);
      var k :| 0 <= k < |recs| && Says(recs[k], i, j, adj[i, j]);
      var r := recs[k];
      assert RecOk(polys, r);
      var (b, eb) := if (r.poly0, r.edge0) == (i, j) then (r.poly1, r.edge1) else (r.poly0, r.edge0);
      assert Says(r, b, eb, i) && EntryOk(recs, |recs|, b, eb, adj[b, eb]);
      assert Against(polys, i, j, b, eb);
    }
  }

  /** With unique edges, an edge that some other polygon has the other way round has that polygon as its neighbour. */
  lemma StoredComplete(polys: seq<Poly>, recs: seq<EdgeRec>, adj: array2<int>, i: nat, j: nat, b: nat, eb: nat)
    requires RecsOk(polys, recs) && Recorded(polys, recs, |polys|, 0) && Stored(polys, recs, |recs|, adj)
    requires EdgesUnique(polys) && AllMatched(polys, recs, |polys|, 0) && Against(polys, i, j, b, eb)
    ensures adj[i, j] == b
  {
    var e := EdgeAt(polys, i, j);
    if e.0 < e.1 {
      FoundRecord(polys, recs, i, j, b, eb);
    } else if e.1 < e.0 {
      FoundRecord(polys, recs, b, eb, i, j);
    }
    hide EdgeAt;
    assert EntryOk(recs, |recs|, i, j, adj[i, j]);
  }

  /** The record of an ascending edge says what runs against it. */
  lemma FoundRecord(polys: seq<Poly>, recs: seq<EdgeRec>, i: nat, j: nat, b: nat, eb: nat)
    requires RecsOk(polys, recs) && Recorded(polys, recs, |polys|, 0) && AllMatched(polys, recs, |polys|, 0)
    requires Against(polys, i, j, b, eb) && EdgeAt(polys, i, j).0 < EdgeAt(polys, i, j).1
    ensures exists k :: 0 <= k < |recs| && Says(recs[k], i, j, b) && Says(recs[k], b, eb, i)
  {
    assert HasRec(recs, i, j);
    var k :| 0 <= k < |recs| && recs[k].poly0 == i && recs[k].edge0 == j;
    assert RecOk(polys, recs[k]) && PlaceMatched(polys, recs, b, eb);
    assert recs[k].vert == Reverse(EdgeAt(polys, b, eb));
    assert Says(recs[k], i, j, b) && Says(recs[k], b, eb, i);
  }

  /** buildMeshAdjacency: stored neighbours are mutual; with unique edges, an edge has a neighbour exactly if another
      polygon has it the other way round. */
  method BuildMeshAdjacency(polys: seq<Poly>, nverts: nat, adj: array2<int>)
    requires forall i :: 0 <= i < |polys| ==> forall j :: 0 <= j < |polys[i]| ==> polys[i][j] < nverts
    requires adj.Length0 == |polys| && forall i :: 0 <= i < |polys| ==> |polys[i]| <= adj.Length1
    requires forall i: nat, j: nat :: IsEdge(polys, i, j) ==> adj[i, j] == NULL
    modifies adj
    ensures forall i: nat, j: nat :: IsEdge(polys, i, j) ==> Mutual(polys, adj, i, j)
    ensures EdgesUnique(polys) ==> forall i: nat, j: nat, b: nat, eb: nat ::
      Against(polys, i, j, b, eb) ==> adj[i, j] == b && adj[b, eb] == i
  {
    hide RecsOk, Recorded, MatchedOnce, AllMatched, EdgesUnique, Mutual, Stored, Hashed;
    var recs, first, next;
    ghost var lists, owner;
    recs, first, next, lists, owner := RecordEdges(polys, nverts);
    recs := MatchEdges(polys, recs, first, next, lists, owner);
    StoreAdjacency(polys, recs, adj);
    forall i: nat, j: nat | IsEdge(polys, i, j)
      ensures Mutual(polys, adj, i, j)
    {
      StoredMutual(polys, recs, adj, i, j);
    }
    if EdgesUnique(polys) {
      forall i: nat, j: nat, b: nat, eb: nat | Against(polys, i, j, b, eb)
        ensures adj[i, j] == b && adj[b, eb] == i
      {
        StoredComplete(polys, recs, adj, i, j, b, eb);
        StoredComplete(polys, recs, adj, b, eb, i, j);
      }
    }
  }
}
