/** Greedy merging of convex polygons along shared edges. */
module PolyMerge {
  import opened Basics
  import opened PolyGeometry

  // ----- Convexity -----

  /** The corner of `p` at the vertex after `i` turns strictly left. */
  predicate CornerOk(verts: seq<Point>, p: Poly, i: nat)
    requires Within(p, |verts|) && i < |p|
  {
    var j := Next(i, |p|);
    Left(verts[p[i]], verts[p[j]], verts[p[Next(j, |p|)]])
  }

  predicate Convex(verts: seq<Point>, p: Poly) {
    Within(p, |verts|) && forall i :: 0 <= i < |p| ==> CornerOk(verts, p, i)
  }

  lemma RotateConvex(verts: seq<Point>, p: Poly, k: nat)
    requires k <= |p| && Convex(verts, p)
    ensures Convex(verts, Rotate(p, k))
  {
    var r := Rotate(p, k);
    forall i | 0 <= i < |r|
      ensures CornerOk(verts, r, i)
    {
      var i' := if i + k < |p| then i + k else i + k - |p|;
      assert CornerOk(verts, p, i');
    }
  }

  // ----- Joining two polygons at an edge -----

  /** `a` ends where `b` starts and the other way round: the last edge of one is the reverse of that of the other. */
  predicate Facing(a: Poly, b: Poly) {
    |a| >= 3 && |b| >= 3 && a[0] == b[|b| - 1] && b[0] == a[|a| - 1]
  }

  function Join(a: Poly, b: Poly): Poly
    requires Facing(a, b)
  {
    a[..|a| - 1] + b[..|b| - 1]
  }

  /** The joined polygon has the edges of both but for the shared one. */
  lemma JoinEdges(a: Poly, b: Poly)
    requires Facing(a, b)
    ensures EdgesOf(Join(a, b)) == EdgesOf(a)[..|a| - 1] + EdgesOf(b)[..|b| - 1]
    ensures EdgesOf(a) == EdgesOf(a)[..|a| - 1] + [(b[0], a[0])]
    ensures EdgesOf(b) == EdgesOf(b)[..|b| - 1] + [(a[0], b[0])]
  {
  }

  lemma JoinArea(verts: seq<Point>, a: Poly, b: Poly)
    requires Facing(a, b) && Within(a, |verts|) && Within(b, |verts|)
    ensures Within(Join(a, b), |verts|) && Area(verts, Join(a, b)) == Area(verts, a) + Area(verts, b)
    ensures forall e :: Times(Join(a, b), e) ==
                        Times(a, e) + Times(b, e) - One(e, (a[0], b[0])) - One(e, (b[0], a[0]))
  {
    JoinEdges(a, b);
    var ea, eb := EdgesOf(a)[..|a| - 1], EdgesOf(b)[..|b| - 1];
    SumCrossAppend(verts, ea, eb);
    SumCrossAppend(verts, ea, [(b[0], a[0])]);
    SumCrossAppend(verts, eb, [(a[0], b[0])]);
  }

  /** Convex exactly if the two new corners turn left. */
  lemma JoinConvex(verts: seq<Point>, a: Poly, b: Poly)
    requires Facing(a, b) && Convex(verts, a) && Convex(verts, b)
    ensures Within(Join(a, b), |verts|)
    ensures Convex(verts, Join(a, b)) <==>
      Left(verts[a[|a| - 2]], verts[b[0]], verts[b[1]]) && Left(verts[b[|b| - 2]], verts[a[0]], verts[a[1]])
  {
    var m := Join(a, b);
    assert CornerOk(verts, m, |a| - 2) <==> Left(verts[a[|a| - 2]], verts[b[0]], verts[b[1]]);
    assert CornerOk(verts, m, |m| - 1) <==> Left(verts[b[|b| - 2]], verts[a[0]], verts[a[1]]);
    forall i | 0 <= i < |m| && i != |a| - 2 && i != |m| - 1
      ensures CornerOk(verts, m, i)
    {
      if i < |a| - 2 {
        assert CornerOk(verts, a, i);
      } else if i > |a| - 2 && i < |m| - 1 {
        assert CornerOk(verts, b, i - (|a| - 1));
      }
    }
  }

  // ----- What getPolyMergeValue computes -----

  function Undirected(e: Edge): Edge {
    if e.0 > e.1 then (e.1, e.0) else e
  }

  /** Without their directions edges are the same exactly if they are the same or run opposite ways. */
  lemma UndirectedIff(e: Edge, f: Edge)
    ensures Undirected(e) == Undirected(f) <==> e == f || e == Reverse(f)
  {
  }

  predicate Shares(a: Poly, b: Poly, i: nat, j: nat)
    requires i < |a| && j < |b|
  {
    EdgesOf(a)[i] == EdgesOf(b)[j] || EdgesOf(a)[i] == Reverse(EdgesOf(b)[j])
  }

  /** The edges found: the last of `a` that `b` shares, with the first of `b` that is the same. */
  predicate Found(a: Poly, b: Poly, ea: nat, eb: nat) {
    && ea < |a| && eb < |b| && Shares(a, b, ea, eb)
    && (forall j :: 0 <= j < eb ==> !Shares(a, b, ea, j))
    && forall i, j :: ea < i < |a| && 0 <= j < |b| ==> !Shares(a, b, i, j)
  }

  predicate NoneShared(a: Poly, b: Poly) {
    forall i, j :: 0 <= i < |a| && 0 <= j < |b| ==> !Shares(a, b, i, j)
  }

  function EdgeLength2(verts: seq<Point>, e: Edge): int
    requires e.0 < |verts| && e.1 < |verts|
  {
    Length2(verts[e.1], verts[e.0])
  }

  /** `p` turned so that edge `e` comes last. */
  function TurnTo(p: Poly, e: nat): (r: Poly)
    requires e < |p|
    ensures |r| == |p|
  {
    Rotate(p, e + 1)
  }

  /** Both corners that joining would make turn left. */
  predicate CornersLeft(verts: seq<Point>, a: Poly, b: Poly, ea: nat, eb: nat)
    requires Within(a, |verts|) && Within(b, |verts|) && |a| >= 3 && |b| >= 3 && ea < |a| && eb < |b|
  {
    && Left(verts[a[Ring(|a|, ea + |a| - 1)]], verts[a[ea]], verts[b[Ring(|b|, eb + 2)]])
    && Left(verts[b[Ring(|b|, eb + |b| - 1)]], verts[b[eb]], verts[a[Ring(|a|, ea + 2)]])
  }

  /** `v` is the merge value of `a` and `b`. */
  ghost predicate MergeValueIs(verts: seq<Point>, a: Poly, b: Poly, nvp: nat, v: int, ea: int, eb: int)
    requires Within(a, |verts|) && Within(b, |verts|) && |a| >= 3 && |b| >= 3
  {
    if |a| + |b| - 2 > nvp || NoneShared(a, b) then v == -1
    else
      && ea >= 0 && eb >= 0 && Found(a, b, ea, eb)
      && v == if CornersLeft(verts, a, b, ea, eb) then EdgeLength2(verts, EdgesOf(a)[ea]) else -1
  }

  /** There is only one merge value, and only one place for it. */
  lemma MergeValueUnique(verts: seq<Point>, a: Poly, b: Poly, nvp: nat, v: int, ea: int, eb: int, v': int, ea': int,
                         eb': int)
    requires Within(a, |verts|) && Within(b, |verts|) && |a| >= 3 && |b| >= 3
    requires MergeValueIs(verts, a, b, nvp, v, ea, eb) && MergeValueIs(verts, a, b, nvp, v', ea', eb')
    ensures v == v' && (v > 0 ==> ea == ea' && eb == eb')
  {
  }

  /** Joining two polygons along the edge found, the last that they share, running opposite ways: it has a merge value
      if and only if the result is no bigger than `nvp` and strictly convex. */
  lemma MergeableIff(verts: seq<Point>, a: Poly, b: Poly, nvp: nat, v: int, ea: nat, eb: nat)
    requires Convex(verts, a) && Convex(verts, b) && |a| >= 3 && |b| >= 3 && Found(a, b, ea, eb)
    requires EdgesOf(b)[eb] == Reverse(EdgesOf(a)[ea]) && MergeValueIs(verts, a, b, nvp, v, ea, eb)
    ensures Facing(TurnTo(a, ea), TurnTo(b, eb))
    ensures v > 0 <==> |a| + |b| - 2 <= nvp && Convex(verts, Join(TurnTo(a, ea), TurnTo(b, eb)))
  {
    hide Left, CornersLeft, CornerOk, Rotate, Join, Undirected;
    var x, y := TurnTo(a, ea), TurnTo(b, eb);
    RotateConvex(verts, a, ea + 1);
    RotateConvex(verts, b, eb + 1);
    JoinConvex(verts, x, y);
    CornersTurned(verts, a, b, ea, eb);
    EdgeHasLength(verts, a, ea);
  }

  lemma EdgeHasLength(verts: seq<Point>, a: Poly, e: nat)
    requires Convex(verts, a) && e < |a|
    ensures EdgeLength2(verts, EdgesOf(a)[e]) > 0
  {
    assert CornerOk(verts, a, e);
    LengthPositive(verts[a[e]], verts[a[Next(e, |a|)]], verts[a[Next(Next(e, |a|), |a|)]]);
  }

  lemma LengthPositive(a: Point, b: Point, c: Point)
    requires Left(a, b, c)
    ensures (a.0 - b.0) * (a.0 - b.0) + (a.1 - b.1) * (a.1 - b.1) > 0
  {
    assert a == b ==> Area2(a, b, c) == 0;
    SquarePositive(a.0 - b.0);
    SquarePositive(a.1 - b.1);
  }

  lemma SquarePositive(x: int)
    ensures x * x >= 0 && (x != 0 ==> x * x > 0)
  {
  }

  lemma CornersTurned(verts: seq<Point>, a: Poly, b: Poly, ea: nat, eb: nat)
    requires Within(a, |verts|) && Within(b, |verts|) && |a| >= 3 && |b| >= 3 && ea < |a| && eb < |b|
    requires EdgesOf(b)[eb] == Reverse(EdgesOf(a)[ea])
    ensures var x, y := TurnTo(a, ea), TurnTo(b, eb);
      && Facing(x, y) && Within(x, |verts|) && Within(y, |verts|)
      && (CornersLeft(verts, a, b, ea, eb) <==>
           Left(verts[x[|x| - 2]], verts[y[0]], verts[y[1]]) && Left(verts[y[|y| - 2]], verts[x[0]], verts[x[1]]))
  {
    var x, y := TurnTo(a, ea), TurnTo(b, eb);
    hide Left;
    assert x[|x| - 2] == a[Ring(|a|, ea + |a| - 1)] && y[|y| - 2] == b[Ring(|b|, eb + |b| - 1)];
    assert y[1] == b[Ring(|b|, eb + 2)] && x[1] == a[Ring(|a|, ea + 2)];
  }

  // ----- The polygons of one contour -----

  /** Strictly convex polygons of at most `nvp` vertices, no directed edge twice. */
  ghost predicate Mergeable(verts: seq<Point>, polys: seq<Poly>, nvp: nat) {
    && (forall k :: 0 <= k < |polys| ==> 3 <= |polys[k]| <= nvp && Convex(verts, polys[k]))
    && forall e :: AllTimes(polys, e) <= 1
  }

  /** Replace polygon `j` by `m` and polygon `k` by the last one, and drop that. */
  function Replace(polys: seq<Poly>, j: nat, k: nat, m: Poly): seq<Poly>
    requires j < k < |polys|
  {
    polys[j := m][k := polys[|polys| - 1]][..|polys| - 1]
  }

  lemma ReplaceArea(verts: seq<Point>, polys: seq<Poly>, j: nat, k: nat, m: Poly)
    requires j < k < |polys| && AllIndexed(verts, polys) && Within(m, |verts|)
    ensures AllIndexed(verts, Replace(polys, j, k, m))
    ensures TotalArea(verts, Replace(polys, j, k, m)) ==
      TotalArea(verts, polys) - Area(verts, polys[j]) - Area(verts, polys[k]) + Area(verts, m)
  {
    hide Area, TotalArea, Within;
    var n := |polys| - 1;
    var last, one := polys[n], polys[j := m];
    var two := one[k := last];
    AreaUpdate(verts, polys, j, m);
    AreaUpdate(verts, one, k, last);
    AreaSnoc(verts, two[..n], two[n]);
    assert two == two[..n] + [two[n]];
  }

  lemma ReplaceTimes(polys: seq<Poly>, j: nat, k: nat, m: Poly, e: Edge)
    requires j < k < |polys|
    ensures AllTimes(Replace(polys, j, k, m), e) ==
      AllTimes(polys, e) - Times(polys[j], e) - Times(polys[k], e) + Times(m, e)
  {
    hide Times, AllTimes;
    var n := |polys| - 1;
    var last, one := polys[n], polys[j := m];
    var two := one[k := last];
    TimesUpdate(polys, j, m, e);
    TimesUpdate(one, k, last, e);
    TimesSnoc(two[..n], two[n], e);
    assert two == two[..n] + [two[n]];
  }

  lemma EdgeCounts(p: Poly, i: nat)
    requires i < |p|
    ensures Times(p, EdgesOf(p)[i]) >= 1
  {
    assert EdgesOf(p)[i] in EdgesOf(p);
  }

  /** With directed edges unique, an edge that two polygons share runs opposite ways in them. */
  lemma SharedRunsOpposite(verts: seq<Point>, polys: seq<Poly>, nvp: nat, j: nat, k: nat, ea: nat, eb: nat)
    requires Mergeable(verts, polys, nvp) && j < |polys| && k < |polys| && j != k
    requires ea < |polys[j]| && eb < |polys[k]| && Shares(polys[j], polys[k], ea, eb)
    ensures EdgesOf(polys[k])[eb] == Reverse(EdgesOf(polys[j])[ea])
  {
    var e := EdgesOf(polys[j])[ea];
    EdgeCounts(polys[j], ea);
    EdgeCounts(polys[k], eb);
    TwoAmongAll(polys, j, k, e);
    assert AllTimes(polys, e) <= 1;
  }

  /** The polygon that mergePolyVerts makes. */
  function Merged(a: Poly, b: Poly, ea: nat, eb: nat): Poly
    requires ea < |a| && eb < |b|
  {
    TurnTo(a, ea)[..|a| - 1] + TurnTo(b, eb)[..|b| - 1]
  }

  lemma TurnedEnds(a: Poly, b: Poly, ea: nat, eb: nat)
    requires ea < |a| && eb < |b| && EdgesOf(b)[eb] == Reverse(EdgesOf(a)[ea])
    ensures TurnTo(a, ea)[0] == a[Next(ea, |a|)] && TurnTo(b, eb)[0] == a[ea]
    ensures EdgesOf(a)[ea] == (a[ea], a[Next(ea, |a|)])
  {
  }

  /** What the merged polygon has of the two. */
  lemma MergedFacts(verts: seq<Point>, a: Poly, b: Poly, nvp: nat, v: int, ea: nat, eb: nat)
    requires Convex(verts, a) && Convex(verts, b) && |a| >= 3 && |b| >= 3 && v > 0
    requires MergeValueIs(verts, a, b, nvp, v, ea, eb) && EdgesOf(b)[eb] == Reverse(EdgesOf(a)[ea])
    ensures ea < |a| && eb < |b|
    ensures var m, e := Merged(a, b, ea, eb), EdgesOf(a)[ea];
      && Convex(verts, m) && 3 <= |m| <= nvp && Area(verts, m) == Area(verts, a) + Area(verts, b)
      && forall f :: Times(m, f) == Times(a, f) + Times(b, f) - One(f, e) - One(f, Reverse(e))
  {
    hide Area, Times, CornerOk, Rotate, EdgesOf, CornersLeft, Shares;
    MergeableIff(verts, a, b, nvp, v, ea, eb);
    var x, y := TurnTo(a, ea), TurnTo(b, eb);
    assert Join(x, y) == Merged(a, b, ea, eb);
    TurnedEnds(a, b, ea, eb);
    hide MergeValueIs, Join;
    JoinArea(verts, x, y);
    RotateKeeps(verts, a, ea + 1);
    RotateKeeps(verts, b, eb + 1);
  }

  /** One merge keeps the area, the convexity and the uniqueness of edges; just the shared edge and its reverse go. */
  lemma MergeStep(verts: seq<Point>, polys: seq<Poly>, nvp: nat, j: nat, k: nat, v: int, ea: nat, eb: nat)
    requires Mergeable(verts, polys, nvp) && j < k < |polys| && v > 0
    requires MergeValueIs(verts, polys[j], polys[k], nvp, v, ea, eb)
    ensures ea < |polys[j]| && eb < |polys[k]|
    ensures var polys' := Replace(polys, j, k, Merged(polys[j], polys[k], ea, eb));
      var e := EdgesOf(polys[j])[ea];
      && Mergeable(verts, polys', nvp) && TotalArea(verts, polys') == TotalArea(verts, polys)
      && forall f :: AllTimes(polys', f) == AllTimes(polys, f) - One(f, e) - One(f, Reverse(e))
  {
    hide CornerOk, Area, Times, TotalArea, AllTimes, Merged, MergeValueIs, EdgesOf, Found, Shares, Replace, Reverse;
    var a, b := polys[j], polys[k];
    PositiveIsFound(verts, a, b, nvp, v, ea, eb);
    SharedRunsOpposite(verts, polys, nvp, j, k, ea, eb);
    MergedFacts(verts, a, b, nvp, v, ea, eb);
    ReplaceIs(polys, j, k, Merged(a, b, ea, eb));
    var m := Merged(a, b, ea, eb);
    ReplaceArea(verts, polys, j, k, m);
    ReplaceAllTimes(polys, j, k, m, EdgesOf(a)[ea]);
  }

  lemma PositiveIsFound(verts: seq<Point>, a: Poly, b: Poly, nvp: nat, v: int, ea: nat, eb: nat)
    requires Within(a, |verts|) && Within(b, |verts|) && |a| >= 3 && |b| >= 3
    requires MergeValueIs(verts, a, b, nvp, v, ea, eb) && v > 0
    ensures Found(a, b, ea, eb) && ea < |a| && eb < |b| && Shares(a, b, ea, eb)
  {
  }

  lemma ReplaceIs(polys: seq<Poly>, j: nat, k: nat, m: Poly)
    requires j < k < |polys|
    ensures var r := Replace(polys, j, k, m);
      |r| == |polys| - 1 && forall i :: 0 <= i < |r| ==> r[i] == m || r[i] in polys
  {
  }

  lemma ReplaceAllTimes(polys: seq<Poly>, j: nat, k: nat, m: Poly, e: Edge)
    requires j < k < |polys|
    requires forall f :: Times(m, f) == Times(polys[j], f) + Times(polys[k], f) - One(f, e) - One(f, Reverse(e))
    ensures forall f :: AllTimes(Replace(polys, j, k, m), f) == AllTimes(polys, f) - One(f, e) - One(f, Reverse(e))
  {
    hide Times, AllTimes, Replace;
    forall f
      ensures AllTimes(Replace(polys, j, k, m), f) == AllTimes(polys, f) - One(f, e) - One(f, Reverse(e))
    {
      ReplaceTimes(polys, j, k, m, f);
    }
  }

  /** Joining `a` and `b` at the edge they are found to share would give a convex polygon of at most `nvp` vertices. */
  predicate CanJoin(verts: seq<Point>, a: Poly, b: Poly, nvp: nat, ea: nat, eb: nat) {
    ea < |a| && eb < |b| && |a| + |b| - 2 <= nvp && Convex(verts, Merged(a, b, ea, eb))
  }

  /** No pair has a merge value above `best`. */
  ghost predicate NoneAbove(verts: seq<Point>, polys: seq<Poly>, nvp: nat, best: int, j: nat, k: nat)
    requires forall i :: 0 <= i < |polys| ==> 3 <= |polys[i]| && Within(polys[i], |verts|)
    requires j < |polys| && k < |polys|
  {
    forall v, ea, eb :: MergeValueIs(verts, polys[j], polys[k], nvp, v, ea, eb) ==> v <= best
  }

  lemma ValueOfFound(verts: seq<Point>, a: Poly, b: Poly, nvp: nat, ea: nat, eb: nat) returns (v: int)
    requires Within(a, |verts|) && Within(b, |verts|) && |a| >= 3 && |b| >= 3 && Found(a, b, ea, eb)
    ensures MergeValueIs(verts, a, b, nvp, v, ea, eb)
  {
    hide Left, EdgeLength2;
    v := if |a| + |b| - 2 <= nvp && CornersLeft(verts, a, b, ea, eb) then EdgeLength2(verts, EdgesOf(a)[ea]) else -1;
  }

  /** When no pair has a positive merge value, no pair can be joined. */
  lemma NoneCanJoin(verts: seq<Point>, polys: seq<Poly>, nvp: nat, j: nat, k: nat, ea: nat, eb: nat)
    requires Mergeable(verts, polys, nvp) && j < k < |polys| && NoneAbove(verts, polys, nvp, 0, j, k)
    requires Found(polys[j], polys[k], ea, eb)
    ensures !CanJoin(verts, polys[j], polys[k], nvp, ea, eb)
  {
    var a, b := polys[j], polys[k];
    assert ea < |a| && eb < |b| && Shares(a, b, ea, eb);
    SharedRunsOpposite(verts, polys, nvp, j, k, ea, eb);
    assert Convex(verts, a) && Convex(verts, b) && |a| >= 3 && |b| >= 3;
    hide Found, MergeValueIs, Convex, EdgesOf, Shares, Rotate;
    var v := ValueOfFound(verts, a, b, nvp, ea, eb);
    MergeableIff(verts, a, b, nvp, v, ea, eb);
    assert Join(TurnTo(a, ea), TurnTo(b, eb)) == Merged(a, b, ea, eb);
  }

  // ----- The operations -----

  /** The search for a shared edge: the last edge of `pa` that `pb` has, -1 if there is none. */
  method FindShared(pa: Poly, pb: Poly) returns (ea: int, eb: int)
    ensures ea == -1 ==> NoneShared(pa, pb)
    ensures ea != -1 ==> ea >= 0 && eb >= 0 && Found(pa, pb, ea, eb)
  {
    hide Undirected, Reverse;
    ea, eb := -1, -1;
    for i := 0 to |pa|
      invariant ea == -1 ==> forall i', j' :: 0 <= i' < i && 0 <= j' < |pb| ==> !Shares(pa, pb, i', j')
      invariant ea != -1 ==> 0 <= ea < i && 0 <= eb < |pb| && Shares(pa, pb, ea, eb)
      invariant ea != -1 ==> forall j' :: 0 <= j' < eb ==> !Shares(pa, pb, ea, j')
      invariant ea != -1 ==> forall i', j' :: ea < i' < i && 0 <= j' < |pb| ==> !Shares(pa, pb, i', j')
    {
      var va := Undirected((pa[i], pa[Ring(|pa|, i + 1)]));
      assert va == Undirected(EdgesOf(pa)[i]);
      var j := 0;
      while j < |pb| && va != Undirected((pb[j], pb[Ring(|pb|, j + 1)]))
        invariant j <= |pb|
        invariant forall j' :: 0 <= j' < j ==> !Shares(pa, pb, i, j')
      {
        assert EdgesOf(pb)[j] == (pb[j], pb[Ring(|pb|, j + 1)]);
        UndirectedIff(EdgesOf(pa)[i], EdgesOf(pb)[j]);
        j := j + 1;
      }
      if j < |pb| {
        assert EdgesOf(pb)[j] == (pb[j], pb[Ring(|pb|, j + 1)]);
        UndirectedIff(EdgesOf(pa)[i], EdgesOf(pb)[j]);
        ea, eb := i, j;
      }
    }
  }

  method GetPolyMergeValue(verts: seq<Point>, pa: Poly, pb: Poly, nvp: nat) returns (v: int, ea: int, eb: int)
    requires Within(pa, |verts|) && Within(pb, |verts|) && |pa| >= 3 && |pb| >= 3
    ensures MergeValueIs(verts, pa, pb, nvp, v, ea, eb) && (v > 0 ==> ea >= 0 && eb >= 0)
  {
    hide Left, Shares;
    if |pa| + |pb| - 2 > nvp {
      return -1, -1, -1;
    }
    ea, eb := FindShared(pa, pb);
    if ea == -1 || eb == -1 {
      return -1, ea, eb;
    }
    if !Left(verts[pa[Ring(|pa|, ea + |pa| - 1)]], verts[pa[ea]], verts[pb[Ring(|pb|, eb + 2)]]) {
      return -1, ea, eb;
    }
    if !Left(verts[pb[Ring(|pb|, eb + |pb| - 1)]], verts[pb[eb]], verts[pa[Ring(|pa|, ea + 2)]]) {
      return -1, ea, eb;
    }
    v := EdgeLength2(verts, (pa[ea], pa[Ring(|pa|, ea + 1)]));
    assert EdgesOf(pa)[ea] == (pa[ea], pa[Ring(|pa|, ea + 1)]);
  }

  method MergePolyVerts(pa: Poly, pb: Poly, ea: nat, eb: nat) returns (tmp: Poly)
    requires ea < |pa| && eb < |pb|
    ensures tmp == Merged(pa, pb, ea, eb)
  {
    tmp := [];
    for i := 0 to |pa| - 1
      invariant tmp == TurnTo(pa, ea)[..i]
    {
      tmp := tmp + [pa[Ring(|pa|, ea + 1 + i)]];
    }
    for i := 0 to |pb| - 1
      invariant tmp == TurnTo(pa, ea)[..|pa| - 1] + TurnTo(pb, eb)[..i]
    {
      tmp := tmp + [pb[Ring(|pb|, eb + 1 + i)]];
    }
  }

  /** One round: the first pair with the largest merge value, if that is positive. */
  method FindBest(verts: seq<Point>, polys: seq<Poly>, nvp: nat)
    returns (best: int, pa: nat, pb: nat, ea: nat, eb: nat)
    requires forall i :: 0 <= i < |polys| ==> 3 <= |polys[i]| && Within(polys[i], |verts|)
    ensures best >= 0
    ensures best > 0 ==> pa < pb < |polys| && MergeValueIs(verts, polys[pa], polys[pb], nvp, best, ea, eb)
    ensures forall j, k :: 0 <= j < k < |polys| ==> NoneAbove(verts, polys, nvp, best, j, k)
  {
    hide MergeValueIs, NoneAbove, Within;
    best, pa, pb, ea, eb := 0, 0, 0, 0, 0;
    for j := 0 to |polys|
      invariant best >= 0
      invariant best > 0 ==> pa < pb < |polys| && MergeValueIs(verts, polys[pa], polys[pb], nvp, best, ea, eb)
      invariant forall j', k :: 0 <= j' < j && j' < k < |polys| ==> NoneAbove(verts, polys, nvp, best, j', k)
    {
      for k := j + 1 to |polys|
        invariant best >= 0
        invariant best > 0 ==> pa < pb < |polys| && MergeValueIs(verts, polys[pa], polys[pb], nvp, best, ea, eb)
        invariant forall j', k' :: 0 <= j' < j && j' < k' < |polys| ==> NoneAbove(verts, polys, nvp, best, j', k')
        invariant forall k' :: j < k' < k ==> NoneAbove(verts, polys, nvp, best, j, k')
      {
        var v, a, b := GetPolyMergeValue(verts, polys[j], polys[k], nvp);
        if v > best {
          Raise(verts, polys, nvp, best, v);
          best, pa, pb, ea, eb := v, j, k, a, b;
        }
        OnlyValue(verts, polys, nvp, best, j, k, v, a, b);
      }
    }
  }

  lemma Raise(verts: seq<Point>, polys: seq<Poly>, nvp: nat, best: int, more: int)
    requires forall i :: 0 <= i < |polys| ==> 3 <= |polys[i]| && Within(polys[i], |verts|)
    requires best <= more
    ensures forall j, k :: 0 <= j < |polys| && 0 <= k < |polys| && NoneAbove(verts, polys, nvp, best, j, k) ==>
      NoneAbove(verts, polys, nvp, more, j, k)
  {
    hide MergeValueIs;
  }

  lemma OnlyValue(verts: seq<Point>, polys: seq<Poly>, nvp: nat, best: int, j: nat, k: nat, v: int, ea: int, eb: int)
    requires forall i :: 0 <= i < |polys| ==> 3 <= |polys[i]| && Within(polys[i], |verts|)
    requires j < |polys| && k < |polys| && MergeValueIs(verts, polys[j], polys[k], nvp, v, ea, eb) && v <= best
    ensures NoneAbove(verts, polys, nvp, best, j, k)
  {
    forall v', ea', eb' | MergeValueIs(verts, polys[j], polys[k], nvp, v', ea', eb')
      ensures v' <= best
    {
      MergeValueUnique(verts, polys[j], polys[k], nvp, v, ea, eb, v', ea', eb');
    }
  }

  /** The merge loop: area and outline stay, polygons stay strictly convex with at most `nvp` vertices, no directed edge
      comes twice, and in the end no two polygons can be joined any more. */
  method MergePolygons(verts: seq<Point>, polys0: seq<Poly>, nvp: nat) returns (polys: seq<Poly>)
    requires Mergeable(verts, polys0, nvp)
    ensures Mergeable(verts, polys, nvp) && TotalArea(verts, polys) == TotalArea(verts, polys0)
    ensures forall e :: Outline(polys, e) == Outline(polys0, e) && AllTimes(polys, e) <= AllTimes(polys0, e)
    ensures nvp > 3 ==> forall j, k, ea, eb :: 0 <= j < k < |polys| && Found(polys[j], polys[k], ea, eb) ==>
      !CanJoin(verts, polys[j], polys[k], nvp, ea, eb)
  {
    hide MergeValueIs, NoneAbove, AllTimes, TotalArea, Merged, CornerOk, CanJoin, Found, EdgesOf;
    polys := polys0;
    if nvp > 3 {
      var done := false;
      while !done
        invariant Mergeable(verts, polys, nvp) && TotalArea(verts, polys) == TotalArea(verts, polys0)
        invariant forall e :: Outline(polys, e) == Outline(polys0, e) && AllTimes(polys, e) <= AllTimes(polys0, e)
        invariant done ==> forall j, k :: 0 <= j < k < |polys| ==> NoneAbove(verts, polys, nvp, 0, j, k)
        decreases |polys| + if done then 0 else 1
      {
        var best, pa, pb, ea, eb := FindBest(verts, polys, nvp);
        if best > 0 {
          MergeStep(verts, polys, nvp, pa, pb, best, ea, eb);
          var m := MergePolyVerts(polys[pa], polys[pb], ea, eb);
          var last := |polys| - 1;
          ghost var before := polys;
          polys := polys[pa := m];
          if pb != last {
            polys := polys[pb := polys[last]];
          }
          polys := polys[..last];
          assert polys == Replace(before, pa, pb, m);
        } else {
          done := true;
        }
      }
      forall j, k, ea, eb | 0 <= j < k < |polys| && Found(polys[j], polys[k], ea, eb)
        ensures !CanJoin(verts, polys[j], polys[k], nvp, ea, eb)
      {
        NoneCanJoin(verts, polys, nvp, j, k, ea, eb);
      }
    }
  }
}
