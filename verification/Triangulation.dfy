/** Ear clipping: triangulate over an index array whose entries carry a removable flag. */
module Triangulation {
  import opened Basics
  import opened PolyGeometry

  /** An entry of the index array: a vertex, and whether its corner may be cut off. */
  datatype Entry = Entry(v: nat, removable: bool)

  function Vertices(s: seq<Entry>): (p: Poly)
    ensures |p| == |s| && forall i :: 0 <= i < |s| ==> p[i] == s[i].v
  {
    seq(|s|, i requires 0 <= i < |s| => s[i].v)
  }

  function Flags(s: seq<Entry>): (f: seq<bool>)
    ensures |f| == |s| && forall i :: 0 <= i < |s| ==> f[i] == s[i].removable
  {
    seq(|s|, i requires 0 <= i < |s| => s[i].removable)
  }

  function Prev(i: nat, n: nat): (j: nat)
    requires i < n
    ensures j < n && Next(j, n) == i
  {
    if i > 0 then i - 1 else n - 1
  }

  // ----- Diagonals -----

  predicate LeftOn(a: Point, b: Point, c: Point) {
    Area2(a, b, c) <= 0
  }

  predicate Collinear(a: Point, b: Point, c: Point) {
    Area2(a, b, c) == 0
  }

  /** The segments cross at a point inside both. */
  predicate IntersectProp(a: Point, b: Point, c: Point, d: Point) {
    && !Collinear(a, b, c) && !Collinear(a, b, d) && !Collinear(c, d, a) && !Collinear(c, d, b)
    && Left(a, b, c) != Left(a, b, d) && Left(c, d, a) != Left(c, d, b)
  }

  /** `c` is on the closed segment from `a` to `b`. */
  predicate Between(a: Point, b: Point, c: Point) {
    && Collinear(a, b, c)
    && if a.0 != b.0 then (a.0 <= c.0 <= b.0) || (b.0 <= c.0 <= a.0) else (a.1 <= c.1 <= b.1) || (b.1 <= c.1 <= a.1)
  }

  predicate Intersect(a: Point, b: Point, c: Point, d: Point) {
    IntersectProp(a, b, c, d) || Between(a, b, c) || Between(a, b, d) || Between(c, d, a) || Between(c, d, b)
  }

  /** The edge after `k` does not touch `i` or `j`, shares no end point with the diagonal, and meets it. */
  predicate Blocks(verts: seq<Point>, p: Poly, i: nat, j: nat, k: nat, loose: bool)
    requires Within(p, |verts|) && i < |p| && j < |p| && k < |p|
  {
    var k1 := Next(k, |p|);
    var d0, d1, p0, p1 := verts[p[i]], verts[p[j]], verts[p[k]], verts[p[k1]];
    && k != i && k1 != i && k != j && k1 != j && d0 != p0 && d1 != p0 && d0 != p1 && d1 != p1
    && if loose then IntersectProp(d0, d1, p0, p1) else Intersect(d0, d1, p0, p1)
  }

  predicate Diagonalie(verts: seq<Point>, p: Poly, i: nat, j: nat, loose: bool)
    requires Within(p, |verts|) && i < |p| && j < |p|
  {
    forall k :: 0 <= k < |p| ==> !Blocks(verts, p, i, j, k, loose)
  }

  predicate InCone(verts: seq<Point>, p: Poly, i: nat, j: nat, loose: bool)
    requires Within(p, |verts|) && i < |p| && j < |p|
  {
    var pi, pj, pi1, pin1 := verts[p[i]], verts[p[j]], verts[p[Next(i, |p|)]], verts[p[Prev(i, |p|)]];
    if LeftOn(pin1, pi, pi1) then
      if loose then LeftOn(pi, pj, pin1) && LeftOn(pj, pi, pi1) else Left(pi, pj, pin1) && Left(pj, pi, pi1)
    else !(LeftOn(pi, pj, pi1) && LeftOn(pj, pi, pin1))
  }

  predicate Diagonal(verts: seq<Point>, p: Poly, i: nat, j: nat, loose: bool)
    requires Within(p, |verts|) && i < |p| && j < |p|
  {
    InCone(verts, p, i, j, loose) && Diagonalie(verts, p, i, j, loose)
  }

  /** A proper diagonal is a loose one. */
  lemma ProperIsLoose(verts: seq<Point>, p: Poly, i: nat, j: nat)
    requires Within(p, |verts|) && i < |p| && j < |p| && Diagonal(verts, p, i, j, false)
    ensures Diagonal(verts, p, i, j, true)
  {
    forall k | 0 <= k < |p|
      ensures !Blocks(verts, p, i, j, k, true)
    {
      assert !Blocks(verts, p, i, j, k, false);
    }
  }

  /** Not even a loose diagonal cuts off a corner. */
  predicate Stuck(verts: seq<Point>, p: Poly)
    requires Within(p, |verts|)
  {
    forall i :: 0 <= i < |p| ==> !Diagonal(verts, p, i, Next(Next(i, |p|), |p|), true)
  }

  // ----- Triangles and what is left -----

  predicate Triangles(tris: seq<Poly>) {
    forall t :: 0 <= t < |tris| ==> |tris[t]| == 3
  }

  /** The triangles and the polygon left over make up `p0`: the same signed area, the same outline. */
  ghost predicate MakesUp(verts: seq<Point>, tris: seq<Poly>, left: Poly, p0: Poly) {
    && AllIndexed(verts, tris) && Triangles(tris) && Within(left, |verts|) && Within(p0, |verts|)
    && TotalArea(verts, tris) + Area(verts, left) == Area(verts, p0)
    && forall e :: Outline(tris + [left], e) == Outline([p0], e)
  }

  lemma MakesUpStart(verts: seq<Point>, p: Poly)
    requires Within(p, |verts|)
    ensures MakesUp(verts, [], p, p)
  {
    assert [] + [p] == [p];
  }

  lemma AllTimesSnoc2(tris: seq<Poly>, t: Poly, p: Poly, e: Edge)
    ensures AllTimes(tris + [p], e) == AllTimes(tris, e) + Times(p, e)
    ensures AllTimes(tris + [t] + [p], e) == AllTimes(tris, e) + Times(t, e) + Times(p, e)
  {
    hide AllTimes, Times;
    TimesSnoc(tris, p, e);
    TimesSnoc(tris, t, e);
    TimesSnoc(tris + [t], p, e);
  }

  /** Cutting the corner after `i` off. */
  lemma MakesUpCut(verts: seq<Point>, tris: seq<Poly>, p: Poly, p0: Poly, i: nat)
    requires MakesUp(verts, tris, p, p0) && |p| >= 4 && i < |p|
    ensures var j := Next(i, |p|);
      MakesUp(verts, tris + [[p[i], p[j], p[Next(j, |p|)]]], RemoveAt(p, j), p0)
  {
    var j := Next(i, |p|);
    var a, b, c, q := p[i], p[j], p[Next(j, |p|)], RemoveAt(p, j);
    CutEdges(verts, p, i);
    TriangleArea(verts, a, b, c);
    AreaSnoc(verts, tris, [a, b, c]);
    hide RemoveAt, Times, AllTimes, Area, TotalArea, Outline, One;
    forall e
      ensures Outline(tris + [[a, b, c]] + [q], e) == Outline([p0], e)
    {
      assert Outline(tris + [p], e) == Outline([p0], e);
      OutlineCut(tris, p, q, a, b, c, e);
    }
  }

  lemma OutlineCut(tris: seq<Poly>, p: Poly, q: Poly, a: nat, b: nat, c: nat, e: Edge)
    requires forall e :: Times(p, e) == Times(q, e) + One(e, (a, b)) + One(e, (b, c)) - One(e, (a, c))
    ensures Outline(tris + [[a, b, c]] + [q], e) == Outline(tris + [p], e)
  {
    ReversedOne(e, (a, c));
    hide Times, AllTimes, One;
    AllTimesSnoc2(tris, [a, b, c], q, e);
    AllTimesSnoc2(tris, [a, b, c], p, e);
    AllTimesSnoc2(tris, [a, b, c], q, Reverse(e));
    AllTimesSnoc2(tris, [a, b, c], p, Reverse(e));
    TriangleTimes(a, b, c, e);
    TriangleTimes(a, b, c, Reverse(e));
  }

  lemma ReversedOne(e: Edge, f: Edge)
    ensures One(Reverse(e), f) == One(e, Reverse(f)) && One(Reverse(e), Reverse(f)) == One(e, f)
  {
  }

  /** Three triangles' worth of corners left are the last triangle. */
  lemma MakesUpLast(verts: seq<Point>, tris: seq<Poly>, p: Poly, p0: Poly)
    requires MakesUp(verts, tris, p, p0) && |p| == 3
    ensures var all := tris + [[p[0], p[1], p[2]]];
      && AllIndexed(verts, all) && Triangles(all) && TotalArea(verts, all) == Area(verts, p0)
      && forall e :: Outline(all, e) == Outline([p0], e)
  {
    assert p == [p[0], p[1], p[2]];
    AreaSnoc(verts, tris, p);
  }

  // ----- The algorithm -----

  lemma Length2NotNegative(a: Point, b: Point)
    ensures Length2(a, b) >= 0
  {
    SquareNotNegative(b.0 - a.0);
    SquareNotNegative(b.1 - a.1);
  }

  lemma SquareNotNegative(x: int)
    ensures x * x >= 0
  {
  }

  /** How far the cut behind `i` would reach. */
  function CutLength(verts: seq<Point>, p: Poly, i: nat): int
    requires Within(p, |verts|) && i < |p|
  {
    Length2(verts[p[i]], verts[p[Next(Next(i, |p|), |p|)]])
  }

  /** What the second search minimises: one vertex farther than the cut it looks for. */
  function LooseLength(verts: seq<Point>, p: Poly, i: nat): int
    requires Within(p, |verts|) && i < |p|
  {
    Length2(verts[p[i]], verts[p[Next(Next(Next(i, |p|), |p|), |p|)]])
  }

  /** The two lengths are the same exactly if the start of the cut lies on the perpendicular bisector of the cut's
      end and the vertex after it. */
  lemma LooseLengthIff(verts: seq<Point>, p: Poly, i: nat)
    requires Within(p, |verts|) && i < |p|
    ensures
      var a, c := verts[p[i]], verts[p[Next(Next(i, |p|), |p|)]];
      var d := verts[p[Next(Next(Next(i, |p|), |p|), |p|)]];
      LooseLength(verts, p, i) == CutLength(verts, p, i) <==>
      (d.0 - c.0) * (d.0 + c.0 - 2 * a.0) + (d.1 - c.1) * (d.1 + c.1 - 2 * a.1) == 0
  {
    var a, c := verts[p[i]], verts[p[Next(Next(i, |p|), |p|)]];
    var d := verts[p[Next(Next(Next(i, |p|), |p|), |p|)]];
    DifferenceOfSquares(d.0, c.0, a.0);
    DifferenceOfSquares(d.1, c.1, a.1);
  }

  lemma DifferenceOfSquares(d: int, c: int, a: int)
    ensures (d - a) * (d - a) - (c - a) * (c - a) == (d - c) * (d + c - 2 * a)
  {
  }

  lemma FlagKeepsVertices(s: seq<Entry>, i: nat, flag: bool)
    requires i < |s|
    ensures Vertices(s[i := s[i].(removable := flag)]) == Vertices(s)
  {
  }

  /** Of the corners after the first `i` vertices, those that a proper diagonal cuts off are marked. */
  ghost predicate MarkedTo(verts: seq<Point>, s0: seq<Entry>, s: seq<Entry>, i: nat)
    requires Within(Vertices(s0), |verts|)
  {
    var n, p := |s0|, Vertices(s0);
    && |s| == n >= 3 && Vertices(s) == p
    && forall j :: 0 <= j < n ==>
      (s[j].removable <==>
        s0[j].removable || (Prev(j, n) < i && Diagonal(verts, p, Prev(j, n), Next(j, n), false)))
  }

  lemma MarkStart(verts: seq<Point>, s: seq<Entry>)
    requires |s| >= 3 && Within(Vertices(s), |verts|)
    ensures MarkedTo(verts, s, s, 0)
  {
    hide Diagonal;
  }

  lemma MarkedVertices(verts: seq<Point>, s0: seq<Entry>, s: seq<Entry>, i: nat)
    requires Within(Vertices(s0), |verts|) && MarkedTo(verts, s0, s, i)
    ensures |s| == |s0| && Vertices(s) == Vertices(s0)
  {
    hide Diagonal;
  }

  lemma MarkEnd(verts: seq<Point>, s0: seq<Entry>, s: seq<Entry>)
    requires Within(Vertices(s0), |verts|) && MarkedTo(verts, s0, s, |s0|)
    ensures |s| == |s0| && Vertices(s) == Vertices(s0)
    ensures forall j :: 0 <= j < |s| ==>
      (s[j].removable <==>
        s0[j].removable || Diagonal(verts, Vertices(s0), Prev(j, |s|), Next(j, |s|), false))
  {
    hide Diagonal;
  }

  lemma MarkStep(verts: seq<Point>, s0: seq<Entry>, s: seq<Entry>, i: nat)
    requires Within(Vertices(s0), |verts|) && MarkedTo(verts, s0, s, i) && i < |s0|
    ensures
      var n := |s0|;
      var i1 := Next(i, n);
      MarkedTo(verts, s0, if Diagonal(verts, Vertices(s0), i, Next(i1, n), false)
                          then s[i1 := s[i1].(removable := true)] else s, i + 1)
  {
    hide Diagonal, Vertices;
    FlagKeepsVertices(s, Next(i, |s|), true);
  }

  /** Mark the corners that a proper diagonal cuts off. */
  method MarkDiagonals(n: nat, verts: seq<Point>, indices: array<Entry>)
    requires 3 <= n <= indices.Length && Within(Vertices(indices[..n]), |verts|)
    modifies indices
    ensures Vertices(indices[..n]) == old(Vertices(indices[..n]))
    ensures var p := Vertices(indices[..n]);
      forall j :: 0 <= j < n ==>
        (indices[j].removable <==> old(indices[j].removable) || Diagonal(verts, p, Prev(j, n), Next(j, n), false))
  {
    hide Diagonal, Vertices, MarkedTo;
    ghost var s0 := indices[..n];
    MarkStart(verts, s0);
    for i := 0 to n
      invariant MarkedTo(verts, s0, indices[..n], i)
    {
      var i1 := Next(i, n);
      ghost var s := indices[..n];
      MarkedVertices(verts, s0, s, i);
      MarkStep(verts, s0, s, i);
      if Diagonal(verts, Vertices(indices[..n]), i, Next(i1, n), false) {
        indices[i1] := indices[i1].(removable := true);
        assert indices[..n] == s[i1 := s[i1].(removable := true)];
      }
    }
    MarkEnd(verts, s0, indices[..n]);
  }

  /** The first of two lengths is the shorter, or as short and found no later. */
  predicate Before(len: int, i: int, len': int, i': int) {
    len < len' || (len == len' && i <= i')
  }

  /** The first marked corner with the shortest cut; -1 if none is marked. */
  method FindMarked(n: nat, verts: seq<Point>, indices: array<Entry>) returns (mini: int)
    requires 3 <= n <= indices.Length && Within(Vertices(indices[..n]), |verts|)
    ensures -1 <= mini < n
    ensures mini == -1 <==> forall i :: 0 <= i < n ==> !indices[Next(i, n)].removable
    ensures var p := Vertices(indices[..n]);
      mini != -1 ==> indices[Next(mini, n)].removable && forall i :: 0 <= i < n && indices[Next(i, n)].removable ==>
        Before(CutLength(verts, p, mini), mini, CutLength(verts, p, i), i)
  {
    ghost var p := Vertices(indices[..n]);
    var minLen := -1;
    mini := -1;
    for i := 0 to n
      invariant -1 <= mini < i && (mini == -1 <==> minLen == -1)
      invariant mini == -1 <==> forall k :: 0 <= k < i ==> !indices[Next(k, n)].removable
      invariant mini != -1 ==> indices[Next(mini, n)].removable && minLen == CutLength(verts, p, mini) >= 0
      invariant mini != -1 ==> forall k :: 0 <= k < i && indices[Next(k, n)].removable ==>
        Before(minLen, mini, CutLength(verts, p, k), k)
    {
      var i1 := Next(i, n);
      if indices[i1].removable {
        var len := Length2(verts[indices[i].v], verts[indices[Next(i1, n)].v]);
        Length2NotNegative(verts[indices[i].v], verts[indices[Next(i1, n)].v]);
        if minLen < 0 || len < minLen {
          minLen, mini := len, i;
        }
      }
    }
  }

  /** Of the corners that a loose diagonal cuts off, the first with the least measured length; -1 if there is none. */
  method FindLoose(n: nat, verts: seq<Point>, indices: array<Entry>) returns (mini: int)
    requires 3 <= n <= indices.Length && Within(Vertices(indices[..n]), |verts|)
    ensures -1 <= mini < n
    ensures var p := Vertices(indices[..n]);
      mini == -1 <==> forall i :: 0 <= i < n ==> !Diagonal(verts, p, i, Next(Next(i, n), n), true)
    ensures var p := Vertices(indices[..n]);
      mini != -1 ==>
        && Diagonal(verts, p, mini, Next(Next(mini, n), n), true)
        && forall i :: 0 <= i < n && Diagonal(verts, p, i, Next(Next(i, n), n), true) ==>
          Before(LooseLength(verts, p, mini), mini, LooseLength(verts, p, i), i)
  {
    hide Diagonal;
    var p := Vertices(indices[..n]);
    var minLen := -1;
    mini := -1;
    for i := 0 to n
      invariant -1 <= mini < i && (mini == -1 <==> minLen == -1)
      invariant mini == -1 <==> forall k :: 0 <= k < i ==> !Diagonal(verts, p, k, Next(Next(k, n), n), true)
      invariant mini != -1 ==> Diagonal(verts, p, mini, Next(Next(mini, n), n), true)
      invariant mini != -1 ==> minLen == LooseLength(verts, p, mini) >= 0
      invariant mini != -1 ==> forall k :: 0 <= k < i && Diagonal(verts, p, k, Next(Next(k, n), n), true) ==>
        Before(minLen, mini, LooseLength(verts, p, k), k)
    {
      var i2 := Next(Next(i, n), n);
      if Diagonal(verts, p, i, i2, true) {
        var len := Length2(verts[indices[i].v], verts[indices[Next(i2, n)].v]);
        Length2NotNegative(verts[indices[i].v], verts[indices[Next(i2, n)].v]);
        if minLen < 0 || len < minLen {
          minLen, mini := len, i;
        }
      }
    }
  }

  /** The first marked corner with a shortest cut; if none is marked, of those that a loose diagonal cuts off the first
      with the least measured length. */
  ghost predicate CornerOk(verts: seq<Point>, p: Poly, marked: seq<bool>, mini: nat)
    requires Within(p, |verts|) && mini < |p| == |marked|
  {
    var n := |p|;
    if marked[Next(mini, n)]
    then forall i :: 0 <= i < n && marked[Next(i, n)] ==>
           Before(CutLength(verts, p, mini), mini, CutLength(verts, p, i), i)
    else
      && (forall i :: 0 <= i < n ==> !marked[Next(i, n)])
      && Diagonal(verts, p, mini, Next(Next(mini, n), n), true)
      && forall i :: 0 <= i < n && Diagonal(verts, p, i, Next(Next(i, n), n), true) ==>
        Before(LooseLength(verts, p, mini), mini, LooseLength(verts, p, i), i)
  }

  /** A polygon that touches itself. */
  predicate IsBent(verts: seq<Point>, p: Poly) {
    && verts == [(2, 2), (0, 0), (0, 2), (1, 1), (0, 1)] && |p| == 5 && forall i :: 0 <= i < 5 ==> p[i] == i
  }

  lemma BentProper(verts: seq<Point>, p: Poly, i: nat)
    requires IsBent(verts, p) && i < 5
    ensures !Diagonal(verts, p, i, Next(Next(i, 5), 5), false)
  {
  }

  lemma BentLoose(verts: seq<Point>, p: Poly, i: nat)
    requires IsBent(verts, p) && i < 5
    ensures Diagonal(verts, p, i, Next(Next(i, 5), 5), true) <==> i == 1 || i == 2
  {
    if i == 1 {
    } else if i == 2 {
    } else {
      assert !InCone(verts, p, i, Next(Next(i, 5), 5), true);
    }
  }

  /** No corner of it can be marked, and the loose pass takes corner 1, although the cut at corner 2 is shorter. */
  lemma LooseNotShortest(verts: seq<Point>, p: Poly, marked: seq<bool>, mini: nat)
    requires Within(p, |verts|) && IsBent(verts, p) && mini < |p| == |marked|
    requires CornerOk(verts, p, marked, mini) && forall i :: 0 <= i < |p| ==> !marked[i]
    ensures forall i :: 0 <= i < 5 ==> !Diagonal(verts, p, i, Next(Next(i, 5), 5), false)
    ensures mini == 1 && Diagonal(verts, p, 2, Next(Next(2, 5), 5), true)
    ensures CutLength(verts, p, 2) < CutLength(verts, p, mini)
  {
    hide Diagonal;
    forall i | 0 <= i < 5
      ensures !Diagonal(verts, p, i, Next(Next(i, 5), 5), false)
    {
      BentProper(verts, p, i);
    }
    BentLoose(verts, p, mini);
    BentLoose(verts, p, 1);
    BentLoose(verts, p, 2);
  }

  /** The corner to cut: a marked one if any, else one that a loose diagonal cuts off; -1 if there is neither. */
  method SelectCorner(n: nat, verts: seq<Point>, indices: array<Entry>) returns (mini: int)
    requires 3 <= n <= indices.Length && Within(Vertices(indices[..n]), |verts|)
    ensures -1 <= mini < n
    ensures mini != -1 ==> CornerOk(verts, Vertices(indices[..n]), Flags(indices[..n]), mini)
    ensures mini == -1 ==>
      Stuck(verts, Vertices(indices[..n])) && forall i :: 0 <= i < n ==> !indices[Next(i, n)].removable
  {
    mini := FindMarked(n, verts, indices);
    if mini == -1 {
      mini := FindLoose(n, verts, indices);
    }
  }

  /** Move the entries behind `i1` one place down. */
  method RemoveEntry(n: nat, indices: array<Entry>, i1: nat)
    requires i1 < n <= indices.Length
    modifies indices
    ensures indices[..n - 1] == RemoveAt(old(indices[..n]), i1)
  {
    for k := i1 to n - 1
      invariant forall m :: 0 <= m < indices.Length ==>
        indices[m] == if i1 <= m < k then old(indices[m + 1]) else old(indices[m])
    {
      indices[k] := indices[k + 1];
    }
  }

  /** Whether a proper diagonal cuts corner `k` off. */
  ghost predicate Cuttable(verts: seq<Point>, p: Poly, k: nat)
    requires Within(p, |verts|) && k < |p|
  {
    Diagonal(verts, p, Prev(k, |p|), Next(k, |p|), false)
  }

  /** Renew the flag of one corner: it may be cut off exactly if a proper diagonal does that now. */
  method UpdateFlag(n: nat, verts: seq<Point>, indices: array<Entry>, i: nat)
    requires 3 <= n <= indices.Length && i < n && Within(Vertices(indices[..n]), |verts|)
    modifies indices
    ensures Vertices(indices[..n]) == old(Vertices(indices[..n]))
    ensures indices[i].removable <==> Diagonal(verts, Vertices(indices[..n]), Prev(i, n), Next(i, n), false)
    ensures indices[..] == old(indices[..])[i := indices[i]]
  {
    var flag := Diagonal(verts, Vertices(indices[..n]), Prev(i, n), Next(i, n), false);
    indices[i] := indices[i].(removable := flag);
  }

  lemma VerticesRemove(verts: seq<Point>, s: seq<Entry>, i: nat)
    requires i < |s| && Within(Vertices(s), |verts|)
    ensures Vertices(RemoveAt(s, i)) == RemoveAt(Vertices(s), i) && Within(Vertices(RemoveAt(s, i)), |verts|)
  {
  }

  /** The place, among `n` corners, of the one behind a corner removed at `i1`. */
  function Behind(i1: nat, n: nat): (k: nat)
    requires 0 < n && i1 <= n
    ensures k < n
  {
    if i1 >= n then 0 else i1
  }

  /** Only the flag of corner `k` is renewed. */
  ghost function Renewed(verts: seq<Point>, s: seq<Entry>, k: nat): seq<Entry>
    requires Within(Vertices(s), |verts|) && k < |s|
  {
    s[k := Entry(s[k].v, Cuttable(verts, Vertices(s), k))]
  }

  lemma RenewedVertices(verts: seq<Point>, s: seq<Entry>, k: nat)
    requires Within(Vertices(s), |verts|) && k < |s|
    ensures |Renewed(verts, s, k)| == |s| && Vertices(Renewed(verts, s, k)) == Vertices(s)
  {
    hide Cuttable;
  }

  /** `s'` is `s` with the corner after `i` cut off and only the flags of the two corners beside it renewed. */
  ghost predicate CutTo(verts: seq<Point>, s: seq<Entry>, i: nat, s': seq<Entry>) {
    && |s| >= 4 && i < |s| && Within(Vertices(s), |verts|)
    && Vertices(s') == RemoveAt(Vertices(s), Next(i, |s|)) && Within(Vertices(s'), |verts|)
    && var rest, k := RemoveAt(s, Next(i, |s|)), Behind(Next(i, |s|), |s| - 1);
    && var next := Renewed(verts, rest, Prev(k, |rest|));
       s' == Renewed(verts, next, k)
  }

  /** Remove the corner after `i` and renew the flags of the two corners beside it; the others keep theirs. */
  method CutCorner(n: nat, verts: seq<Point>, indices: array<Entry>, i: nat)
    requires 4 <= n <= indices.Length && i < n && Within(Vertices(indices[..n]), |verts|)
    modifies indices
    ensures CutTo(verts, old(indices[..n]), i, indices[..n - 1])
  {
    hide Diagonal, RemoveAt;
    var i1 := Next(i, n);
    ghost var s := indices[..n];
    VerticesRemove(verts, s, i1);
    RemoveEntry(n, indices, i1);
    ghost var rest := indices[..n - 1];
    if i1 >= n - 1 {
      i1 := 0;
    }
    var i0 := Prev(i1, n - 1);
    UpdateFlag(n - 1, verts, indices, i0);
    ghost var next := indices[..n - 1];
    assert next == Renewed(verts, rest, i0);
    UpdateFlag(n - 1, verts, indices, i1);
    assert indices[..n - 1] == Renewed(verts, next, i1);
  }

  // ----- A whole run -----

  /** A corner: its vertex, the polygon in which its flag was last written, its place there, and whether the flag was
      on from the start. */
  datatype Corner = Corner(v: nat, seen: Poly, at: nat, given: bool)

  function CornerVertices(cs: seq<Corner>): (p: Poly)
    ensures |p| == |cs| && forall i :: 0 <= i < |cs| ==> p[i] == cs[i].v
  {
    seq(|cs|, i requires 0 <= i < |cs| => cs[i].v)
  }

  predicate CornerIn(verts: seq<Point>, c: Corner) {
    Within(c.seen, |verts|) && c.at < |c.seen| && c.seen[c.at] == c.v
  }

  predicate CornersIn(verts: seq<Point>, cs: seq<Corner>) {
    forall i :: 0 <= i < |cs| ==> CornerIn(verts, cs[i])
  }

  /** The corner was marked from the start, or a proper diagonal cut it off when its flag was last written. */
  ghost predicate Marked(verts: seq<Point>, c: Corner)
    requires CornerIn(verts, c)
  {
    c.given || Diagonal(verts, c.seen, Prev(c.at, |c.seen|), Next(c.at, |c.seen|), false)
  }

  ghost function Marks(verts: seq<Point>, cs: seq<Corner>): (marks: seq<bool>)
    requires CornersIn(verts, cs)
    ensures |marks| == |cs| && forall i :: 0 <= i < |cs| ==> marks[i] == Marked(verts, cs[i])
  {
    seq(|cs|, i requires 0 <= i < |cs| => Marked(verts, cs[i]))
  }

  /** All flags are first written in the polygon given. */
  function Corners(s: seq<Entry>): (cs: seq<Corner>)
    ensures |cs| == |s|
  {
    seq(|s|, i requires 0 <= i < |s| => Corner(s[i].v, Vertices(s), i, s[i].removable))
  }

  /** The flag of corner `k` is written again. */
  function Seen(cs: seq<Corner>, k: nat): seq<Corner>
    requires k < |cs|
  {
    cs[k := Corner(cs[k].v, CornerVertices(cs), k, false)]
  }

  /** The corner after `i` is cut off; only the flags of the two corners beside it are written again. */
  function After(cs: seq<Corner>, i: nat): (rest: seq<Corner>)
    requires |cs| >= 4 && i < |cs|
  {
    var left, k := RemoveAt(cs, Next(i, |cs|)), Behind(Next(i, |cs|), |cs| - 1);
    Seen(Seen(left, Prev(k, |left|)), k)
  }

  /** One cut: from the corners `a` triangle `t` is cut off and `b` is left. */
  ghost predicate Clips(verts: seq<Point>, a: seq<Corner>, t: Poly, b: seq<Corner>) {
    && |a| >= 4 && CornersIn(verts, a)
    && exists i :: 0 <= i < |a| && ClipsAt(verts, a, i, t, b)
  }

  ghost predicate ClipsAt(verts: seq<Point>, a: seq<Corner>, i: nat, t: Poly, b: seq<Corner>)
    requires |a| >= 4 && i < |a| && CornersIn(verts, a)
  {
    var i1 := Next(i, |a|);
    && Within(CornerVertices(a), |verts|) && CornerOk(verts, CornerVertices(a), Marks(verts, a), i)
    && t == [a[i].v, a[i1].v, a[Next(i1, |a|)].v] && b == After(a, i)
  }

  /** One cut after the other. */
  ghost predicate Clipping(verts: seq<Point>, states: seq<seq<Corner>>, tris: seq<Poly>) {
    && |states| == |tris| + 1
    && forall k :: 0 <= k < |tris| ==> Clips(verts, states[k], tris[k], states[k + 1])
  }

  /** The entries have the vertices and flags of these corners. */
  ghost predicate Tracks(verts: seq<Point>, s: seq<Entry>, cs: seq<Corner>) {
    CornersIn(verts, cs) && Vertices(s) == CornerVertices(cs) && Flags(s) == Marks(verts, cs)
  }

  lemma TracksStart(verts: seq<Point>, s0: seq<Entry>, s: seq<Entry>)
    requires |s| == |s0| && Within(Vertices(s0), |verts|) && Vertices(s) == Vertices(s0)
    requires forall j :: 0 <= j < |s| ==>
      (s[j].removable <==>
        s0[j].removable || Diagonal(verts, Vertices(s0), Prev(j, |s|), Next(j, |s|), false))
    ensures Tracks(verts, s, Corners(s0))
  {
    hide Diagonal;
    assert |Flags(s)| == |Marks(verts, Corners(s0))|;
  }

  lemma CornerVerticesRemove(verts: seq<Point>, cs: seq<Corner>, j: nat)
    requires j < |cs| && CornersIn(verts, cs) && Within(CornerVertices(cs), |verts|)
    ensures CornersIn(verts, RemoveAt(cs, j)) && CornerVertices(RemoveAt(cs, j)) == RemoveAt(CornerVertices(cs), j)
    ensures Within(RemoveAt(CornerVertices(cs), j), |verts|)
  {
    hide CornerIn;
    var rest := RemoveAt(cs, j);
    forall k | 0 <= k < |rest|
      ensures CornerIn(verts, rest[k])
    {
      assert rest[k] == cs[if k < j then k else k + 1];
    }
  }

  lemma TracksRemove(verts: seq<Point>, s: seq<Entry>, cs: seq<Corner>, j: nat)
    requires Tracks(verts, s, cs) && j < |s| && Within(Vertices(s), |verts|)
    ensures |cs| == |s| && Tracks(verts, RemoveAt(s, j), RemoveAt(cs, j)) && Within(Vertices(RemoveAt(s, j)), |verts|)
  {
    hide Marked, CornersIn;
    assert |CornerVertices(cs)| == |s|;
    CornerVerticesRemove(verts, cs, j);
    VerticesRemove(verts, s, j);
    var rest, left := RemoveAt(s, j), RemoveAt(cs, j);
    forall k | 0 <= k < |rest|
      ensures Flags(rest)[k] == Marks(verts, left)[k]
    {
      var m := if k < j then k else k + 1;
      assert rest[k] == s[m] && left[k] == cs[m];
      assert Flags(s)[m] == Marks(verts, cs)[m];
    }
  }

  lemma TracksRenewed(verts: seq<Point>, s: seq<Entry>, cs: seq<Corner>, k: nat)
    requires Tracks(verts, s, cs) && k < |s| && Within(Vertices(s), |verts|)
    ensures |cs| == |s| && Tracks(verts, Renewed(verts, s, k), Seen(cs, k))
  {
    hide Diagonal;
    assert |CornerVertices(cs)| == |s|;
    var s', cs' := Renewed(verts, s, k), Seen(cs, k);
    assert CornerIn(verts, cs'[k]);
    assert CornersIn(verts, cs');
    forall m | 0 <= m < |s'|
      ensures Flags(s')[m] == Marks(verts, cs')[m]
    {
      assert Flags(s)[m] == Marks(verts, cs)[m];
    }
  }

  lemma TracksCut(verts: seq<Point>, s: seq<Entry>, cs: seq<Corner>, i: nat, s': seq<Entry>)
    requires Tracks(verts, s, cs) && CutTo(verts, s, i, s')
    ensures |cs| == |s| && Tracks(verts, s', After(cs, i))
  {
    assert |CornerVertices(cs)| == |s|;
    var j, n := Next(i, |s|), |s| - 1;
    var k := Behind(j, n);
    assert |RemoveAt(s, j)| == n;
    hide Tracks, Renewed, Seen, RemoveAt;
    TracksRemove(verts, s, cs, j);
    TracksRenewed(verts, RemoveAt(s, j), RemoveAt(cs, j), Prev(k, n));
    RenewedVertices(verts, RemoveAt(s, j), Prev(k, n));
    TracksRenewed(verts, Renewed(verts, RemoveAt(s, j), Prev(k, n)), Seen(RemoveAt(cs, j), Prev(k, n)), k);
  }

  /** What holds between two cuts, with the entries `s` left over. */
  ghost predicate Underway(verts: seq<Point>, p0: Poly, states: seq<seq<Corner>>, tris: seq<Poly>, s: seq<Entry>) {
    && Within(Vertices(s), |verts|) && MakesUp(verts, tris, Vertices(s), p0)
    && Clipping(verts, states, tris) && Tracks(verts, s, states[|tris|])
  }

  /** One round of the algorithm. */
  lemma CutStep(verts: seq<Point>, p0: Poly, states: seq<seq<Corner>>, tris: seq<Poly>, s: seq<Entry>, i: nat,
                s': seq<Entry>)
    requires Underway(verts, p0, states, tris, s) && CutTo(verts, s, i, s')
    requires CornerOk(verts, Vertices(s), Flags(s), i)
    ensures |states| == |tris| + 1 && |states[|tris|]| == |s|
    ensures var t := [s[i].v, s[Next(i, |s|)].v, s[Next(Next(i, |s|), |s|)].v];
      Underway(verts, p0, states + [After(states[|tris|], i)], tris + [t], s')
  {
    hide MakesUp, Diagonal, CornerOk, CornersIn, Marks;
    var cs, p, i1 := states[|tris|], Vertices(s), Next(i, |s|);
    var t := [s[i].v, s[i1].v, s[Next(i1, |s|)].v];
    assert t == [p[i], p[i1], p[Next(i1, |s|)]];
    MakesUpCut(verts, tris, p, p0, i);
    TracksCut(verts, s, cs, i, s');
    hide After, CutTo;
    assert CornerVertices(cs) == p && ClipsAt(verts, cs, i, t, After(cs, i));
    ClippingSnoc(verts, states, tris, t, After(cs, i));
  }

  lemma Begin(verts: seq<Point>, s0: seq<Entry>, s: seq<Entry>)
    requires |s| == |s0| && Within(Vertices(s0), |verts|) && Vertices(s) == Vertices(s0)
    requires forall j :: 0 <= j < |s| ==>
      (s[j].removable <==>
        s0[j].removable || Diagonal(verts, Vertices(s0), Prev(j, |s|), Next(j, |s|), false))
    ensures Underway(verts, Vertices(s0), [Corners(s0)], [], s)
  {
    hide Diagonal;
    MakesUpStart(verts, Vertices(s0));
    TracksStart(verts, s0, s);
  }

  /** The three corners left are the last triangle. */
  lemma Finish(verts: seq<Point>, p0: Poly, states: seq<seq<Corner>>, tris: seq<Poly>, s: seq<Entry>)
    requires Underway(verts, p0, states, tris, s) && |s| == 3
    ensures var last := [s[0].v, s[1].v, s[2].v];
      var all := tris + [last];
      && AllIndexed(verts, all) && Triangles(all) && TotalArea(verts, all) == Area(verts, p0)
      && (forall e :: Outline(all, e) == Outline([p0], e))
      && Clipping(verts, states, all[..|tris|]) && last == CornerVertices(states[|tris|])
  {
    hide Clips, CornersIn, Marks, Area, TotalArea, Outline;
    MakesUpLast(verts, tris, Vertices(s), p0);
    assert [s[0].v, s[1].v, s[2].v] == Vertices(s);
    assert (tris + [Vertices(s)])[..|tris|] == tris;
  }

  /** triangulate: a positive result is n-2 triangles with the polygon's signed area and outline; otherwise minus the
      result many triangles were cut off, and with the more than three corners left over they have that area and
      outline. Each triangle but the last was cut at the corner due, judged by flags as they were last written. */
  method Triangulate(n0: nat, verts: seq<Point>, indices: array<Entry>)
    returns (ntris: int, tris: seq<Poly>, ghost states: seq<seq<Corner>>)
    requires 3 <= n0 == indices.Length && Within(Vertices(indices[..]), |verts|)
    modifies indices
    ensures var p0 := old(Vertices(indices[..]));
      ntris > 0 ==>
        && ntris == |tris| == n0 - 2 && Triangles(tris) && AllIndexed(verts, tris)
        && TotalArea(verts, tris) == Area(verts, p0)
        && forall e :: Outline(tris, e) == Outline([p0], e)
    ensures ntris <= 0 ==>
      && |tris| == -ntris < n0 - 3
      && MakesUp(verts, tris, Vertices(indices[..n0 - |tris|]), old(Vertices(indices[..])))
      && Stuck(verts, Vertices(indices[..n0 - |tris|]))
    ensures |states| > 0 && states[0] == Corners(old(indices[..]))
    ensures ntris > 0 ==> Clipping(verts, states, tris[..n0 - 3]) && tris[n0 - 3] == CornerVertices(states[n0 - 3])
    ensures ntris <= 0 ==> Clipping(verts, states, tris) && Tracks(verts, indices[..n0 - |tris|], states[|tris|])
    ensures ntris <= 0 ==> forall i :: 0 <= i < n0 - |tris| ==> !indices[i].removable
  {
    hide MakesUp, Diagonal, RemoveAt, Times, AllTimes, Outline, CutLength, LooseLength, TotalArea, Area, Triangles,
      Stuck, CornerOk, After, CutTo, Clipping, Tracks, Underway, AllIndexed, Corners;
    ghost var s0 := indices[..];
    ghost var p0 := Vertices(s0);
    assert indices[..] == indices[..n0];
    var n := n0;
    tris := [];
    states := [Corners(s0)];
    MarkDiagonals(n, verts, indices);
    Begin(verts, s0, indices[..n]);
    while n > 3
      invariant 3 <= n <= n0 && |tris| == n0 - n && |states| > 0 && states[0] == Corners(s0)
      invariant Within(Vertices(indices[..n]), |verts|) && Underway(verts, p0, states, tris, indices[..n])
    {
      var mini := SelectCorner(n, verts, indices);
      if mini == -1 {
        AllCorners(n, indices);
        Stopped(verts, p0, states, tris, indices[..n]);
        return -|tris|, tris, states;
      }
      var i1 := Next(mini, n);
      var i2 := Next(i1, n);
      ghost var s := indices[..n];
      var tri := [indices[mini].v, indices[i1].v, indices[i2].v];
      CutCorner(n, verts, indices, mini);
      CutStep(verts, p0, states, tris, s, mini, indices[..n - 1]);
      CutIsWithin(verts, s, mini, indices[..n - 1]);
      states := states + [After(states[|tris|], mini)];
      tris := tris + [tri];
      n := n - 1;
    }
    Finish(verts, p0, states, tris, indices[..n]);
    tris := tris + [[indices[0].v, indices[1].v, indices[2].v]];
    ntris := |tris|;
  }

  lemma CutIsWithin(verts: seq<Point>, s: seq<Entry>, i: nat, s': seq<Entry>)
    requires CutTo(verts, s, i, s')
    ensures Within(Vertices(s'), |verts|)
  {
  }

  lemma Stopped(verts: seq<Point>, p0: Poly, states: seq<seq<Corner>>, tris: seq<Poly>, s: seq<Entry>)
    requires Underway(verts, p0, states, tris, s)
    ensures MakesUp(verts, tris, Vertices(s), p0) && Clipping(verts, states, tris)
    ensures Tracks(verts, s, states[|tris|])
  {
  }

  lemma ClippingSnoc(verts: seq<Point>, states: seq<seq<Corner>>, tris: seq<Poly>, t: Poly, b: seq<Corner>)
    requires Clipping(verts, states, tris) && Clips(verts, states[|tris|], t, b)
    ensures Clipping(verts, states + [b], tris + [t])
  {
    hide Clips;
  }

  /** Every corner comes after some other. */
  lemma AllCorners(n: nat, indices: array<Entry>)
    requires 3 <= n <= indices.Length && forall i :: 0 <= i < n ==> !indices[Next(i, n)].removable
    ensures forall i :: 0 <= i < n ==> !indices[i].removable
  {
    forall i | 0 <= i < n
      ensures !indices[i].removable
    {
      assert Next(Prev(i, n), n) == i;
    }
  }

  // ----- An example -----

  /** A pentagon whose fourth corner may be cut off only until the third is gone; no flag is on. */
  predicate IsPentagon(verts: seq<Point>, s: seq<Entry>) {
    && verts == [(3, 3), (2, 0), (0, 0), (2, 1), (1, 1)]
    && |s| == 5 && forall i :: 0 <= i < 5 ==> s[i] == Entry(i, false)
  }

  lemma PentagonMarked(verts: seq<Point>, s: seq<Entry>, i: nat)
    requires IsPentagon(verts, s) && (i == 2 || i == 4)
    ensures Within(Vertices(s), |verts|) && Diagonal(verts, Vertices(s), Prev(i, 5), Next(i, 5), false)
  {
    var p := Vertices(s);
    assert InCone(verts, p, Prev(i, 5), Next(i, 5), false);
    hide InCone;
    forall k | 0 <= k < 5
      ensures !Blocks(verts, p, Prev(i, 5), Next(i, 5), k, false)
    {
    }
  }

  lemma PentagonUnmarked(verts: seq<Point>, s: seq<Entry>, i: nat)
    requires IsPentagon(verts, s) && (i == 0 || i == 1 || i == 3)
    ensures Within(Vertices(s), |verts|) && !Diagonal(verts, Vertices(s), Prev(i, 5), Next(i, 5), false)
  {
    hide Diagonalie;
  }

  /** Without the third corner. */
  lemma PentagonSecond(verts: seq<Point>, s: seq<Entry>, q: Poly, i: nat)
    requires IsPentagon(verts, s) && q == [0, 1, 3, 4] && 1 <= i <= 2
    ensures Within(q, |verts|) && (Diagonal(verts, q, Prev(i, 4), Next(i, 4), false) <==> i == 1)
  {
    if i == 1 {
      assert InCone(verts, q, 0, 2, false);
      forall k | 0 <= k < 4
        ensures !Blocks(verts, q, 0, 2, k, false)
      {
      }
    }
  }

  lemma PentagonFirstMarks(verts: seq<Point>, s: seq<Entry>)
    requires IsPentagon(verts, s)
    ensures CornersIn(verts, Corners(s)) && Marks(verts, Corners(s)) == [false, false, true, false, true]
  {
    hide Diagonal;
    PentagonUnmarked(verts, s, 0);
    PentagonUnmarked(verts, s, 1);
    PentagonMarked(verts, s, 2);
    PentagonUnmarked(verts, s, 3);
    PentagonMarked(verts, s, 4);
    assert CornersIn(verts, Corners(s));
    hide CornersIn;
  }

  lemma PentagonFirstCut(verts: seq<Point>, p: Poly, marked: seq<bool>, i: nat)
    requires verts == [(3, 3), (2, 0), (0, 0), (2, 1), (1, 1)] && p == [0, 1, 2, 3, 4] && i < 5
    requires marked == [false, false, true, false, true] && CornerOk(verts, p, marked, i)
    ensures i == 1
  {
    hide Diagonal;
    assert marked[Next(1, 5)] && CutLength(verts, p, 1) == 1 && CutLength(verts, p, 3) == 5;
  }

  /** After the first cut: the corners beside it are judged in the polygon left, the other two as before. */
  lemma PentagonRest(s: seq<Entry>, p: Poly, q: Poly)
    requires |s| == 5 && (forall i :: 0 <= i < 5 ==> s[i] == Entry(i, false)) && q == [0, 1, 3, 4] && p == Vertices(s)
    ensures After(Corners(s), 1) ==
      [Corner(0, p, 0, false), Corner(1, q, 1, false), Corner(3, q, 2, false), Corner(4, p, 4, false)]
  {
    var cs := Corners(s);
    var left := RemoveAt(cs, 2);
    assert left == [cs[0], cs[1], cs[3], cs[4]];
    assert CornerVertices(left) == q;
    var next := Seen(left, 1);
    assert CornerVertices(next) == q;
  }

  lemma PentagonSecondMarks(verts: seq<Point>, s: seq<Entry>, p: Poly, q: Poly, b: seq<Corner>)
    requires IsPentagon(verts, s) && q == [0, 1, 3, 4] && p == Vertices(s)
    requires b == [Corner(0, p, 0, false), Corner(1, q, 1, false), Corner(3, q, 2, false), Corner(4, p, 4, false)]
    ensures CornersIn(verts, b) && Marks(verts, b) == [false, true, false, true]
  {
    hide Diagonal;
    PentagonUnmarked(verts, s, 0);
    PentagonSecond(verts, s, q, 1);
    PentagonSecond(verts, s, q, 2);
    PentagonMarked(verts, s, 4);
    assert CornersIn(verts, b);
    hide CornersIn;
  }

  lemma PentagonSecondCut(verts: seq<Point>, q: Poly, marked: seq<bool>, i: nat)
    requires verts == [(3, 3), (2, 0), (0, 0), (2, 1), (1, 1)] && q == [0, 1, 3, 4] && i < 4
    requires marked == [false, true, false, true] && CornerOk(verts, q, marked, i)
    ensures i == 0
  {
    hide Diagonal;
    assert marked[Next(0, 4)] && CutLength(verts, q, 0) == 5 && CutLength(verts, q, 2) == 5;
  }

  lemma PentagonLast(p: Poly, q: Poly, b: seq<Corner>)
    requires b == [Corner(0, p, 0, false), Corner(1, q, 1, false), Corner(3, q, 2, false), Corner(4, p, 4, false)]
    ensures CornerVertices(After(b, 0)) == [0, 3, 4]
  {
    var left := RemoveAt(b, 1);
    assert left == [b[0], b[2], b[3]];
    assert CornerVertices(Seen(left, 0)) == CornerVertices(left);
  }

  /** Which corner a cut took. */
  lemma ClippedCorner(verts: seq<Point>, a: seq<Corner>, t: Poly, b: seq<Corner>, p: Poly) returns (i: nat)
    requires Clips(verts, a, t, b) && p == CornerVertices(a)
    ensures i < |a| && |a| >= 4 && CornersIn(verts, a) && Within(p, |verts|) && CornerOk(verts, p, Marks(verts, a), i)
    ensures t == [p[i], p[Next(i, |a|)], p[Next(Next(i, |a|), |a|)]] && b == After(a, i)
  {
    hide CornerOk, Marks, CornersIn, After;
    i :| 0 <= i < |a| && ClipsAt(verts, a, i, t, b);
  }

  lemma PentagonVertices(verts: seq<Point>, s: seq<Entry>)
    requires IsPentagon(verts, s)
    ensures CornerVertices(Corners(s)) == Vertices(s) == [0, 1, 2, 3, 4]
  {
    var p := Vertices(s);
    assert p[0] == 0 && p[1] == 1 && p[2] == 2 && p[3] == 3 && p[4] == 4;
    hide IsPentagon;
  }

  lemma PentagonStep1(verts: seq<Point>, s: seq<Entry>, p: Poly, q: Poly, t: Poly, b: seq<Corner>)
    requires IsPentagon(verts, s) && q == [0, 1, 3, 4] && p == Vertices(s) && Clips(verts, Corners(s), t, b)
    ensures t == [1, 2, 3]
    ensures b == [Corner(0, p, 0, false), Corner(1, q, 1, false), Corner(3, q, 2, false), Corner(4, p, 4, false)]
  {
    var cs := Corners(s);
    PentagonVertices(verts, s);
    PentagonFirstMarks(verts, s);
    PentagonRest(s, p, q);
    assert verts == [(3, 3), (2, 0), (0, 0), (2, 1), (1, 1)] && |cs| == 5;
    hide CornerOk, Marks, CornersIn, After, Corners, Vertices, CornerVertices, Clips, IsPentagon, Within;
    var i := ClippedCorner(verts, cs, t, b, p);
    PentagonFirstCut(verts, p, Marks(verts, cs), i);
  }

  lemma PentagonRestVertices(p: Poly, q: Poly, b: seq<Corner>)
    requires b == [Corner(0, p, 0, false), Corner(1, q, 1, false), Corner(3, q, 2, false), Corner(4, p, 4, false)]
    ensures CornerVertices(b) == [0, 1, 3, 4]
  {
    var r := CornerVertices(b);
    assert r[0] == 0 && r[1] == 1 && r[2] == 3 && r[3] == 4;
  }

  lemma PentagonStep2(verts: seq<Point>, s: seq<Entry>, p: Poly, q: Poly, b: seq<Corner>, t: Poly, c: seq<Corner>)
    requires IsPentagon(verts, s) && q == [0, 1, 3, 4] && p == Vertices(s) && Clips(verts, b, t, c)
    requires b == [Corner(0, p, 0, false), Corner(1, q, 1, false), Corner(3, q, 2, false), Corner(4, p, 4, false)]
    ensures t == [0, 1, 3] && CornerVertices(c) == [0, 3, 4]
  {
    PentagonRestVertices(p, q, b);
    PentagonSecondMarks(verts, s, p, q, b);
    PentagonLast(p, q, b);
    assert verts == [(3, 3), (2, 0), (0, 0), (2, 1), (1, 1)];
    hide CornerOk, Marks, CornersIn, After, Corners, Vertices, CornerVertices, Clips, IsPentagon, Within;
    var i := ClippedCorner(verts, b, t, c, q);
    PentagonSecondCut(verts, q, Marks(verts, b), i);
  }

  lemma ClipsFour(verts: seq<Point>, a: seq<Corner>, t: Poly, b: seq<Corner>)
    requires Clips(verts, a, t, b)
    ensures |a| >= 4
  {
  }

  lemma ClippingAt(verts: seq<Point>, states: seq<seq<Corner>>, tris: seq<Poly>, k: nat)
    requires Clipping(verts, states, tris) && k < |tris|
    ensures |states| == |tris| + 1 && Clips(verts, states[k], tris[k], states[k + 1])
  {
  }

  lemma PentagonAreas(verts: seq<Point>)
    requires verts == [(3, 3), (2, 0), (0, 0), (2, 1), (1, 1)]
    ensures Area2(verts[1], verts[2], verts[3]) == -2 && Area2(verts[0], verts[1], verts[3]) == -1
    ensures Area2(verts[0], verts[3], verts[4]) == -2
  {
  }

  /** However far the run has come: it cuts these triangles in this order, it does not stop before two are cut, and
      what is then left is the third. All three turn the same way. */
  lemma Pentagon(verts: seq<Point>, s: seq<Entry>, states: seq<seq<Corner>>, tris: seq<Poly>)
    requires IsPentagon(verts, s) && Clipping(verts, states, tris) && states[0] == Corners(s)
    ensures |tris| <= 2 && (|tris| > 0 ==> tris[0] == [1, 2, 3]) && (|tris| > 1 ==> tris[1] == [0, 1, 3])
    ensures |tris| < 2 ==> CornersIn(verts, states[|tris|]) && true in Marks(verts, states[|tris|])
    ensures |tris| == 2 ==> CornerVertices(states[2]) == [0, 3, 4]
    ensures Area2(verts[1], verts[2], verts[3]) == -2 && Area2(verts[0], verts[1], verts[3]) == -1
    ensures Area2(verts[0], verts[3], verts[4]) == -2
  {
    PentagonAreas(verts);
    PentagonFirstMarks(verts, s);
    var p, q: Poly := Vertices(s), [0, 1, 3, 4];
    assert |states| == |tris| + 1;
    hide Clips, Clipping, Marks, CornersIn, Corners, Area2, IsPentagon;
    if |tris| > 0 {
      ClippingAt(verts, states, tris, 0);
      PentagonStep1(verts, s, p, q, tris[0], states[1]);
      PentagonSecondMarks(verts, s, p, q, states[1]);
    }
    if |tris| > 1 {
      ClippingAt(verts, states, tris, 1);
      PentagonStep2(verts, s, p, q, states[1], tris[1], states[2]);
      assert |CornerVertices(states[2])| == 3;
    }
    if |tris| > 2 {
      ClippingAt(verts, states, tris, 2);
      ClipsFour(verts, states[2], tris[2], states[3]);
      assert false;
    }
  }
}
