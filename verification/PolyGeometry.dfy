/** Polygons over integer vertices: edges, signed areas, rotation. */
module PolyGeometry {
  import opened Basics

  /** The x and z coordinates of a vertex; heights play no role here. */
  type Point = (int, int)

  /** A polygon as indices into the vertices, in order. */
  type Poly = seq<nat>

  type Edge = (nat, nat)

  // ----- Edges and areas -----

  function Cross(a: Point, b: Point): int {
    a.0 * b.1 - b.0 * a.1
  }

  /** Twice the signed area of a triangle. */
  function Area2(a: Point, b: Point, c: Point): int {
    (b.0 - a.0) * (c.1 - a.1) - (c.0 - a.0) * (b.1 - a.1)
  }

  /** The square of a distance. */
  function Length2(a: Point, b: Point): int {
    var dx, dy := b.0 - a.0, b.1 - a.1;
    dx * dx + dy * dy
  }

  /** The squares add up exactly at a right angle, and along an axis the distance is the difference. */
  lemma Pythagoras(a: Point, b: Point, c: Point, d: int)
    ensures Length2(a, c) == Length2(a, b) + Length2(b, c) <==>
      (a.0 - b.0) * (c.0 - b.0) + (a.1 - b.1) * (c.1 - b.1) == 0
    ensures Length2(a, (a.0 + d, a.1)) == d * d == Length2(a, (a.0, a.1 + d))
  {
    SquareOfSum(a.0 - b.0, c.0 - b.0);
    SquareOfSum(a.1 - b.1, c.1 - b.1);
    assert c.0 - a.0 == (c.0 - b.0) - (a.0 - b.0) && c.1 - a.1 == (c.1 - b.1) - (a.1 - b.1);
  }

  lemma SquareOfSum(x: int, y: int)
    ensures (y - x) * (y - x) == x * x + y * y - 2 * (x * y) && (0 - x) * (0 - x) == x * x
  {
  }

  predicate Left(a: Point, b: Point, c: Point) {
    Area2(a, b, c) < 0
  }

  function Next(i: nat, n: nat): (j: nat)
    requires i < n
    ensures j < n
  {
    if i + 1 < n then i + 1 else 0
  }

  /** The directed edges of a polygon, in order. */
  function EdgesOf(p: Poly): (es: seq<Edge>)
    ensures |es| == |p|
  {
    seq(|p|, i requires 0 <= i < |p| => (p[i], p[Next(i, |p|)]))
  }

  predicate EdgesIndexed(verts: seq<Point>, es: seq<Edge>) {
    forall i :: 0 <= i < |es| ==> es[i].0 < |verts| && es[i].1 < |verts|
  }

  function SumCross(verts: seq<Point>, es: seq<Edge>): int
    requires EdgesIndexed(verts, es)
  {
    if es == [] then 0
    else Cross(verts[es[0].0], verts[es[0].1]) + SumCross(verts, es[1..])
  }

  /** The shoelace sum: twice the signed area. */
  function Area(verts: seq<Point>, p: Poly): int
    requires Within(p, |verts|)
  {
    SumCross(verts, EdgesOf(p))
  }

  function TotalArea(verts: seq<Point>, polys: seq<Poly>): int
    requires forall k :: 0 <= k < |polys| ==> Within(polys[k], |verts|)
  {
    if polys == [] then 0 else Area(verts, polys[0]) + TotalArea(verts, polys[1..])
  }

  /** How often a polygon has a directed edge. */
  function Times(p: Poly, e: Edge): nat {
    multiset(EdgesOf(p))[e]
  }

  /** How often the polygons have a directed edge. */
  function AllTimes(polys: seq<Poly>, e: Edge): nat {
    if polys == [] then 0 else Times(polys[0], e) + AllTimes(polys[1..], e)
  }

  function Reverse(e: Edge): Edge {
    (e.1, e.0)
  }

  /** The outline of polygons: how many more times an edge runs one way than the other. */
  function Outline(polys: seq<Poly>, e: Edge): int {
    AllTimes(polys, e) - AllTimes(polys, Reverse(e))
  }

  /** The sum over a triangle's edges is the signed area of the triangle. */
  lemma TriangleArea(verts: seq<Point>, a: nat, b: nat, c: nat)
    requires a < |verts| && b < |verts| && c < |verts|
    ensures Area(verts, [a, b, c]) == Area2(verts[a], verts[b], verts[c])
  {
    var es := EdgesOf([a, b, c]);
    assert es == [(a, b)] + ([(b, c)] + [(c, a)]);
    SumCrossOne(verts, (a, b));
    SumCrossOne(verts, (b, c));
    SumCrossOne(verts, (c, a));
    SumCrossAppend(verts, [(b, c)], [(c, a)]);
    SumCrossAppend(verts, [(a, b)], [(b, c)] + [(c, a)]);
    AreaAsCrosses(verts[a], verts[b], verts[c]);
  }

  lemma AreaAsCrosses(a: Point, b: Point, c: Point)
    ensures Area2(a, b, c) == Cross(a, b) + Cross(b, c) + Cross(c, a)
  {
  }

  lemma SumCrossOne(verts: seq<Point>, e: Edge)
    requires e.0 < |verts| && e.1 < |verts|
    ensures SumCross(verts, [e]) == Cross(verts[e.0], verts[e.1])
  {
  }

  lemma {:induction false} SumCrossAppend(verts: seq<Point>, a: seq<Edge>, b: seq<Edge>)
    requires EdgesIndexed(verts, a) && EdgesIndexed(verts, b)
    ensures EdgesIndexed(verts, a + b) && SumCross(verts, a + b) == SumCross(verts, a) + SumCross(verts, b)
  {
    if a == [] {
      assert a + b == b;
    } else {
      SumCrossAppend(verts, a[1..], b);
      assert (a + b)[1..] == a[1..] + b;
    }
  }

  // ----- Rotation -----

  lemma RotateEdges(p: Poly, k: nat)
    requires k <= |p|
    ensures EdgesOf(Rotate(p, k)) == Rotate(EdgesOf(p), k)
  {
  }

  lemma RotateSums(verts: seq<Point>, es: seq<Edge>, k: nat)
    requires k <= |es| && EdgesIndexed(verts, es)
    ensures multiset(Rotate(es, k)) == multiset(es)
    ensures EdgesIndexed(verts, Rotate(es, k)) && SumCross(verts, Rotate(es, k)) == SumCross(verts, es)
  {
    assert es == es[..k] + es[k..];
    SumCrossAppend(verts, es[..k], es[k..]);
    SumCrossAppend(verts, es[k..], es[..k]);
  }

  // ----- Several polygons -----

  predicate AllIndexed(verts: seq<Point>, polys: seq<Poly>) {
    forall k :: 0 <= k < |polys| ==> Within(polys[k], |verts|)
  }

  lemma {:induction false} AreaUpdate(verts: seq<Point>, polys: seq<Poly>, k: nat, p: Poly)
    requires k < |polys| && AllIndexed(verts, polys) && Within(p, |verts|)
    ensures TotalArea(verts, polys[k := p]) + Area(verts, polys[k]) == TotalArea(verts, polys) + Area(verts, p)
  {
    hide Area;
    if k > 0 {
      AreaUpdate(verts, polys[1..], k - 1, p);
      assert polys[k := p][1..] == polys[1..][k - 1 := p];
    } else {
      assert polys[k := p][1..] == polys[1..];
    }
  }

  lemma {:induction false} AreaSnoc(verts: seq<Point>, polys: seq<Poly>, p: Poly)
    requires AllIndexed(verts, polys) && Within(p, |verts|)
    ensures AllIndexed(verts, polys + [p])
    ensures TotalArea(verts, polys + [p]) == TotalArea(verts, polys) + Area(verts, p)
  {
    hide Area;
    if polys == [] {
      assert polys + [p] == [p];
    } else {
      AreaSnoc(verts, polys[1..], p);
      assert (polys + [p])[1..] == polys[1..] + [p];
    }
  }

  lemma {:induction false} TimesUpdate(polys: seq<Poly>, k: nat, p: Poly, e: Edge)
    requires k < |polys|
    ensures AllTimes(polys[k := p], e) + Times(polys[k], e) == AllTimes(polys, e) + Times(p, e)
  {
    hide Times;
    if k > 0 {
      TimesUpdate(polys[1..], k - 1, p, e);
      assert polys[k := p][1..] == polys[1..][k - 1 := p];
    } else {
      assert polys[k := p][1..] == polys[1..];
    }
  }

  lemma {:induction false} TimesSnoc(polys: seq<Poly>, p: Poly, e: Edge)
    ensures AllTimes(polys + [p], e) == AllTimes(polys, e) + Times(p, e)
  {
    hide Times;
    if polys == [] {
      assert polys + [p] == [p];
    } else {
      TimesSnoc(polys[1..], p, e);
      assert (polys + [p])[1..] == polys[1..] + [p];
    }
  }

  /** The edges of two different polygons are among all edges. */
  lemma TwoAmongAll(polys: seq<Poly>, j: nat, k: nat, e: Edge)
    requires j < |polys| && k < |polys| && j != k
    ensures Times(polys[j], e) + Times(polys[k], e) <= AllTimes(polys, e)
  {
    TimesUpdate(polys, j, [], e);
    TimesUpdate(polys[j := []], k, [], e);
  }

  // ----- Cutting off a corner -----

  function One(e: Edge, f: Edge): int {
    if e == f then 1 else 0
  }

  /** Cutting the corner after `i` off, seen from there. */
  lemma CutTurned(p: Poly, i: nat)
    requires |p| >= 4 && i < |p|
    ensures var j := Next(i, |p|);
      Rotate(RemoveAt(p, j), if j == 0 then |p| - 2 else i) == RemoveAt(Rotate(p, i), 1)
  {
    var n, j := |p|, Next(i, |p|);
    var q := RemoveAt(p, j);
    if j == 0 {
      assert Rotate(q, n - 2) == [p[n - 1]] + p[1..n - 1];
      assert Rotate(p, i) == [p[n - 1]] + p[..n - 1];
    } else {
      assert Rotate(q, i) == [p[i]] + p[j + 1..] + p[..i];
      assert Rotate(p, i) == [p[i], p[j]] + p[j + 1..] + p[..i];
    }
  }

  lemma CutSecondEdges(x: Poly) returns (rest: seq<Edge>)
    requires |x| >= 4
    ensures EdgesOf(x) == [(x[0], x[1])] + ([(x[1], x[2])] + rest)
    ensures EdgesOf(RemoveAt(x, 1)) == [(x[0], x[2])] + rest
  {
    rest := EdgesOf(x)[2..];
    assert EdgesOf(x)[1..] == [(x[1], x[2])] + rest;
    assert EdgesOf(RemoveAt(x, 1))[1..] == rest;
  }

  lemma RestIndexed(verts: seq<Point>, x: Poly, rest: seq<Edge>)
    requires EdgesIndexed(verts, EdgesOf(x)) && |x| >= 4
    requires EdgesOf(x) == [(x[0], x[1])] + ([(x[1], x[2])] + rest)
    ensures EdgesIndexed(verts, rest)
  {
    assert rest == EdgesOf(x)[2..];
    hide EdgesOf;
  }

  lemma CutSecondTimes(x: Poly, rest: seq<Edge>, e: Edge)
    requires |x| >= 4 && EdgesOf(x) == [(x[0], x[1])] + ([(x[1], x[2])] + rest)
    requires EdgesOf(RemoveAt(x, 1)) == [(x[0], x[2])] + rest
    ensures Times(x, e) == Times(RemoveAt(x, 1), e) + One(e, (x[0], x[1])) + One(e, (x[1], x[2])) - One(e, (x[0], x[2]))
  {
    hide EdgesOf, RemoveAt, One;
    CutTimes((x[0], x[1]), (x[1], x[2]), (x[0], x[2]), rest, e);
  }

  lemma CutSecond(verts: seq<Point>, x: Poly)
    requires |x| >= 4 && Within(x, |verts|)
    ensures var y := RemoveAt(x, 1);
      && Within(y, |verts|)
      && Area(verts, x) == Area(verts, y) + Area2(verts[x[0]], verts[x[1]], verts[x[2]])
      && forall e :: Times(x, e) == Times(y, e) + One(e, (x[0], x[1])) + One(e, (x[1], x[2])) - One(e, (x[0], x[2]))
  {
    var y := RemoveAt(x, 1);
    assert EdgesIndexed(verts, EdgesOf(x));
    assert Within(y, |verts|);
    hide EdgesOf, RemoveAt, Area2, EdgesIndexed, SumCross, One, Times;
    var rest := CutSecondEdges(x);
    RestIndexed(verts, x, rest);
    CutSums(verts, x[0], x[1], x[2], rest);
    forall e
      ensures Times(x, e) == Times(y, e) + One(e, (x[0], x[1])) + One(e, (x[1], x[2])) - One(e, (x[0], x[2]))
    {
      CutSecondTimes(x, rest, e);
    }
  }

  lemma TimesCons(x: Edge, rest: seq<Edge>, e: Edge)
    ensures multiset([x] + rest)[e] == One(e, x) + multiset(rest)[e]
  {
  }

  lemma CutTimes(ab: Edge, bc: Edge, ac: Edge, rest: seq<Edge>, e: Edge)
    ensures multiset([ab] + ([bc] + rest))[e] == multiset([ac] + rest)[e] + One(e, ab) + One(e, bc) - One(e, ac)
  {
    hide One;
    TimesCons(ab, [bc] + rest, e);
    TimesCons(bc, rest, e);
    TimesCons(ac, rest, e);
  }

  lemma RotateKeeps(verts: seq<Point>, p: Poly, k: nat)
    requires k <= |p| && Within(p, |verts|)
    ensures Within(Rotate(p, k), |verts|) && Area(verts, Rotate(p, k)) == Area(verts, p)
    ensures forall e :: Times(Rotate(p, k), e) == Times(p, e)
  {
    RotateEdges(p, k);
    assert EdgesIndexed(verts, EdgesOf(p));
    RotateSums(verts, EdgesOf(p), k);
  }

  /** Cutting the corner after `i` off a polygon takes away a triangle's area and puts one edge in place of two. */
  lemma CutEdges(verts: seq<Point>, p: Poly, i: nat)
    requires |p| >= 4 && i < |p| && Within(p, |verts|)
    ensures var j := Next(i, |p|); var k := Next(j, |p|);
      var q := RemoveAt(p, j);
      && Within(q, |verts|)
      && Area(verts, p) == Area(verts, q) + Area2(verts[p[i]], verts[p[j]], verts[p[k]])
      && forall e :: Times(p, e) == Times(q, e) + One(e, (p[i], p[j])) + One(e, (p[j], p[k])) - One(e, (p[i], p[k]))
  {
    var j := Next(i, |p|);
    var q := RemoveAt(p, j);
    var x := Rotate(p, i);
    assert x[0] == p[i] && x[1] == p[j] && x[2] == p[Next(j, |p|)];
    CutTurned(p, i);
    RotateKeeps(verts, p, i);
    RotateKeeps(verts, q, if j == 0 then |p| - 2 else i);
    hide Rotate, EdgesOf, RemoveAt, Area2, Area, Times;
    CutSecond(verts, x);
  }

  lemma CutSums(verts: seq<Point>, a: nat, b: nat, c: nat, rest: seq<Edge>)
    requires a < |verts| && b < |verts| && c < |verts| && EdgesIndexed(verts, rest)
    ensures EdgesIndexed(verts, [(a, b)] + ([(b, c)] + rest)) && EdgesIndexed(verts, [(a, c)] + rest)
    ensures SumCross(verts, [(a, b)] + ([(b, c)] + rest)) ==
      SumCross(verts, [(a, c)] + rest) + Area2(verts[a], verts[b], verts[c])
  {
    SumCrossAppend(verts, [(a, b)], [(b, c)] + rest);
    SumCrossAppend(verts, [(b, c)], rest);
    SumCrossAppend(verts, [(a, c)], rest);
    SumCrossOne(verts, (a, b));
    SumCrossOne(verts, (b, c));
    SumCrossOne(verts, (a, c));
    AreaAsCrosses(verts[a], verts[b], verts[c]);
  }

  lemma TriangleTimes(a: nat, b: nat, c: nat, e: Edge)
    ensures Times([a, b, c], e) == One(e, (a, b)) + One(e, (b, c)) + One(e, (c, a))
  {
    var ab, bc, ca := (a, b), (b, c), (c, a);
    assert EdgesOf([a, b, c]) == [ab] + ([bc] + ([ca] + []));
    hide EdgesOf, One;
    TimesCons(ab, [bc] + ([ca] + []), e);
    TimesCons(bc, [ca] + [], e);
    TimesCons(ca, [], e);
  }
}
