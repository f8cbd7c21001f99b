/** simplifyContour: fewer vertices for a traced contour, chosen in the buffer `poly` and then packed in place. */
module Contours {
  import opened Basics
  import opened ContourModel

  function Pick(v: seq<Vertex>, q: seq<nat>): (r: seq<Vertex>)
    requires Within(q, |v|)
    ensures |r| == |q| && forall k :: 0 <= k < |q| ==> r[k] == v[q[k]]
  {
    seq(|q|, k requires 0 <= k < |q| => v[q[k]])
  }

  /** Only the ends of an arc can be the same index. */
  lemma ArcEnds(n: nat, a: nat, b: nat, k: nat)
    requires a < n && b < n && k <= Span(n, a, b)
    ensures var s := Arc(n, a, b);
            (k > 0 && s[k] == b ==> k == Span(n, a, b)) && (k < Span(n, a, b) && s[k] == a ==> k == 0)
  {
  }

  /** The search has found what is at place `m` of the arc, or nothing. */
  predicate Found(v: seq<Vertex>, arc: seq<nat>, m: int, maxi: int, maxd: real)
    requires Within(arc, |v|) && |arc| >= 2 && -1 <= m < |arc|
  {
    if m == -1 then maxi == -1 && maxd == 0.0
    else maxi == arc[m] && maxd == Deviation(v, arc[0], arc[|arc| - 1], arc[m])
  }

  /** The place of what is farthest of the vertices up to place `k`, in the direction of the search. */
  function SoFar(v: seq<Vertex>, arc: seq<nat>, up: bool, k: nat): (m: int)
    requires Within(arc, |v|) && |arc| >= 2 && if up then 1 <= k < |arc| else k < |arc| - 1
    ensures -1 <= m < |arc|
  {
    if up then FarUp(Deviations(v, arc), k) else FarDown(Deviations(v, arc), k + 1)
  }

  lemma FarStart(v: seq<Vertex>, arc: seq<nat>, up: bool)
    requires Within(arc, |v|) && |arc| >= 2
    ensures SoFar(v, arc, up, if up then 1 else |arc| - 2) == -1 && Found(v, arc, -1, -1, 0.0)
  {
  }

  lemma FarStep(v: seq<Vertex>, arc: seq<nat>, up: bool, k: nat, maxi: int, maxd: real)
    requires Within(arc, |v|) && |arc| >= 2 && 0 < k < |arc| - 1
    requires Found(v, arc, SoFar(v, arc, up, k), maxi, maxd)
    ensures
      var d := Deviation(v, arc[0], arc[|arc| - 1], arc[k]);
      var m := SoFar(v, arc, up, if up then k + 1 else k - 1);
      if d > maxd then Found(v, arc, m, arc[k], d) else Found(v, arc, m, maxi, maxd)
  {
    var d := Deviations(v, arc);
    hide FarUp, FarDown, Deviation;
    if up {
      FarUpStep(d, k);
    } else {
      FarDownStep(d, k);
    }
  }

  lemma FarEnd(v: seq<Vertex>, arc: seq<nat>, up: bool)
    requires Within(arc, |v|) && |arc| >= 2 && up == Before(v[arc[0]], v[arc[|arc| - 1]])
    ensures Farthest(v, arc) == SoFar(v, arc, up, if up then |arc| - 1 else 0)
  {
  }

  /** One step along the contour, forwards or backwards. */
  lemma NextIndex(n: nat, a: nat, b: nat, k: nat)
    requires a < n && b < n && k <= Span(n, a, b)
    ensures var s := Arc(n, a, b);
            && (k < Span(n, a, b) ==> (s[k] + 1) % n == s[k + 1])
            && (k > 0 ==> (s[k] + (n - 1)) % n == s[k - 1])
  {
    var s := Arc(n, a, b);
    ModIsRing(n, s[k] + 1);
    ModIsRing(n, s[k] + (n - 1));
  }

  class TempContour {
    const verts: array<Vertex>
    const poly: array<nat>
    var nverts: nat
    var npoly: nat

    constructor (cverts: nat, cpoly: nat)
      ensures fresh(verts) && fresh(poly) && verts.Length == cverts && poly.Length == cpoly
      ensures nverts == npoly == 0 && Valid()
    {
      verts := new Vertex[cverts](_ => Vertex(0, 0, 0, 0));
      poly := new nat[cpoly](_ => 0);
      nverts, npoly := 0, 0;
    }

    ghost predicate Valid()
      reads this
    {
      nverts <= verts.Length && npoly <= poly.Length
    }

    /** The contour as it is. */
    ghost function Shape(): seq<Vertex>
      requires Valid()
      reads this, verts
    {
      verts[..nverts]
    }

    ghost function Chosen(): seq<nat>
      requires Valid()
      reads this, poly
    {
      poly[..npoly]
    }

    /** Choose the vertices at which a new wall begins. */
    method ChooseWalls()
      requires Valid() && nverts <= poly.Length
      modifies this`npoly, poly
      ensures Valid() && Chosen() == Walls(Shape(), nverts)
    {
      ghost var v := Shape();
      npoly := 0;
      for i := 0 to nverts
        invariant npoly <= i && nverts == |v| <= poly.Length
        invariant poly[..npoly] == Walls(v, i)
      {
        var j := (i + 1) % nverts;
        ModIsRing(nverts, i + 1);
        var ra, rb := verts[j].r, verts[i].r;
        if ra != rb {
          poly[npoly] := i;
          npoly := npoly + 1;
        }
      }
    }

    /** Choose the lower left and the upper right vertex. */
    method ChooseCorners()
      requires Valid() && nverts > 0 && poly.Length >= 2
      modifies this`npoly, poly
      ensures Valid() && Chosen() == [LowerLeft(Shape(), nverts), UpperRight(Shape(), nverts)]
    {
      var llx, llz, lli := verts[0].x, verts[0].z, 0;
      var urx, urz, uri := verts[0].x, verts[0].z, 0;
      for i := 1 to nverts
        invariant lli == LowerLeft(Shape(), i) && llx == verts[lli].x && llz == verts[lli].z
        invariant uri == UpperRight(Shape(), i) && urx == verts[uri].x && urz == verts[uri].z
      {
        var x, z := verts[i].x, verts[i].z;
        if x < llx || (x == llx && z < llz) {
          llx, llz, lli := x, z, i;
        }
        if x > urx || (x == urx && z > urz) {
          urx, urz, uri := x, z, i;
        }
      }
      poly[0], poly[1] := lli, uri;
      npoly := 2;
    }

    /** The vertex farthest from the edge between vertices `ai` and `bi`, of those on the arc between them, and its
        squared distance. The arc is searched in the direction in which the coordinates grow. */
    method FindFarthest(ai: nat, bi: nat) returns (maxi: int, maxd: real)
      requires Valid() && ai < nverts && bi < nverts
      ensures var arc := Arc(nverts, ai, bi); Found(Shape(), arc, Farthest(Shape(), arc), maxi, maxd)
    {
      hide Found, SoFar, Farthest, Arc, DistancePtSeg, Deviations;
      ghost var v, arc, last := Shape(), Arc(nverts, ai, bi), Span(nverts, ai, bi);
      var a, b := verts[ai], verts[bi];
      maxi, maxd := -1, 0.0;
      var up := b.x > a.x || (b.x == a.x && b.z > a.z);
      var cinc := if up then 1 else nverts - 1;
      var ci := ((if up then ai else bi) + cinc) % nverts;
      var endi := if up then bi else ai;
      NextIndex(nverts, ai, bi, if up then 0 else last);
      ghost var k := if up then 1 else last - 1;
      FarStart(v, arc, up);
      while ci != endi
        invariant 0 <= k <= last && ci == arc[k] && (if up then k >= 1 else k < last)
        invariant Found(v, arc, SoFar(v, arc, up, k), maxi, maxd)
        decreases if up then last - k else k
      {
        ArcEnds(nverts, ai, bi, k);
        var c := verts[ci];
        var d := DistancePtSeg(c.x as real, c.z as real, a.x as real, a.z as real, b.x as real, b.z as real);
        FarStep(v, arc, up, k, maxi, maxd);
        if d > maxd {
          maxd, maxi := d, ci;
        }
        NextIndex(nverts, ai, bi, k);
        ci := (ci + cinc) % nverts;
        k := if up then k + 1 else k - 1;
      }
      ArcEnds(nverts, ai, bi, k);
      FarEnd(v, arc, up);
    }

    /** Make room after place `i` for one more chosen vertex. */
    method InsertAfter(i: nat, m: nat)
      requires Valid() && i < npoly < poly.Length
      modifies this`npoly, poly
      ensures Valid() && Chosen() == InsertAt(old(Chosen()), i + 1, m)
    {
      ghost var p := Chosen();
      npoly := npoly + 1;
      var j := npoly - 1;
      while j > i
        invariant i <= j < npoly == |p| + 1 <= poly.Length
        invariant forall k :: 0 <= k <= j && k < |p| ==> poly[k] == p[k]
        invariant forall k :: j < k < npoly ==> poly[k] == p[k - 1]
      {
        poly[j] := poly[j - 1];
        j := j - 1;
      }
      poly[i + 1] := m;
      assert poly[..npoly] == InsertAt(p, i + 1, m);
    }

    /** Divide the edge from place `i` on at its farthest vertex, if that is too far. */
    method AddPoint(i: nat, maxError: real) returns (added: bool)
      requires Valid() && Within(Chosen(), nverts) && i < npoly
      requires Splits(Shape(), maxError * maxError, Arc(nverts, poly[i], Follower(Chosen(), i))) ==> npoly < poly.Length
      modifies this`npoly, poly
      ensures Valid()
      ensures
        var p := old(Chosen());
        var arc := Arc(nverts, p[i], Follower(p, i));
        if Splits(Shape(), maxError * maxError, arc) then
          added && Farthest(Shape(), arc) != -1 && Chosen() == InsertAt(p, i + 1, arc[Farthest(Shape(), arc)])
        else !added && Chosen() == p
    {
      hide Farthest, Splits, Deviation, Arc, InsertAt;
      ghost var p := Chosen();
      var ii := (i + 1) % npoly;
      ModIsRing(npoly, i + 1);
      assert poly[i] == p[i] && poly[ii] == Follower(p, i);
      var maxi, maxd := FindFarthest(poly[i], poly[ii]);
      SplitsIff(Shape(), maxError * maxError, Arc(nverts, p[i], Follower(p, i)));
      added := maxi != -1 && maxd > maxError * maxError;
      if added {
        InsertAfter(i, maxi);
      }
    }

    /** Add vertices until every edge fits. */
    method AddPoints(maxError: real)
      requires Valid() && Ordered(Shape(), Chosen()) && poly.Length >= nverts
      modifies this`npoly, poly
      ensures Valid() && Ordered(Shape(), Chosen())
      ensures Chosen() == old(Refined(Shape(), maxError * maxError, Chosen(), 0))
    {
      hide Ordered, Refined, Splits, Farthest, Arc, Keep, InsertAt;
      ghost var v, e := Shape(), maxError * maxError;
      OrderedInRange(v, Chosen());
      ghost var whole := Refined(v, e, Chosen(), 0);
      var i := 0;
      while i < npoly
        invariant Valid() && nverts == |v| && i <= npoly && Ordered(v, Chosen()) && Within(Chosen(), |v|)
        invariant whole == Chosen()[..i] + Refined(v, e, Chosen(), i)
        decreases |whole| - npoly, npoly - i
      {
        ghost var p := Chosen();
        if Splits(v, e, Arc(|v|, p[i], Follower(p, i))) {
          RoomForSplit(v, e, p, i);
          DividedEdge(v, e, p, i);
        } else {
          FittingEdge(v, e, p, i);
        }
        var added := AddPoint(i, maxError);
        RefinedLength(v, e, p, i);
        if !added {
          i := i + 1;
        } else {
          RefinedLength(v, e, Chosen(), i);
        }
      }
      RefinedEnd(v, e, Chosen());
      assert Chosen()[..i] + [] == Chosen();
    }

    /** The place of the smallest index chosen. */
    method FindSmallest() returns (start: nat)
      requires Valid() && npoly > 0
      ensures start == Smallest(Chosen(), npoly)
    {
      start := 0;
      for i := 1 to npoly
        invariant start == Smallest(Chosen(), i)
      {
        if poly[i] < poly[start] {
          start := i;
        }
      }
    }

    /** Append a vertex to the packed ones. */
    method CopyVertex(src: nat)
      requires nverts < verts.Length && src < verts.Length
      modifies this`nverts, verts
      ensures nverts == old(nverts) + 1 && verts[..] == old(verts[..])[old(nverts) := old(verts[src])]
    {
      verts[nverts] := verts[src];
      nverts := nverts + 1;
    }

    /** Pack the chosen vertices at the front, from the smallest index on. */
    method Remap()
      requires Valid() && Ordered(Shape(), Chosen()) && npoly <= verts.Length
      modifies this`nverts, verts
      ensures Valid() && npoly > 0 && Within(Rotate(Chosen(), Smallest(Chosen(), npoly)), |old(Shape())|)
      ensures Shape() == Pick(old(Shape()), Rotate(Chosen(), Smallest(Chosen(), npoly)))
    {
      hide Ordered, Smallest, Pick, Packable, Rotate;
      ghost var v, p := Shape(), Chosen();
      OrderedInRange(v, p);
      var start := FindSmallest();
      ghost var q := Rotate(p, start);
      SafeToPack(v, p, start);
      hide Packed;
      PackStart(verts[..], v, q);
      nverts := 0;
      for i := 0 to npoly
        invariant nverts == i && Packed(verts[..], v, q, i)
      {
        ghost var vs := verts[..];
        ModIsRing(npoly, start + i);
        var j := (start + i) % npoly;
        PackStep(vs, v, q, i);
        assert poly[j] == p[Ring(npoly, start + i)] == q[i];
        CopyVertex(poly[j]);
      }
      PackEnd(verts[..], v, q);
      assert verts[..nverts] == verts[..][..nverts];
    }

    /** simplifyContour: the vertices left are exactly the simplified contour. */
    method SimplifyContour(maxError: real)
      requires Valid() && nverts > 0 && verts.Length >= 2 && poly.Length >= nverts && poly.Length >= 2
      modifies this, verts, poly
      ensures Valid() && Within(Simplified(old(Shape()), maxError * maxError), |old(Shape())|)
      ensures Shape() == Pick(old(Shape()), Simplified(old(Shape()), maxError * maxError))
    {
      hide Ordered, Refined, Rotate, Smallest, Simplified, Walls, LowerLeft, UpperRight, Within;
      ghost var v := Shape();
      ChooseWalls();
      if npoly < 2 {
        ChooseCorners();
      }
      assert Chosen() == Seeds(v);
      SeedsOrdered(v);
      hide Seeds;
      AddPoints(maxError);
      OrderedFits(v, Chosen(), verts.Length);
      SimplifiedIs(v, maxError * maxError);
      Remap();
    }
  }

  /** Dividing an edge that does not fit brings the list nearer to the refined one. */
  lemma DividedEdge(v: seq<Vertex>, e: real, p: seq<nat>, i: nat)
    requires Ordered(v, p) && i < |p| && Splits(v, e, Arc(|v|, p[i], Follower(p, i)))
    ensures Farthest(v, Arc(|v|, p[i], Follower(p, i))) != -1
    ensures
      var arc := Arc(|v|, p[i], Follower(p, i));
      var q := InsertAt(p, i + 1, arc[Farthest(v, arc)]);
      Ordered(v, q) && Within(q, |v|) && q[..i] + Refined(v, e, q, i) == p[..i] + Refined(v, e, p, i)
  {
    hide Ordered, Refined, Splits, Farthest, Arc;
    SplitKeepsOrder(v, e, p, i);
    OrderedInRange(v, p);
    InsertRefines(v, e, p, i);
    var arc := Arc(|v|, p[i], Follower(p, i));
    var q := InsertAt(p, i + 1, arc[Farthest(v, arc)]);
    assert q[..i] == p[..i];
  }

  lemma FittingEdge(v: seq<Vertex>, e: real, p: seq<nat>, i: nat)
    requires Within(p, |v|) && i < |p| && !Splits(v, e, Arc(|v|, p[i], Follower(p, i)))
    ensures p[..i + 1] + Refined(v, e, p, i + 1) == p[..i] + Refined(v, e, p, i)
  {
    hide Refined, Splits, Keep, Arc;
    NotSplitKeepsNothing(v, e, Arc(|v|, p[i], Follower(p, i)));
    RefinedAt(v, e, p, i);
  }

  lemma SplitsIff(v: seq<Vertex>, e: real, arc: seq<nat>)
    requires Within(arc, |v|) && |arc| >= 2
    ensures var m := Farthest(v, arc); Splits(v, e, arc) <==>
      m != -1 && Deviation(v, arc[0], arc[|arc| - 1], arc[m]) > e
  {
  }

  lemma OrderedFits(v: seq<Vertex>, p: seq<nat>, n: nat)
    requires Ordered(v, p) && |v| <= n && n >= 2
    ensures |p| <= n
  {
    if InOrder(|v|, p) {
      OrderedAreFew(|v|, p);
    }
  }

  /** There is room for one more vertex: it is not one of those chosen. */
  lemma RoomForSplit(v: seq<Vertex>, e: real, p: seq<nat>, i: nat)
    requires Ordered(v, p) && i < |p| && Splits(v, e, Arc(|v|, p[i], Follower(p, i)))
    ensures |p| < |v|
  {
    var arc := Arc(|v|, p[i], Follower(p, i));
    SplitKeepsOrder(v, e, p, i);
    var q := InsertAt(p, i + 1, arc[Farthest(v, arc)]);
    hide Farthest, Splits, InOrder;
    if InOrder(|v|, q) {
      OrderedAreFew(|v|, q);
    } else {
      assert |q| >= 2;
      OnePointNeverSplits(v, e, arc);
    }
  }

  /** Copying vertices forwards in this order overwrites none before it is copied. */
  predicate Packable(q: seq<nat>) {
    forall k :: 0 <= k < |q| ==> q[k] >= k || (q[k] == 0 && q[0] == 0)
  }

  /** No vertex is overwritten before it has been copied. */
  lemma SafeToPack(v: seq<Vertex>, p: seq<nat>, s: nat)
    requires Ordered(v, p) && s == Smallest(p, |p|)
    ensures
      var q := Rotate(p, s);
      Within(q, |v|) && Packable(q)
  {
    var q := Rotate(p, s);
    if InOrder(|v|, p) {
      RotatedAscends(|v|, p, s);
      forall k | 0 <= k < |q|
        ensures q[k] >= k
      {
        AscendingAtLeast(q, k);
      }
    }
  }

  /** The first `i` vertices in the order of `q` are copied, the others where they were. */
  predicate Packed(vs: seq<Vertex>, v: seq<Vertex>, q: seq<nat>, i: nat) {
    && Within(q, |v|) && i <= |q| <= |vs| && |v| <= |vs|
    && (forall k :: 0 <= k < i ==> vs[k] == v[q[k]])
    && (forall k :: i <= k < |v| ==> vs[k] == v[k])
  }

  lemma PackStart(vs: seq<Vertex>, v: seq<Vertex>, q: seq<nat>)
    requires v <= vs && Within(q, |v|) && |q| <= |vs|
    ensures Packed(vs, v, q, 0)
  {
  }

  lemma PackStep(vs: seq<Vertex>, v: seq<Vertex>, q: seq<nat>, i: nat)
    requires Packed(vs, v, q, i) && i < |q| && Packable(q)
    ensures q[i] < |vs| && Packed(vs[i := vs[q[i]]], v, q, i + 1)
  {
    assert q[i] < i ==> i > 0 && vs[0] == v[q[0]];
  }

  lemma PackEnd(vs: seq<Vertex>, v: seq<Vertex>, q: seq<nat>)
    requires Packed(vs, v, q, |q|)
    ensures vs[..|q|] == Pick(v, q)
  {
  }
}
