/**
 Contour simplification: the distance of a point from a segment, arcs of a closed contour, the vertex of an arc that is
 farthest from the segment between its ends, and which vertices are kept. Indices go around the contour; an arc is the
 list of indices from one vertex to another.
 */
module ContourModel {
  import opened Basics

  datatype Vertex = Vertex(x: int, y: int, z: int, r: int)

  // ----- The distance of a point from a segment -----

  function Square(a: real): real {
    a * a
  }

  function Dot(u: real, w: real, a: real, c: real): real {
    u * a + w * c
  }

  /** The squared distance of (x, z) from the point that divides the segment from p to q in the ratio t. */
  function DistanceAt(x: real, z: real, px: real, pz: real, qx: real, qz: real, t: real): real {
    Square(px + t * (qx - px) - x) + Square(pz + t * (qz - pz) - z)
  }

  function NearestT(x: real, z: real, px: real, pz: real, qx: real, qz: real): (t: real)
    ensures 0.0 <= t <= 1.0
  {
    var pqx, pqz := qx - px, qz - pz;
    var d := Dot(pqx, pqz, pqx, pqz);
    var b := Dot(pqx, pqz, x - px, z - pz);
    var t := if d > 0.0 then b / d else b;
    if t < 0.0 then 0.0 else if t > 1.0 then 1.0 else t
  }

  /** distancePtSeg: the squared distance of a point from a segment. */
  function DistancePtSeg(x: real, z: real, px: real, pz: real, qx: real, qz: real): real {
    DistanceAt(x, z, px, pz, qx, qz, NearestT(x, z, px, pz, qx, qz))
  }

  lemma SumOfSquares(ss: real, s: real, uu: real, ww: real, ua: real, wc: real, aa: real, cc: real)
    ensures (uu * ss - 2.0 * (ua * s) + aa) + (ww * ss - 2.0 * (wc * s) + cc)
         == (uu + ww) * ss - 2.0 * ((ua + wc) * s) + (aa + cc)
  {
  }

  lemma SumOfDifferences(u: real, w: real, a: real, c: real, s: real)
    ensures Square(s * u - a) + Square(s * w - c)
         == Dot(u, w, u, w) * (s * s) - 2.0 * (Dot(u, w, a, c) * s) + Dot(a, c, a, c)
  {
    hide Square;
    SquareOfDifference(s, u, a);
    SquareOfDifference(s, w, c);
    SumOfSquares(s * s, s, u * u, w * w, u * a, w * c, a * a, c * c);
  }

  lemma Shift(p: real, x: real, m: real)
    ensures Square(p + m - x) == Square(m - (x - p))
  {
    assert p + m - x == m - (x - p);
  }

  /** The distance along the segment is a parabola in `s`. */
  lemma Parabola(x: real, z: real, px: real, pz: real, qx: real, qz: real, s: real)
    ensures
      var u, w, a, c := qx - px, qz - pz, x - px, z - pz;
      DistanceAt(x, z, px, pz, qx, qz, s) == Dot(u, w, u, w) * (s * s) - 2.0 * (Dot(u, w, a, c) * s) + Dot(a, c, a, c)
  {
    var u, w, a, c := qx - px, qz - pz, x - px, z - pz;
    SumOfDifferences(u, w, a, c, s);
    hide Dot;
    Shift(px, x, s * u);
    Shift(pz, z, s * w);
  }

  lemma SquareOfDifference(s: real, u: real, a: real)
    ensures Square(s * u - a) == (u * u) * (s * s) - 2.0 * ((u * a) * s) + a * a
  {
    var m := s * u;
    assert (m - a) * (m - a) == m * m - 2.0 * (m * a) + a * a;
    assert m * m == (u * u) * (s * s);
    assert m * a == (u * a) * s;
  }

  lemma Product(a: real, b: real)
    requires a >= 0.0 && b >= 0.0
    ensures a * b >= 0.0
  {
  }

  /** A parabola that opens upwards is least, within [0, 1], at its apex or at the end nearer to it. */
  lemma LeastOfParabola(d: real, b: real, t: real, s: real)
    requires d >= 0.0 && 0.0 <= t <= 1.0 && 0.0 <= s <= 1.0
    requires d * t == b || (t == 0.0 && b <= 0.0) || (t == 1.0 && b >= d)
    ensures d * (t * t) - 2.0 * (b * t) <= d * (s * s) - 2.0 * (b * s)
  {
    if d * t == b {
      Product(d, (s - t) * (s - t));
      assert d * ((s - t) * (s - t)) == d * (s * s) - 2.0 * ((d * t) * s) + (d * t) * t;
      assert d * (t * t) == (d * t) * t;
    } else if t == 0.0 {
      Product(-b, s);
      Product(d, s * s);
      assert d * (t * t) - 2.0 * (b * t) == 0.0;
    } else {
      Product(d, 1.0 - s);
      assert d * (1.0 - s) == d - d * s;
      Product(1.0 - s, 2.0 * b - d - d * s);
      assert (1.0 - s) * (2.0 * b - d - d * s) == 2.0 * b - d - 2.0 * (b * s) + d * (s * s);
    }
  }

  /** The ratio that distancePtSeg uses is the apex of the parabola, or the end nearer to it. */
  lemma NearestIsApex(x: real, z: real, px: real, pz: real, qx: real, qz: real)
    ensures
      var u, w, t := qx - px, qz - pz, NearestT(x, z, px, pz, qx, qz);
      var d, b := Dot(u, w, u, w), Dot(u, w, x - px, z - pz);
      d >= 0.0 && (d * t == b || (t == 0.0 && b <= 0.0) || (t == 1.0 && b >= d))
  {
    var u, w := qx - px, qz - pz;
    var d, b := Dot(u, w, u, w), Dot(u, w, x - px, z - pz);
    if d > 0.0 {
      var t0 := b / d;
      assert t0 * d == b;
      if t0 < 0.0 {
        Product(-t0, d);
      } else if t0 > 1.0 {
        Product(t0 - 1.0, d);
        assert (t0 - 1.0) * d == t0 * d - d;
      }
    } else {
      SquaresAreZero(u, w, u * u, w * w);
    }
  }

  lemma PositiveProduct(a: real, b: real, p: real)
    requires a > 0.0 && b > 0.0 && p == a * b
    ensures p > 0.0
  {
  }

  lemma SquareSign(u: real, p: real)
    requires p == u * u
    ensures p >= 0.0 && (p == 0.0 ==> u == 0.0)
  {
    if u > 0.0 {
      PositiveProduct(u, u, p);
    } else if u < 0.0 {
      PositiveProduct(-u, -u, p);
    }
  }

  lemma SquaresAreZero(u: real, w: real, p: real, q: real)
    requires p == u * u && q == w * w && p + q <= 0.0
    ensures u == 0.0 && w == 0.0
  {
    SquareSign(u, p);
    SquareSign(w, q);
  }

  /** What distancePtSeg finds is the least distance from any point of the segment. */
  lemma DistanceIsLeast(x: real, z: real, px: real, pz: real, qx: real, qz: real, s: real)
    requires 0.0 <= s <= 1.0
    ensures DistancePtSeg(x, z, px, pz, qx, qz) <= DistanceAt(x, z, px, pz, qx, qz, s)
  {
    hide DistanceAt, NearestT, Dot;
    var u, w, a, c := qx - px, qz - pz, x - px, z - pz;
    var t := NearestT(x, z, px, pz, qx, qz);
    NearestIsApex(x, z, px, pz, qx, qz);
    LeastOfParabola(Dot(u, w, u, w), Dot(u, w, a, c), t, s);
    Parabola(x, z, px, pz, qx, qz, s);
    Parabola(x, z, px, pz, qx, qz, t);
  }

  lemma SamePoint(x: real, z: real, px: real, pz: real, qx: real, qz: real, t: real)
    ensures DistanceAt(x, z, qx, qz, px, pz, 1.0 - t) == DistanceAt(x, z, px, pz, qx, qz, t)
  {
    assert qx + (1.0 - t) * (px - qx) == px + t * (qx - px);
    assert qz + (1.0 - t) * (pz - qz) == pz + t * (qz - pz);
  }

  lemma DistanceSymmetric(x: real, z: real, px: real, pz: real, qx: real, qz: real)
    ensures DistancePtSeg(x, z, px, pz, qx, qz) == DistancePtSeg(x, z, qx, qz, px, pz)
  {
    hide DistanceAt;
    var t, t' := NearestT(x, z, px, pz, qx, qz), NearestT(x, z, qx, qz, px, pz);
    SamePoint(x, z, px, pz, qx, qz, t);
    SamePoint(x, z, qx, qz, px, pz, t');
    DistanceIsLeast(x, z, px, pz, qx, qz, 1.0 - t');
    DistanceIsLeast(x, z, qx, qz, px, pz, 1.0 - t);
  }

  lemma DistanceAtEnds(px: real, pz: real, qx: real, qz: real)
    ensures DistancePtSeg(px, pz, px, pz, qx, qz) <= 0.0 && DistancePtSeg(qx, qz, px, pz, qx, qz) <= 0.0
  {
    DistanceIsLeast(px, pz, px, pz, qx, qz, 0.0);
    DistanceIsLeast(qx, qz, px, pz, qx, qz, 1.0);
    hide NearestT;
  }

  lemma DistanceAtOnePoint(x: real, z: real)
    ensures DistancePtSeg(x, z, x, z, x, z) == 0.0
  {
  }

  // ----- Arcs of a closed contour -----

  /** How many steps forward lead from `a` to `b`: a whole round if they are the same. */
  function Span(n: nat, a: nat, b: nat): nat
    requires a < n && b < n
  {
    if a < b then b - a else b + n - a
  }

  /** `a` and the next `k` indices. */
  function ArcOf(n: nat, a: nat, k: nat): (s: seq<nat>)
    requires a < n && k <= n
    ensures |s| == k + 1 && forall j :: 0 <= j < |s| ==> s[j] == Ring(n, a + j) < n
  {
    if k == 0 then [a] else ArcOf(n, a, k - 1) + [Ring(n, a + k)]
  }

  /** The indices from `a` to `b`. */
  function Arc(n: nat, a: nat, b: nat): (s: seq<nat>)
    requires a < n && b < n
    ensures |s| == Span(n, a, b) + 1 && s[0] == a && s[|s| - 1] == b
    ensures forall k :: 0 <= k < |s| ==> s[k] == Ring(n, a + k) < n
  {
    ArcOf(n, a, Span(n, a, b))
  }

  /** A vertex inside an arc divides it. */
  lemma ArcSplit(n: nat, a: nat, b: nat, k: nat)
    requires a < n && b < n && 0 < k < Span(n, a, b)
    ensures var s := Arc(n, a, b); Arc(n, a, s[k]) == s[..k + 1] && Arc(n, s[k], b) == s[k..]
  {
  }

  /** How far `x` comes after `a`. */
  function Off(n: nat, a: nat, x: nat): nat
    requires a < n && x < n
  {
    if x >= a then x - a else x + n - a
  }

  /** The indices come in the order of the contour and do not go around more than once. */
  predicate InOrder(n: nat, p: seq<nat>) {
    && Within(p, n) && p != []
    && forall j, k :: 0 <= j < k < |p| ==> Off(n, p[0], p[j]) < Off(n, p[0], p[k])
  }

  function Follower(p: seq<nat>, i: nat): nat
    requires i < |p|
  {
    if i + 1 < |p| then p[i + 1] else p[0]
  }

  lemma InsertKeepsOrder(n: nat, p: seq<nat>, i: nat, k: nat)
    requires InOrder(n, p) && i < |p| && 0 < k < Span(n, p[i], Follower(p, i))
    ensures InOrder(n, InsertAt(p, i + 1, Arc(n, p[i], Follower(p, i))[k]))
  {
    var m := Arc(n, p[i], Follower(p, i))[k];
    var q := InsertAt(p, i + 1, m);
    assert Off(n, p[0], m) == Off(n, p[0], p[i]) + k;
    assert i + 1 < |p| ==> Off(n, p[0], m) < Off(n, p[0], p[i + 1]);
    forall j, l | 0 <= j < l < |q|
      ensures Off(n, q[0], q[j]) < Off(n, q[0], q[l])
    {
      if l == i + 1 {
        assert j < i ==> Off(n, p[0], p[j]) < Off(n, p[0], p[i]);
      } else if j == i + 1 {
        assert l - 1 > i + 1 ==> Off(n, p[0], p[i + 1]) < Off(n, p[0], p[l - 1]);
      }
    }
  }

  lemma {:induction false} OffAtLeast(n: nat, p: seq<nat>, k: nat)
    requires InOrder(n, p) && k < |p|
    ensures Off(n, p[0], p[k]) >= k
  {
    if k > 0 {
      OffAtLeast(n, p, k - 1);
    }
  }

  lemma OrderedAreFew(n: nat, p: seq<nat>)
    requires InOrder(n, p)
    ensures |p| <= n
  {
    OffAtLeast(n, p, |p| - 1);
  }

  predicate Ascends(p: seq<nat>) {
    forall j, k :: 0 <= j < k < |p| ==> p[j] < p[k]
  }

  /** Read from the smallest index on, indices in the order of the contour ascend. */
  lemma RotatedAscends(n: nat, p: seq<nat>, s: nat)
    requires InOrder(n, p) && s < |p| && forall k :: 0 <= k < |p| ==> p[s] <= p[k]
    ensures Ascends(Rotate(p, s))
  {
    if s > 0 {
      assert Off(n, p[0], p[0]) < Off(n, p[0], p[s]);
    }
    forall k | 0 <= k < |p|
      ensures if s > 0 && k >= s then p[k] < p[0] else p[k] >= p[0]
    {
      if k < s {
        assert Off(n, p[0], p[k]) < Off(n, p[0], p[s]);
      } else if s < k {
        assert Off(n, p[0], p[s]) < Off(n, p[0], p[k]);
      }
    }
    forall j, k | 0 <= j < k < |p|
      ensures Rotate(p, s)[j] < Rotate(p, s)[k]
    {
      var j', k' := Ring(|p|, s + j), Ring(|p|, s + k);
      if j' < k' {
        assert Off(n, p[0], p[j']) < Off(n, p[0], p[k']);
      }
    }
  }

  lemma AscendingAtLeast(p: seq<nat>, k: nat)
    requires Ascends(p) && k < |p|
    ensures p[k] >= k
  {
    if k > 0 {
      AscendingAtLeast(p, k - 1);
    }
  }

  // ----- The vertex farthest from a segment -----

  predicate Before(a: Vertex, b: Vertex) {
    a.x < b.x || (a.x == b.x && a.z < b.z)
  }

  predicate SamePlace(a: Vertex, b: Vertex) {
    a.x == b.x && a.z == b.z
  }

  predicate OnePoint(v: seq<Vertex>) {
    forall k :: 0 <= k < |v| ==> SamePlace(v[k], v[0])
  }

  /** How far vertex `c` is from the segment between vertices `a` and `b`. */
  function Deviation(v: seq<Vertex>, a: nat, b: nat, c: nat): real
    requires a < |v| && b < |v| && c < |v|
  {
    DistancePtSeg(v[c].x as real, v[c].z as real, v[a].x as real, v[a].z as real, v[b].x as real, v[b].z as real)
  }

  /** How far each vertex of an arc is from the segment between the ends. */
  function Deviations(v: seq<Vertex>, arc: seq<nat>): (d: seq<real>)
    requires Within(arc, |v|) && |arc| >= 2
    ensures |d| == |arc| && forall k :: 0 <= k < |d| ==> d[k] == Deviation(v, arc[0], arc[|arc| - 1], arc[k])
  {
    seq(|arc|, k requires 0 <= k < |arc| => Deviation(v, arc[0], arc[|arc| - 1], arc[k]))
  }

  function Best(d: seq<real>, m: int): real
    requires m < |d|
  {
    if m < 0 then 0.0 else d[m]
  }

  /** The greatest positive number between the ends of `d`, of those before place `k`; the first such place. */
  function FarUp(d: seq<real>, k: nat): (m: int)
    requires k < |d|
    ensures m == -1 || 0 < m < k
    ensures (m != -1 ==> d[m] > 0.0) && forall j :: 0 < j < k ==> d[j] <= Best(d, m)
  {
    if k <= 1 then -1
    else
      var m := FarUp(d, k - 1);
      if d[k - 1] > Best(d, m) then k - 1 else m
  }

  /** The greatest positive number between the ends of `d`, of those from place `k` on; the last such place. */
  function FarDown(d: seq<real>, k: nat): (m: int)
    requires 0 < k < |d|
    ensures m == -1 || k <= m < |d| - 1
    ensures (m != -1 ==> d[m] > 0.0) && forall j :: k <= j < |d| - 1 ==> d[j] <= Best(d, m)
    decreases |d| - k
  {
    if k == |d| - 1 then -1
    else
      var m := FarDown(d, k + 1);
      if d[k] > Best(d, m) then k else m
  }

  lemma FarUpStep(d: seq<real>, k: nat)
    requires 0 < k < |d| - 1
    ensures var m := FarUp(d, k); FarUp(d, k + 1) == if d[k] > Best(d, m) then k else m
  {
  }

  lemma FarDownStep(d: seq<real>, k: nat)
    requires 0 < k < |d| - 1
    ensures var m := FarDown(d, k + 1); FarDown(d, k) == if d[k] > Best(d, m) then k else m
  {
  }

  function Farthest(v: seq<Vertex>, arc: seq<nat>): (m: int)
    requires Within(arc, |v|) && |arc| >= 2
    ensures m == -1 || 0 < m < |arc| - 1
  {
    var d := Deviations(v, arc);
    if Before(v[arc[0]], v[arc[|arc| - 1]]) then FarUp(d, |d| - 1) else FarDown(d, 1)
  }

  lemma FarthestIsFarthest(v: seq<Vertex>, arc: seq<nat>)
    requires Within(arc, |v|) && |arc| >= 2
    ensures
      var d, m := Deviations(v, arc), Farthest(v, arc);
      (m != -1 ==> d[m] > 0.0) && forall k :: 0 < k < |arc| - 1 ==> d[k] <= Best(d, m)
  {
  }

  // ----- The vertices kept -----

  /** No vertex inside the arc is farther than allowed from the segment between the ends. */
  predicate Fits(v: seq<Vertex>, e: real, arc: seq<nat>)
    requires Within(arc, |v|) && |arc| >= 2
  {
    forall k :: 0 < k < |arc| - 1 ==> Deviation(v, arc[0], arc[|arc| - 1], arc[k]) <= e
  }

  predicate Splits(v: seq<Vertex>, e: real, arc: seq<nat>)
    requires Within(arc, |v|) && |arc| >= 2
  {
    var m := Farthest(v, arc);
    m != -1 && Deviations(v, arc)[m] > e
  }

  /** The vertices kept inside an arc: the farthest one, if it is too far, and what is then kept on either side of
      it. */
  function Keep(v: seq<Vertex>, e: real, arc: seq<nat>): seq<nat>
    requires Within(arc, |v|) && |arc| >= 2
    decreases |arc|
  {
    if !Splits(v, e, arc) then []
    else
      var m := Farthest(v, arc);
      Keep(v, e, arc[..m + 1]) + [arc[m]] + Keep(v, e, arc[m..])
  }

  /** An arc fits exactly if it is not split. */
  lemma FitsIffNotSplit(v: seq<Vertex>, e: real, arc: seq<nat>)
    requires Within(arc, |v|) && |arc| >= 2 && e >= 0.0
    ensures Fits(v, e, arc) <==> !Splits(v, e, arc)
  {
    FarthestIsFarthest(v, arc);
    var d, m := Deviations(v, arc), Farthest(v, arc);
    assert m != -1 ==> d[m] == Deviation(v, arc[0], arc[|arc| - 1], arc[m]);
  }

  /** What is kept, edge by edge, from place `i` of a list of indices on. */
  function Refined(v: seq<Vertex>, e: real, p: seq<nat>, i: nat): (r: seq<nat>)
    requires Within(p, |v|) && i <= |p|
    decreases |p| - i
  {
    if i == |p| then [] else [p[i]] + Keep(v, e, Arc(|v|, p[i], Follower(p, i))) + Refined(v, e, p, i + 1)
  }

  lemma {:induction false} RefinedLength(v: seq<Vertex>, e: real, p: seq<nat>, i: nat)
    requires Within(p, |v|) && i <= |p|
    ensures |Refined(v, e, p, i)| >= |p| - i
    decreases |p| - i
  {
    hide Keep, Arc;
    if i < |p| {
      RefinedLength(v, e, p, i + 1);
    }
  }

  lemma RefinedEnd(v: seq<Vertex>, e: real, p: seq<nat>)
    requires Within(p, |v|)
    ensures Refined(v, e, p, |p|) == []
  {
  }

  lemma {:induction false} RefinedShift(v: seq<Vertex>, e: real, p: seq<nat>, i: nat, m: nat, j: nat)
    requires Within(p, |v|) && m < |v| && i < j <= |p|
    ensures Within(InsertAt(p, i + 1, m), |v|)
    ensures Refined(v, e, InsertAt(p, i + 1, m), j + 1) == Refined(v, e, p, j)
    decreases |p| - j
  {
    hide Keep, Arc, Refined;
    var q := InsertAt(p, i + 1, m);
    if j < |p| {
      RefinedShift(v, e, p, i, m, j + 1);
      assert q[j + 1] == p[j] && Follower(q, j + 1) == Follower(p, j);
      RefinedAt(v, e, p, j);
      RefinedAt(v, e, q, j + 1);
    } else {
      RefinedEnd(v, e, p);
      RefinedEnd(v, e, q);
    }
  }

  lemma SplitsSomewhere(v: seq<Vertex>, e: real, arc: seq<nat>)
    requires Within(arc, |v|) && |arc| >= 2 && Splits(v, e, arc)
    ensures Farthest(v, arc) != -1
  {
  }

  lemma RefinedAt(v: seq<Vertex>, e: real, p: seq<nat>, i: nat)
    requires Within(p, |v|) && i < |p|
    ensures Refined(v, e, p, i) == [p[i]] + Keep(v, e, Arc(|v|, p[i], Follower(p, i))) + Refined(v, e, p, i + 1)
  {
  }

  lemma KeepAt(v: seq<Vertex>, e: real, arc: seq<nat>, m: int)
    requires Within(arc, |v|) && |arc| >= 2 && m == Farthest(v, arc)
    ensures
      Keep(v, e, arc) == if Splits(v, e, arc) then Keep(v, e, arc[..m + 1]) + [arc[m]] + Keep(v, e, arc[m..]) else []
  {
  }

  lemma Inserted(p: seq<nat>, i: nat, m: nat)
    requires i < |p|
    ensures var q := InsertAt(p, i + 1, m);
            i + 1 < |q| && q[i] == p[i] && Follower(q, i) == m && q[i + 1] == m && Follower(q, i + 1) == Follower(p, i)
  {
  }

  lemma InsertedOnce(v: seq<Vertex>, e: real, q: seq<nat>, i: nat, arc: seq<nat>, k: nat, rest: seq<nat>)
    requires Within(q, |v|) && Within(arc, |v|) && i + 1 < |q| && 0 < k < |arc| - 1
    requires Splits(v, e, arc) && k == Farthest(v, arc)
    requires Arc(|v|, q[i], q[i + 1]) == arc[..k + 1] && Arc(|v|, q[i + 1], Follower(q, i + 1)) == arc[k..]
    requires q[i + 1] == arc[k]
    requires Refined(v, e, q, i + 2) == rest
    ensures Refined(v, e, q, i) == [q[i]] + Keep(v, e, arc) + rest
  {
    hide Arc, Span, Farthest, Splits, Refined, Keep;
    var front, back := Keep(v, e, arc[..k + 1]), Keep(v, e, arc[k..]);
    KeepAt(v, e, arc, k);
    RefinedAt(v, e, q, i);
    RefinedAt(v, e, q, i + 1);
    assert [q[i]] + front + ([arc[k]] + back + rest) == [q[i]] + (front + [arc[k]] + back) + rest;
  }

  /** Dividing an edge at its farthest vertex does not change what is kept in the end. */
  lemma InsertRefines(v: seq<Vertex>, e: real, p: seq<nat>, i: nat)
    requires Within(p, |v|) && i < |p| && Splits(v, e, Arc(|v|, p[i], Follower(p, i)))
    ensures
      var arc := Arc(|v|, p[i], Follower(p, i));
      var q := InsertAt(p, i + 1, arc[Farthest(v, arc)]);
      Within(q, |v|) && Refined(v, e, q, i) == Refined(v, e, p, i)
  {
    hide Arc, Farthest, InsertAt, Refined, Keep, Splits;
    var n := |v|;
    var arc := Arc(n, p[i], Follower(p, i));
    var k := Farthest(v, arc);
    SplitsSomewhere(v, e, arc);
    var q := InsertAt(p, i + 1, arc[k]);
    RefinedShift(v, e, p, i, arc[k], i + 1);
    ArcSplit(n, p[i], Follower(p, i), k);
    Inserted(p, i, arc[k]);
    InsertedOnce(v, e, q, i, arc, k, Refined(v, e, p, i + 1));
    RefinedAt(v, e, p, i);
  }

  // ----- Where the simplification starts -----

  /** The vertices before place `k` at which a new wall begins. */
  function Walls(v: seq<Vertex>, k: nat): (w: seq<nat>)
    requires k <= |v|
    ensures Ascends(w) && forall j :: 0 <= j < |w| ==> w[j] < k
  {
    if k == 0 then []
    else Walls(v, k - 1) + if v[Ring(|v|, k)].r != v[k - 1].r then [k - 1] else []
  }

  function LowerLeft(v: seq<Vertex>, k: nat): (m: nat)
    requires 0 < k <= |v|
    ensures m < k && forall j :: 0 <= j < k ==> !Before(v[j], v[m])
  {
    if k == 1 then 0
    else
      var m := LowerLeft(v, k - 1);
      if Before(v[k - 1], v[m]) then k - 1 else m
  }

  function UpperRight(v: seq<Vertex>, k: nat): (m: nat)
    requires 0 < k <= |v|
    ensures m < k && forall j :: 0 <= j < k ==> !Before(v[m], v[j])
  {
    if k == 1 then 0
    else
      var m := UpperRight(v, k - 1);
      if Before(v[m], v[k - 1]) then k - 1 else m
  }

  function Seeds(v: seq<Vertex>): seq<nat>
    requires v != []
  {
    var w := Walls(v, |v|);
    if |w| < 2 then [LowerLeft(v, |v|), UpperRight(v, |v|)] else w
  }

  /** In the order of the contour, unless the whole contour is one point. */
  predicate Ordered(v: seq<Vertex>, p: seq<nat>) {
    v != [] && (InOrder(|v|, p) || (OnePoint(v) && p == [0, 0]))
  }

  lemma AscendingInOrder(n: nat, p: seq<nat>)
    requires Ascends(p) && Within(p, n) && p != []
    ensures InOrder(n, p)
  {
  }

  lemma {:induction false} OnePointCorners(v: seq<Vertex>, k: nat)
    requires 0 < k <= |v| && OnePoint(v)
    ensures LowerLeft(v, k) == UpperRight(v, k) == 0
  {
    if k > 1 {
      OnePointCorners(v, k - 1);
      assert SamePlace(v[k - 1], v[0]);
    }
  }

  lemma SeedsOrdered(v: seq<Vertex>)
    requires v != []
    ensures Ordered(v, Seeds(v))
  {
    var w := Walls(v, |v|);
    if |w| >= 2 {
      AscendingInOrder(|v|, w);
    } else {
      var l, u := LowerLeft(v, |v|), UpperRight(v, |v|);
      if l == u {
        assert OnePoint(v) by {
          forall k | 0 <= k < |v|
            ensures SamePlace(v[k], v[0])
          {
            assert !Before(v[k], v[l]) && !Before(v[u], v[k]);
            assert !Before(v[0], v[l]) && !Before(v[u], v[0]);
          }
        }
        OnePointCorners(v, |v|);
      }
    }
  }

  lemma OnePointNeverSplits(v: seq<Vertex>, e: real, arc: seq<nat>)
    requires OnePoint(v) && Within(arc, |v|) && |arc| >= 2
    ensures !Splits(v, e, arc)
  {
    var d, m := Deviations(v, arc), Farthest(v, arc);
    FarthestIsFarthest(v, arc);
    if m != -1 {
      assert SamePlace(v[arc[m]], v[0]) && SamePlace(v[arc[0]], v[0]) && SamePlace(v[arc[|arc| - 1]], v[0]);
      DistanceAtOnePoint(v[0].x as real, v[0].z as real);
    }
  }

  // ----- The simplified contour -----

  /** The place of the smallest of the first `k` numbers. */
  function Smallest(p: seq<nat>, k: nat): (s: nat)
    requires 0 < k <= |p|
    ensures s < k && forall j :: 0 <= j < k ==> p[s] <= p[j]
  {
    if k == 1 then 0
    else
      var s := Smallest(p, k - 1);
      if p[k - 1] < p[s] then k - 1 else s
  }

  /** The indices of the vertices that are left, from the smallest on. */
  function Simplified(v: seq<Vertex>, e: real): seq<nat>
    requires v != []
  {
    SeedsOrdered(v);
    RefinedLength(v, e, Seeds(v), 0);
    var p := Refined(v, e, Seeds(v), 0);
    Rotate(p, Smallest(p, |p|))
  }

  /** The edges before place `i` fit. */
  predicate AllFit(v: seq<Vertex>, e: real, p: seq<nat>, i: nat)
    requires Within(p, |v|) && i <= |p|
  {
    forall j :: 0 <= j < i ==> Fits(v, e, Arc(|v|, p[j], Follower(p, j)))
  }

  lemma InsertKeepsFit(v: seq<Vertex>, e: real, p: seq<nat>, i: nat, m: nat)
    requires Within(p, |v|) && i < |p| && m < |v| && AllFit(v, e, p, i)
    ensures Within(InsertAt(p, i + 1, m), |v|) && AllFit(v, e, InsertAt(p, i + 1, m), i)
  {
    hide Fits;
    var q := InsertAt(p, i + 1, m);
    forall j | 0 <= j < i
      ensures Fits(v, e, Arc(|v|, q[j], Follower(q, j)))
    {
      assert q[j] == p[j] && Follower(q, j) == Follower(p, j);
    }
  }

  /** A split vertex comes in where it belongs. */
  lemma SplitKeepsOrder(v: seq<Vertex>, e: real, p: seq<nat>, i: nat)
    requires Ordered(v, p) && i < |p| && Splits(v, e, Arc(|v|, p[i], Follower(p, i)))
    ensures
      var arc := Arc(|v|, p[i], Follower(p, i));
      Farthest(v, arc) != -1 && Ordered(v, InsertAt(p, i + 1, arc[Farthest(v, arc)]))
  {
    hide Farthest, InOrder;
    var arc := Arc(|v|, p[i], Follower(p, i));
    SplitsSomewhere(v, e, arc);
    if OnePoint(v) {
      OnePointNeverSplits(v, e, arc);
    } else {
      InsertKeepsOrder(|v|, p, i, Farthest(v, arc));
    }
  }

  /** Edge by edge, what is kept stays in the order of the contour, and in the end every edge fits. */
  lemma {:induction false} RefinedFits(v: seq<Vertex>, e: real, p: seq<nat>, i: nat)
    requires e >= 0.0 && Ordered(v, p) && i <= |p| && AllFit(v, e, p, i)
    ensures var r := p[..i] + Refined(v, e, p, i); Ordered(v, r) && AllFit(v, e, r, |r|)
    decreases i + |Refined(v, e, p, i)| - |p|, |p| - i
  {
    hide Ordered, Fits, Splits, Farthest, Arc, Refined, AllFit;
    OrderedInRange(v, p);
    if i == |p| {
      RefinedEnd(v, e, p);
      assert p[..i] + Refined(v, e, p, i) == p;
    } else {
      var arc := Arc(|v|, p[i], Follower(p, i));
      RefinedAt(v, e, p, i);
      FitsIffNotSplit(v, e, arc);
      RefinedLength(v, e, p, i);
      if Splits(v, e, arc) {
        SplitKeepsOrder(v, e, p, i);
        var m := arc[Farthest(v, arc)];
        var q := InsertAt(p, i + 1, m);
        InsertRefines(v, e, p, i);
        InsertKeepsFit(v, e, p, i, m);
        OrderedInRange(v, q);
        RefinedLength(v, e, q, i);
        RefinedFits(v, e, q, i);
        assert q[..i] == p[..i];
      } else {
        NotSplitKeepsNothing(v, e, arc);
        NextFits(v, e, p, i);
        RefinedFits(v, e, p, i + 1);
        assert p[..i + 1] + Refined(v, e, p, i + 1) == p[..i] + Refined(v, e, p, i);
      }
    }
  }

  lemma OrderedInRange(v: seq<Vertex>, p: seq<nat>)
    requires Ordered(v, p)
    ensures Within(p, |v|) && p != []
  {
  }

  lemma NextFits(v: seq<Vertex>, e: real, p: seq<nat>, i: nat)
    requires Within(p, |v|) && i < |p| && AllFit(v, e, p, i) && Fits(v, e, Arc(|v|, p[i], Follower(p, i)))
    ensures AllFit(v, e, p, i + 1)
  {
    hide Fits, Arc;
  }

  lemma NotSplitKeepsNothing(v: seq<Vertex>, e: real, arc: seq<nat>)
    requires Within(arc, |v|) && |arc| >= 2 && !Splits(v, e, arc)
    ensures Keep(v, e, arc) == []
  {
  }

  lemma SimplifiedIs(v: seq<Vertex>, e: real)
    requires v != []
    ensures Within(Seeds(v), |v|)
    ensures
      var p := Refined(v, e, Seeds(v), 0);
      p != [] && Simplified(v, e) == Rotate(p, Smallest(p, |p|))
  {
    SeedsOrdered(v);
    RefinedLength(v, e, Seeds(v), 0);
  }

  lemma SeedsRefined(v: seq<Vertex>, e: real)
    requires v != [] && e >= 0.0
    ensures Within(Seeds(v), |v|)
    ensures var p := Refined(v, e, Seeds(v), 0); Ordered(v, p) && Within(p, |v|) && p != [] && AllFit(v, e, p, |p|)
  {
    SeedsOrdered(v);
    hide Ordered, Seeds, Fits, Refined;
    var s := Seeds(v);
    OrderedInRange(v, s);
    RefinedFits(v, e, s, 0);
    var p := Refined(v, e, s, 0);
    assert s[..0] + p == p;
    OrderedInRange(v, p);
  }

  /** Unless the whole contour is one point, the vertices left are in ascending order, and every vertex of the
      contour is as near as allowed to the edge that replaces its arc. */
  lemma SimplifiedIsClose(v: seq<Vertex>, e: real)
    requires v != [] && e >= 0.0 && !OnePoint(v)
    ensures var r := Simplified(v, e); Ascends(r) && Within(r, |v|) && AllFit(v, e, r, |r|)
  {
    hide Ordered, Seeds, Fits, Refined, AllFit, Within, Ascends, InOrder, Rotate, OnePoint;
    SeedsRefined(v, e);
    var p := Refined(v, e, Seeds(v), 0);
    OrderedIn(v, p);
    var k := Smallest(p, |p|);
    RotatedAscends(|v|, p, k);
    RotatedFits(v, e, p, k);
  }

  lemma {:induction false} RefinedHas(v: seq<Vertex>, e: real, p: seq<nat>, i: nat, j: nat)
    requires Within(p, |v|) && i <= j < |p|
    ensures p[j] in Refined(v, e, p, i)
    decreases |p| - i
  {
    hide Keep, Arc, Refined;
    RefinedAt(v, e, p, i);
    if i < j {
      RefinedHas(v, e, p, i + 1, j);
    }
  }

  /** Every vertex the simplification starts from is left: the beginnings of walls, or the two corners. */
  lemma SeedsStay(v: seq<Vertex>, e: real, j: nat)
    requires v != [] && j < |Seeds(v)|
    ensures Seeds(v)[j] in Simplified(v, e)
  {
    hide Refined, Smallest, Seeds, Simplified, Within;
    SimplifiedIs(v, e);
    var p := Refined(v, e, Seeds(v), 0);
    var s := Smallest(p, |p|);
    RefinedHas(v, e, Seeds(v), 0, j);
    assert p == p[..s] + p[s..];
  }

  lemma OrderedIn(v: seq<Vertex>, p: seq<nat>)
    requires Ordered(v, p) && !OnePoint(v)
    ensures InOrder(|v|, p)
  {
  }

  lemma RotatedNext(p: seq<nat>, s: nat, j: nat)
    requires s < |p| && j < |p|
    ensures var k := Ring(|p|, s + j); Rotate(p, s)[j] == p[k] && Follower(Rotate(p, s), j) == Follower(p, k)
  {
  }

  lemma RotatedFits(v: seq<Vertex>, e: real, p: seq<nat>, s: nat)
    requires Within(p, |v|) && s < |p| && AllFit(v, e, p, |p|)
    ensures var r := Rotate(p, s); Within(r, |v|) && AllFit(v, e, r, |r|)
  {
    hide Fits, Arc, Rotate, Follower;
    var r := Rotate(p, s);
    forall j | 0 <= j < |r|
      ensures r[j] < |v| && Follower(r, j) < |v| && Fits(v, e, Arc(|v|, r[j], Follower(r, j)))
    {
      RotatedNext(p, s, j);
    }
  }
}
