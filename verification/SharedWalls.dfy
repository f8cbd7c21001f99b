/** The wall between two regions, simplified from both sides. */
module SharedWalls {
  import opened Basics
  import opened ContourModel

  // ----- One arc and its mirror -----

  predicate Mirrored(d: seq<real>, r: seq<real>) {
    |r| == |d| && forall k :: 0 <= k < |d| ==> r[k] == d[|d| - 1 - k]
  }

  /** The place that is `m` from the other end; nothing stays nothing. */
  function Opposite(n: nat, m: int): int {
    if m == -1 then -1 else n - 1 - m
  }

  /** Arc `b` of contour `u` passes the places of arc `a` of contour `v` in the opposite order. */
  predicate Opposed(v: seq<Vertex>, a: seq<nat>, u: seq<Vertex>, b: seq<nat>) {
    && Within(a, |v|) && Within(b, |u|) && |a| == |b| >= 2
    && forall k :: 0 <= k < |a| ==> OpposedAt(v, a, u, b, k)
  }

  predicate OpposedAt(v: seq<Vertex>, a: seq<nat>, u: seq<Vertex>, b: seq<nat>, k: nat)
    requires Within(a, |v|) && Within(b, |u|) && |a| == |b| && k < |a|
  {
    SamePlace(v[a[k]], u[b[|a| - 1 - k]])
  }

  lemma {:induction false} FarMirrored(d: seq<real>, r: seq<real>, k: nat)
    requires 0 < k < |d| && Mirrored(d, r)
    ensures FarDown(r, |d| - k) == Opposite(|d|, FarUp(d, k))
  {
    if k > 1 {
      FarMirrored(d, r, k - 1);
      assert r[|d| - k] == d[k - 1];
    }
  }

  lemma MirroredBack(d: seq<real>, r: seq<real>)
    requires Mirrored(d, r)
    ensures Mirrored(r, d)
  {
    forall k | 0 <= k < |d|
      ensures d[k] == r[|d| - 1 - k]
    {
    }
  }

  lemma FarBothWays(d: seq<real>, r: seq<real>)
    requires |d| >= 2 && Mirrored(d, r)
    ensures FarDown(r, 1) == Opposite(|d|, FarUp(d, |d| - 1)) && FarUp(r, |d| - 1) == Opposite(|d|, FarDown(d, 1))
  {
    hide Mirrored, FarUp, FarDown;
    FarMirrored(d, r, |d| - 1);
    MirroredBack(d, r);
    FarMirrored(r, d, |d| - 1);
  }

  lemma DeviationsMirrored(v: seq<Vertex>, a: seq<nat>, u: seq<Vertex>, b: seq<nat>)
    requires Opposed(v, a, u, b)
    ensures Mirrored(Deviations(v, a), Deviations(u, b))
  {
    hide DistancePtSeg;
    var n := |a|;
    var p, q := v[a[0]], v[a[n - 1]];
    assert OpposedAt(v, a, u, b, 0) && OpposedAt(v, a, u, b, n - 1);
    forall k | 0 <= k < n
      ensures Deviations(u, b)[k] == Deviations(v, a)[n - 1 - k]
    {
      var c := v[a[n - 1 - k]];
      assert OpposedAt(v, a, u, b, n - 1 - k);
      DistanceSymmetric(c.x as real, c.z as real, p.x as real, p.z as real, q.x as real, q.z as real);
    }
  }

  /** What a search of `d` finds: the first of the greatest numbers upwards, the last downwards. */
  function Found(d: seq<real>, upwards: bool): int
    requires |d| >= 2
  {
    if upwards then FarUp(d, |d| - 1) else FarDown(d, 1)
  }

  /** Places `j` and `k` share the greatest positive number between the ends. */
  predicate TiedAt(d: seq<real>, j: int, k: int) {
    && 0 < j < k < |d| - 1 && d[j] == d[k] > 0.0
    && forall i :: 0 < i < |d| - 1 ==> d[i] <= d[j]
  }

  predicate Tied(d: seq<real>) {
    exists j, k :: 0 < j < k < |d| - 1 && TiedAt(d, j, k)
  }

  lemma {:induction false} FarUpIsFirst(d: seq<real>, k: nat)
    requires k < |d|
    ensures forall j :: 0 < j < FarUp(d, k) ==> d[j] < d[FarUp(d, k)]
  {
    if k > 1 {
      FarUpIsFirst(d, k - 1);
    }
  }

  lemma {:induction false} FarDownIsLast(d: seq<real>, k: nat)
    requires 0 < k < |d|
    ensures forall j :: 0 < k <= FarDown(d, k) < j < |d| - 1 ==> d[j] < d[FarDown(d, k)]
    decreases |d| - k
  {
    if k < |d| - 1 {
      FarDownIsLast(d, k + 1);
    }
  }

  /** The direction of the search matters exactly for ties. */
  lemma DirectionMattersIffTied(d: seq<real>)
    requires |d| >= 2
    ensures Found(d, true) != Found(d, false) <==> Tied(d)
  {
    var up, down := Found(d, true), Found(d, false);
    FarUpIsFirst(d, |d| - 1);
    FarDownIsLast(d, 1);
    hide FarUp, FarDown;
    assert up != down ==> TiedAt(d, up, down);
  }

  /** The ends lie apart, or there is no tie. */
  predicate TwoSided(v: seq<Vertex>, arc: seq<nat>)
    requires Within(arc, |v|) && |arc| >= 2
  {
    !SamePlace(v[arc[0]], v[arc[|arc| - 1]]) || !Tied(Deviations(v, arc))
  }

  /** Which way each side searches. */
  lemma EndsMirrored(v: seq<Vertex>, a: seq<nat>, u: seq<Vertex>, b: seq<nat>)
    requires Opposed(v, a, u, b)
    ensures SamePlace(v[a[0]], v[a[|a| - 1]]) ==>
      !Before(v[a[0]], v[a[|a| - 1]]) && !Before(u[b[0]], u[b[|b| - 1]])
    ensures !SamePlace(v[a[0]], v[a[|a| - 1]]) ==>
      (Before(v[a[0]], v[a[|a| - 1]]) <==> !Before(u[b[0]], u[b[|b| - 1]]))
  {
    var n := |a|;
    assert OpposedAt(v, a, u, b, 0) && OpposedAt(v, a, u, b, n - 1);
  }

  lemma FoundMirrored(d: seq<real>, r: seq<real>, upwards: bool)
    requires |d| >= 2 && Mirrored(d, r)
    ensures Found(r, !upwards) == Opposite(|d|, Found(d, upwards))
  {
    FarBothWays(d, r);
  }

  lemma FarthestFound(v: seq<Vertex>, arc: seq<nat>)
    requires Within(arc, |v|) && |arc| >= 2
    ensures Farthest(v, arc) == Found(Deviations(v, arc), Before(v[arc[0]], v[arc[|arc| - 1]]))
  {
    hide Deviations, FarUp, FarDown;
  }

  lemma BothFind(v: seq<Vertex>, a: seq<nat>, u: seq<Vertex>, b: seq<nat>)
    requires Opposed(v, a, u, b)
    ensures var d := Deviations(v, a);
      if SamePlace(v[a[0]], v[a[|a| - 1]])
      then Farthest(v, a) == Found(d, false) && Farthest(u, b) == Opposite(|a|, Found(d, true))
      else Farthest(u, b) == Opposite(|a|, Farthest(v, a))
  {
    assert Within(a, |v|) && Within(b, |u|) && |a| == |b| >= 2;
    hide Opposed, Before, SamePlace, Deviations, Mirrored, Found, Farthest, Opposite, Deviation;
    EndsMirrored(v, a, u, b);
    FarthestFound(v, a);
    FarthestFound(u, b);
    DeviationsMirrored(v, a, u, b);
    var d, r := Deviations(v, a), Deviations(u, b);
    FoundMirrored(d, r, true);
    FoundMirrored(d, r, false);
  }

  /** What each side finds, in terms of one of them. */
  lemma FarthestMirrored(v: seq<Vertex>, a: seq<nat>, u: seq<Vertex>, b: seq<nat>)
    requires Opposed(v, a, u, b)
    ensures TwoSided(v, a) ==> Farthest(u, b) == Opposite(|a|, Farthest(v, a))
    ensures !TwoSided(v, a) ==>
      var d := Deviations(v, a);
      && Found(d, true) != Found(d, false) == Farthest(v, a)
      && Farthest(u, b) == Opposite(|a|, Found(d, true))
  {
    assert Within(a, |v|) && Within(b, |u|) && |a| == |b| >= 2;
    hide Opposed, SamePlace, Deviations, Deviation, Found, Farthest, Tied, Opposite;
    BothFind(v, a, u, b);
    DirectionMattersIffTied(Deviations(v, a));
  }

  /** When the same vertex is farthest from either side, which is what searching in the order of the coordinates is
      for. */
  lemma FarthestMirroredIff(v: seq<Vertex>, a: seq<nat>, u: seq<Vertex>, b: seq<nat>)
    requires Opposed(v, a, u, b)
    ensures Farthest(u, b) == Opposite(|a|, Farthest(v, a)) <==> TwoSided(v, a)
  {
    assert Within(a, |v|) && Within(b, |u|) && |a| == |b| >= 2;
    hide Opposed, TwoSided, Farthest, Found;
    FarthestMirrored(v, a, u, b);
  }

  /** Whether an arc is divided does not depend on the side. */
  lemma SplitsMirrored(v: seq<Vertex>, a: seq<nat>, u: seq<Vertex>, b: seq<nat>, e: real)
    requires Opposed(v, a, u, b)
    ensures Splits(u, e, b) <==> Splits(v, e, a)
  {
    assert Within(a, |v|) && Within(b, |u|) && |a| == |b| >= 2;
    hide Opposed, Farthest, Deviation, Deviations, Mirrored, GreatestAt;
    DeviationsMirrored(v, a, u, b);
    var d, r := Deviations(v, a), Deviations(u, b);
    FarthestIsGreatest(v, a);
    FarthestIsGreatest(u, b);
    MirroredBack(d, r);
    GreatestMirrored(d, r, Farthest(v, a), Farthest(u, b));
    GreatestMirrored(r, d, Farthest(u, b), Farthest(v, a));
  }

  /** Place `m` has the greatest positive number between the ends; -1 if there is none. */
  predicate GreatestAt(d: seq<real>, m: int) {
    && (m == -1 || 0 < m < |d| - 1) && (m != -1 ==> d[m] > 0.0)
    && forall k :: 0 < k < |d| - 1 ==> d[k] <= Best(d, m)
  }

  lemma FarthestIsGreatest(v: seq<Vertex>, arc: seq<nat>)
    requires Within(arc, |v|) && |arc| >= 2
    ensures GreatestAt(Deviations(v, arc), Farthest(v, arc))
  {
    hide Deviations, Farthest;
    FarthestIsFarthest(v, arc);
  }

  lemma GreatestMirrored(d: seq<real>, r: seq<real>, m: int, m': int)
    requires Mirrored(d, r) && GreatestAt(d, m) && GreatestAt(r, m')
    ensures m != -1 ==> m' != -1 && d[m] <= r[m']
  {
    if m != -1 {
      assert r[|d| - 1 - m] == d[m];
    }
  }

  // ----- The places that are kept -----

  /** Whether place `k` of an arc is kept. */
  predicate Kept(v: seq<Vertex>, e: real, arc: seq<nat>, k: nat)
    requires Within(arc, |v|) && |arc| >= 2 && k < |arc|
    decreases |arc|, 1
  {
    Splits(v, e, arc) && KeptIfDivided(v, e, arc, Farthest(v, arc), k)
  }

  /** Whether place `k` of an arc is kept when it is first divided at place `m`. */
  predicate KeptIfDivided(v: seq<Vertex>, e: real, arc: seq<nat>, m: int, k: nat)
    requires Within(arc, |v|) && |arc| >= 2 && k < |arc|
    decreases |arc|, 0
  {
    0 < m < |arc| - 1 &&
    (k == m || if k < m then Kept(v, e, arc[..m + 1], k) else Kept(v, e, arc[m..], k - m))
  }

  /** A vertex at some distance from the segment between the ends lies at neither end. */
  lemma FarIsApart(v: seq<Vertex>, arc: seq<nat>, m: nat)
    requires Within(arc, |v|) && 0 < m < |arc| - 1 && Deviations(v, arc)[m] > 0.0
    ensures !SamePlace(v[arc[m]], v[arc[0]]) && !SamePlace(v[arc[m]], v[arc[|arc| - 1]])
  {
    var c, a, b := v[arc[m]], v[arc[0]], v[arc[|arc| - 1]];
    DistanceAtEnds(a.x as real, a.z as real, b.x as real, b.z as real);
    hide DistancePtSeg;
  }

  lemma OpposedParts(v: seq<Vertex>, a: seq<nat>, u: seq<Vertex>, b: seq<nat>, m: nat)
    requires Opposed(v, a, u, b) && 0 < m < |a| - 1
    ensures Opposed(v, a[..m + 1], u, b[|a| - 1 - m..]) && Opposed(v, a[m..], u, b[..|a| - m])
  {
    hide SamePlace;
    var n := |a|;
    var a1, b1, a2, b2 := a[..m + 1], b[n - 1 - m..], a[m..], b[..n - m];
    forall k: nat | k <= m
      ensures OpposedAt(v, a1, u, b1, k)
    {
      assert OpposedAt(v, a, u, b, k);
    }
    forall k: nat | k < n - m
      ensures OpposedAt(v, a2, u, b2, k)
    {
      assert OpposedAt(v, a, u, b, m + k);
    }
  }

  predicate SameKept(v: seq<Vertex>, a: seq<nat>, u: seq<Vertex>, b: seq<nat>, e: real)
    requires Opposed(v, a, u, b)
  {
    forall k :: 0 <= k < |a| ==> SameKeptAt(v, a, u, b, e, k)
  }

  predicate SameKeptAt(v: seq<Vertex>, a: seq<nat>, u: seq<Vertex>, b: seq<nat>, e: real, k: nat)
    requires Opposed(v, a, u, b) && k < |a|
  {
    Kept(v, e, a, k) <==> Kept(u, e, b, |a| - 1 - k)
  }

  /** Divided at one vertex that is at neither end, both sides keep the same places. */
  lemma {:induction false} DividedMirrored(v: seq<Vertex>, a: seq<nat>, u: seq<Vertex>, b: seq<nat>, e: real,
                                           m: nat, k: nat)
    requires Opposed(v, a, u, b) && 0 < m < |a| - 1 && k < |a|
    requires !SamePlace(v[a[m]], v[a[0]]) && !SamePlace(v[a[m]], v[a[|a| - 1]])
    ensures KeptIfDivided(u, e, b, |a| - 1 - m, |a| - 1 - k) <==> KeptIfDivided(v, e, a, m, k)
    decreases |a|, 0
  {
    hide SamePlace, Kept, Splits;
    OpposedParts(v, a, u, b, m);
    var n := |a|;
    if k < m {
      SameSymmetric(v[a[m]], v[a[0]]);
      KeptMirrored(v, a[..m + 1], u, b[n - 1 - m..], e, k);
    } else if m < k {
      KeptMirrored(v, a[m..], u, b[..n - m], e, k - m);
    }
  }

  /** Both sides keep the same places if the ends lie apart, or the farthest vertex is not tied with another, or the arc
      is not divided at all. */
  lemma {:induction false} KeptMirrored(v: seq<Vertex>, a: seq<nat>, u: seq<Vertex>, b: seq<nat>, e: real, k: nat)
    requires Opposed(v, a, u, b) && k < |a| && (Splits(v, e, a) ==> TwoSided(v, a))
    ensures SameKeptAt(v, a, u, b, e, k)
    decreases |a|, 1
  {
    hide SamePlace, Splits, KeptIfDivided, TwoSided, Farthest, Deviations;
    SplitsMirrored(v, a, u, b, e);
    if Splits(v, e, a) {
      FarthestMirrored(v, a, u, b);
      SplitsSomewhere(v, e, a);
      FarthestIsFarthest(v, a);
      FarIsApart(v, a, Farthest(v, a));
      DividedMirrored(v, a, u, b, e, Farthest(v, a), k);
    }
  }

  lemma SameSymmetric(a: Vertex, b: Vertex)
    ensures SamePlace(a, b) <==> SamePlace(b, a)
  {
  }

  /** Dividing the arc first at the first or at the last of the tied vertices keeps the same places. */
  predicate SameDivided(v: seq<Vertex>, e: real, arc: seq<nat>)
    requires Within(arc, |v|) && |arc| >= 2
  {
    forall k :: 0 <= k < |arc| ==> SameDividedAt(v, e, arc, k)
  }

  predicate SameDividedAt(v: seq<Vertex>, e: real, arc: seq<nat>, k: nat)
    requires Within(arc, |v|) && |arc| >= 2 && k < |arc|
  {
    var d := Deviations(v, arc);
    KeptIfDivided(v, e, arc, Found(d, true), k) <==> KeptIfDivided(v, e, arc, Found(d, false), k)
  }

  /** Where a tie is broken differently, the one side divides first at the first of the tied vertices, the other at
      the last. */
  lemma TieMirrored(v: seq<Vertex>, a: seq<nat>, u: seq<Vertex>, b: seq<nat>, e: real, k: nat)
    requires Opposed(v, a, u, b) && k < |a| && Splits(v, e, a) && !TwoSided(v, a)
    ensures SameKeptAt(v, a, u, b, e, k) <==> SameDividedAt(v, e, a, k)
  {
    hide SamePlace, Splits, KeptIfDivided, TwoSided, Farthest, FarUp, FarDown, Deviations;
    SplitsMirrored(v, a, u, b, e);
    FarthestMirrored(v, a, u, b);
    SplitsSomewhere(v, e, a);
    SplitsSomewhere(u, e, b);
    var up := Found(Deviations(v, a), true);
    FarIsApart(v, a, up);
    DividedMirrored(v, a, u, b, e, up, k);
  }

  /** Exactly when both sides keep the same places of an arc. */
  lemma KeptMirroredIff(v: seq<Vertex>, a: seq<nat>, u: seq<Vertex>, b: seq<nat>, e: real)
    requires Opposed(v, a, u, b)
    ensures SameKept(v, a, u, b, e) <==> (Splits(v, e, a) && !TwoSided(v, a) ==> SameDivided(v, e, a))
  {
    hide Splits, TwoSided, SameKeptAt, SameDividedAt, SamePlace;
    if Splits(v, e, a) && !TwoSided(v, a) {
      forall k | 0 <= k < |a|
        ensures SameKeptAt(v, a, u, b, e, k) <==> SameDividedAt(v, e, a, k)
      {
        TieMirrored(v, a, u, b, e, k);
      }
    } else {
      forall k | 0 <= k < |a|
        ensures SameKeptAt(v, a, u, b, e, k)
      {
        KeptMirrored(v, a, u, b, e, k);
      }
    }
  }

  // ----- Two contours along one wall -----

  /** Only inner vertices are kept. */
  lemma {:induction false} KeepInside(v: seq<Vertex>, e: real, arc: seq<nat>, x: nat) returns (k: nat)
    requires Within(arc, |v|) && |arc| >= 2 && x in Keep(v, e, arc)
    ensures 0 < k < |arc| - 1 && arc[k] == x
    decreases |arc|
  {
    hide Splits, Farthest, Keep;
    var m := Farthest(v, arc);
    KeepAt(v, e, arc, m);
    assert Splits(v, e, arc);
    SplitsSomewhere(v, e, arc);
    k := m;
    if x in Keep(v, e, arc[..m + 1]) {
      k := KeepInside(v, e, arc[..m + 1], x);
    } else if x != arc[m] {
      k := KeepInside(v, e, arc[m..], x);
      k := m + k;
    }
  }

  lemma {:induction false} KeepIsKept(v: seq<Vertex>, e: real, arc: seq<nat>, k: nat)
    requires Within(arc, |v|) && |arc| >= 2 && k < |arc| && Distinct(arc)
    ensures arc[k] in Keep(v, e, arc) <==> Kept(v, e, arc, k)
    decreases |arc|
  {
    hide Splits, Farthest, Keep;
    var m := Farthest(v, arc);
    KeepAt(v, e, arc, m);
    if Splits(v, e, arc) {
      SplitsSomewhere(v, e, arc);
      var front, back := arc[..m + 1], arc[m..];
      if arc[k] in Keep(v, e, front) {
        var i := KeepInside(v, e, front, arc[k]);
        assert front[i] == arc[i];
      }
      if arc[k] in Keep(v, e, back) {
        var i := KeepInside(v, e, back, arc[k]);
        assert back[i] == arc[m + i];
      }
      if k < m {
        KeepIsKept(v, e, front, k);
      } else if m < k {
        KeepIsKept(v, e, back, k - m);
      }
    }
  }

  /** The arc from the `j`th wall change of a contour to the next. */
  function WallArc(v: seq<Vertex>, j: nat): (arc: seq<nat>)
    requires j < |Walls(v, |v|)|
    ensures Within(arc, |v|) && |arc| >= 2
  {
    var w := Walls(v, |v|);
    Arc(|v|, w[j], Follower(w, j))
  }

  /** Where the inner vertices of an arc lie. */
  lemma InnerWhere(n: nat, p: seq<nat>, i: nat, k: nat)
    requires Ascends(p) && Within(p, n) && |p| >= 2 && i < |p|
    requires 0 < k < |Arc(n, p[i], Follower(p, i))| - 1
    ensures var x := Arc(n, p[i], Follower(p, i))[k]; if i + 1 < |p| then p[i] < x < p[i + 1] else x > p[i] || x < p[0]
  {
  }

  /** The inner vertices of one arc are on no other and are no ends. */
  lemma InnerOnce(n: nat, p: seq<nat>, j: nat, l: nat, i: nat, k: nat)
    requires Ascends(p) && Within(p, n) && |p| >= 2 && i < |p| && j < |p|
    requires 0 < l < |Arc(n, p[j], Follower(p, j))| - 1
    requires k < |Arc(n, p[i], Follower(p, i))| - 1
    requires Arc(n, p[i], Follower(p, i))[k] == Arc(n, p[j], Follower(p, j))[l]
    ensures i == j && k > 0
  {
    InnerWhere(n, p, j, l);
    if k > 0 {
      InnerWhere(n, p, i, k);
    }
    hide Arc;
  }

  /** The edge from place `j` of a list of indices on has vertex `x`. */
  predicate OnEdge(v: seq<Vertex>, e: real, p: seq<nat>, j: nat, x: nat)
    requires Within(p, |v|) && j < |p|
  {
    x == p[j] || x in Keep(v, e, Arc(|v|, p[j], Follower(p, j)))
  }

  lemma {:induction false} RefinedOnEdge(v: seq<Vertex>, e: real, p: seq<nat>, i: nat, x: nat) returns (j: nat)
    requires Within(p, |v|) && i <= |p| && x in Refined(v, e, p, i)
    ensures i <= j < |p| && OnEdge(v, e, p, j, x)
    decreases |p| - i
  {
    hide Keep, Arc;
    if OnEdge(v, e, p, i, x) {
      j := i;
    } else {
      j := RefinedOnEdge(v, e, p, i + 1, x);
    }
  }

  lemma {:induction false} OnEdgeRefined(v: seq<Vertex>, e: real, p: seq<nat>, i: nat, j: nat, x: nat)
    requires Within(p, |v|) && i <= j < |p| && OnEdge(v, e, p, j, x)
    ensures x in Refined(v, e, p, i)
    decreases |p| - i
  {
    hide Keep, Arc, Refined, Within;
    RefinedAt(v, e, p, i);
    if i < j {
      OnEdgeRefined(v, e, p, i + 1, j, x);
    }
  }

  lemma SimplifiedHas(v: seq<Vertex>, e: real, x: nat)
    requires v != [] && Within(Seeds(v), |v|)
    ensures x in Simplified(v, e) <==> x in Refined(v, e, Seeds(v), 0)
  {
    hide Refined, Smallest, Simplified, Seeds;
    SimplifiedIs(v, e);
    var p := Refined(v, e, Seeds(v), 0);
    var s := Smallest(p, |p|);
    assert p == p[..s] + p[s..];
  }

  lemma WallArcDistinct(v: seq<Vertex>, j: nat)
    requires j < |Walls(v, |v|)| && |Walls(v, |v|)| >= 2
    ensures Distinct(WallArc(v, j))
  {
    hide Walls;
  }

  /** A vertex inside a wall is left exactly if it is kept there. */
  lemma LeftIffKept(v: seq<Vertex>, e: real, j: nat, k: nat)
    requires j < |Walls(v, |v|)| && |Walls(v, |v|)| >= 2 && 0 < k < |WallArc(v, j)| - 1
    ensures WallArc(v, j)[k] in Simplified(v, e) <==> Kept(v, e, WallArc(v, j), k)
  {
    hide Refined, Simplified, Keep, Kept, Walls, Arc;
    var w, arc := Walls(v, |v|), WallArc(v, j);
    var x := arc[k];
    SimplifiedHas(v, e, x);
    WallArcDistinct(v, j);
    KeepIsKept(v, e, arc, k);
    if x in Refined(v, e, w, 0) {
      var i := RefinedOnEdge(v, e, w, 0, x);
      var l := 0;
      if x != w[i] {
        l := KeepInside(v, e, Arc(|v|, w[i], Follower(w, i)), x);
      }
      InnerOnce(|v|, w, j, k, i, l);
    }
    if x in Keep(v, e, arc) {
      OnEdgeRefined(v, e, w, 0, j, x);
    }
  }

  predicate IsWall(v: seq<Vertex>, j: nat) {
    v != [] && j < |Walls(v, |v|)| && |Walls(v, |v|)| >= 2
  }

  /** Of an arc and its mirror, the same vertices are left. */
  predicate SameLeft(v: seq<Vertex>, a: seq<nat>, u: seq<Vertex>, b: seq<nat>, e: real)
    requires Opposed(v, a, u, b) && v != [] && u != []
  {
    forall k :: 0 <= k < |a| ==> SameLeftAt(v, a, u, b, e, k)
  }

  predicate SameLeftAt(v: seq<Vertex>, a: seq<nat>, u: seq<Vertex>, b: seq<nat>, e: real, k: nat)
    requires Opposed(v, a, u, b) && v != [] && u != [] && k < |a|
  {
    a[k] in Simplified(v, e) <==> b[|a| - 1 - k] in Simplified(u, e)
  }

  lemma WallEndsStay(v: seq<Vertex>, e: real, j: nat)
    requires IsWall(v, j)
    ensures WallArc(v, j)[0] in Simplified(v, e)
    ensures WallArc(v, j)[|WallArc(v, j)| - 1] in Simplified(v, e)
  {
    hide Simplified, Walls;
    var w := Walls(v, |v|);
    assert Seeds(v) == w;
    SeedsStay(v, e, j);
    SeedsStay(v, e, if j + 1 < |w| then j + 1 else 0);
  }

  lemma EndsNotKept(v: seq<Vertex>, e: real, arc: seq<nat>, k: nat)
    requires Within(arc, |v|) && |arc| >= 2 && k < |arc| && (k == 0 || k == |arc| - 1)
    ensures !Kept(v, e, arc, k)
    decreases |arc|
  {
    hide Splits, Farthest;
    var m := Farthest(v, arc);
    if 0 < m < |arc| - 1 {
      if k < m {
        EndsNotKept(v, e, arc[..m + 1], k);
      } else {
        EndsNotKept(v, e, arc[m..], k - m);
      }
    }
  }

  lemma LeftAtIffKeptAt(v: seq<Vertex>, j: nat, u: seq<Vertex>, i: nat, e: real, k: nat)
    requires IsWall(v, j) && IsWall(u, i) && Opposed(v, WallArc(v, j), u, WallArc(u, i)) && k < |WallArc(v, j)|
    ensures SameLeftAt(v, WallArc(v, j), u, WallArc(u, i), e, k) <==>
            SameKeptAt(v, WallArc(v, j), u, WallArc(u, i), e, k)
  {
    hide Simplified, Walls, WallArc, Kept, SamePlace;
    var a, b := WallArc(v, j), WallArc(u, i);
    if 0 < k < |a| - 1 {
      LeftIffKept(v, e, j, k);
      LeftIffKept(u, e, i, |a| - 1 - k);
    } else {
      WallEndsStay(v, e, j);
      WallEndsStay(u, e, i);
      EndsNotKept(v, e, a, k);
      EndsNotKept(u, e, b, |a| - 1 - k);
    }
  }

  /** When two contours that pass the same wall, each from one change of walls to the next, are left with the same
      vertices of it. */
  lemma SharedWallIff(v: seq<Vertex>, j: nat, u: seq<Vertex>, i: nat, e: real)
    requires IsWall(v, j) && IsWall(u, i) && Opposed(v, WallArc(v, j), u, WallArc(u, i))
    ensures var a := WallArc(v, j);
      SameLeft(v, a, u, WallArc(u, i), e) <==> (Splits(v, e, a) && !TwoSided(v, a) ==> SameDivided(v, e, a))
  {
    hide Walls, WallArc, Splits, TwoSided, SameDivided, SameLeftAt, SameKeptAt;
    var a, b := WallArc(v, j), WallArc(u, i);
    KeptMirroredIff(v, a, u, b, e);
    forall k | 0 <= k < |a|
      ensures SameLeftAt(v, a, u, b, e, k) <==> SameKeptAt(v, a, u, b, e, k)
    {
      LeftAtIffKeptAt(v, j, u, i, e, k);
    }
  }

  /** The part of a wall from one cut to the next. */
  function Part(a: seq<nat>, cuts: seq<nat>, t: nat): seq<nat>
    requires t + 1 < |cuts| && cuts[t] < cuts[t + 1] < |a|
  {
    a[cuts[t]..cuts[t + 1] + 1]
  }

  predicate PieceOk(v: seq<Vertex>, a: seq<nat>, u: seq<Vertex>, cuts: seq<nat>, walls: seq<nat>, t: nat) {
    && t < |walls| && t + 1 < |cuts| && cuts[t] < cuts[t + 1] < |a| && IsWall(u, walls[t])
    && Opposed(v, Part(a, cuts, t), u, WallArc(u, walls[t]))
  }

  /** Contour `u` passes the mirror of a wall of `v` as several walls of its own, leaving it in between. */
  predicate InPieces(v: seq<Vertex>, j: nat, u: seq<Vertex>, cuts: seq<nat>, walls: seq<nat>) {
    && IsWall(v, j) && |cuts| == |walls| + 1 >= 2 && cuts[0] == 0 && cuts[|walls|] == |WallArc(v, j)| - 1
    && forall t :: 0 <= t < |walls| ==> PieceOk(v, WallArc(v, j), u, cuts, walls, t)
  }

  predicate AllSameLeft(v: seq<Vertex>, j: nat, u: seq<Vertex>, cuts: seq<nat>, walls: seq<nat>, e: real)
    requires InPieces(v, j, u, cuts, walls)
  {
    forall t :: 0 <= t < |walls| ==>
      PieceOk(v, WallArc(v, j), u, cuts, walls, t) &&
      SameLeft(v, Part(WallArc(v, j), cuts, t), u, WallArc(u, walls[t]), e)
  }

  /** The same vertices can only be left if the one side keeps each vertex at which the other leaves the wall. */
  lemma CutsMustStay(v: seq<Vertex>, j: nat, u: seq<Vertex>, cuts: seq<nat>, walls: seq<nat>, e: real, t: nat)
    requires InPieces(v, j, u, cuts, walls) && AllSameLeft(v, j, u, cuts, walls, e) && t < |walls|
    ensures cuts[t] < |WallArc(v, j)| && WallArc(v, j)[cuts[t]] in Simplified(v, e)
  {
    hide Simplified, Walls, WallArc, SamePlace;
    var a, b := WallArc(v, j), WallArc(u, walls[t]);
    assert PieceOk(v, a, u, cuts, walls, t);
    WallEndsStay(u, e, walls[t]);
    assert SameLeft(v, Part(a, cuts, t), u, b, e);
    assert SameLeftAt(v, Part(a, cuts, t), u, b, e, 0);
  }

  /** Of a wall that the one side does not divide, the same vertices are left if and only if the other side passes it
      without a change of walls. */
  lemma UndividedWallIff(v: seq<Vertex>, j: nat, u: seq<Vertex>, cuts: seq<nat>, walls: seq<nat>, e: real)
    requires InPieces(v, j, u, cuts, walls) && !Splits(v, e, WallArc(v, j))
    ensures AllSameLeft(v, j, u, cuts, walls, e) <==> |walls| == 1
  {
    hide Simplified, Walls, WallArc, Splits, TwoSided, SameDivided, Opposed, SameLeft;
    var a := WallArc(v, j);
    assert PieceOk(v, a, u, cuts, walls, 0);
    if |walls| == 1 {
      assert Part(a, cuts, 0) == a;
      SharedWallIff(v, j, u, walls[0], e);
    } else {
      assert PieceOk(v, a, u, cuts, walls, 1);
      LeftIffKept(v, e, j, cuts[1]);
      if AllSameLeft(v, j, u, cuts, walls, e) {
        CutsMustStay(v, j, u, cuts, walls, e, 1);
      }
    }
  }

  lemma NoWall(v: seq<Vertex>, k: nat)
    requires 0 < k <= |v| && v[Ring(|v|, k)].r == v[k - 1].r
    ensures Walls(v, k) == Walls(v, k - 1)
  {
  }

  lemma NewWall(v: seq<Vertex>, k: nat)
    requires 0 < k <= |v| && v[Ring(|v|, k)].r != v[k - 1].r
    ensures Walls(v, k) == Walls(v, k - 1) + [k - 1]
  {
  }

  // ----- A layer of 6 x 6 cells whose first rows begin with regions 1 2 2, 2 3 2 and 2 2 2 -----

  predicate Rectilinear(v: seq<Vertex>) {
    forall k :: 0 <= k < |v| ==> var c, d := v[k], v[Ring(|v|, k + 1)]; c.x == d.x || c.z == d.z
  }

  /** The contours of regions 1 and 2. */
  predicate AreCornerAndRing(v: seq<Vertex>, u: seq<Vertex>) {
    && |v| == 4 && v[0] == Vertex(0, 0, 0, 255) && v[1] == Vertex(0, 0, 1, 255) && v[2] == Vertex(1, 0, 1, 2)
    && v[3] == Vertex(1, 0, 0, 2)
    && |u| == 10 && u[0] == Vertex(1, 0, 0, 255) && u[1] == Vertex(1, 0, 1, 1) && u[2] == Vertex(2, 0, 1, 3)
    && u[3] == Vertex(2, 0, 2, 3) && u[4] == Vertex(1, 0, 2, 3) && u[5] == Vertex(1, 0, 1, 3)
    && u[6] == Vertex(0, 0, 1, 1) && u[7] == Vertex(0, 0, 3, 255) && u[8] == Vertex(3, 0, 3, 255)
    && u[9] == Vertex(3, 0, 0, 255)
  }

  lemma CornerWalls(v: seq<Vertex>, u: seq<Vertex>)
    requires AreCornerAndRing(v, u)
    ensures Walls(v, |v|) == [1, 3] && Walls(u, |u|) == [0, 1, 5, 6]
  {
    assert Walls(v, 0) == Walls(u, 0) == [];
    hide Walls;
    NoWall(v, 1);
    NewWall(v, 2);
    NoWall(v, 3);
    NewWall(v, 4);
    NewWall(u, 1);
    NewWall(u, 2);
    NoWall(u, 3);
    NoWall(u, 4);
    NoWall(u, 5);
    NewWall(u, 6);
    NewWall(u, 7);
    NoWall(u, 8);
    NoWall(u, 9);
    NoWall(u, 10);
  }

  lemma CornerDistance(v: seq<Vertex>, u: seq<Vertex>)
    requires AreCornerAndRing(v, u)
    ensures Deviation(v, 1, 3, 2) <= 0.5
  {
    DistanceIsLeast(1.0, 1.0, 0.0, 1.0, 1.0, 0.0, 0.5);
    hide DistancePtSeg;
  }

  lemma CornerArcs(v: seq<Vertex>, u: seq<Vertex>)
    requires AreCornerAndRing(v, u)
    ensures IsWall(v, 0) && IsWall(u, 0) && IsWall(u, 2)
    ensures WallArc(v, 0) == [1, 2, 3] && WallArc(u, 0) == [0, 1] && WallArc(u, 2) == [5, 6]
  {
    CornerWalls(v, u);
    hide Walls, Arc;
  }

  lemma OpposedPair(v: seq<Vertex>, a: seq<nat>, u: seq<Vertex>, b: seq<nat>)
    requires |a| == |b| == 2 && a[0] < |v| && a[1] < |v| && b[0] < |u| && b[1] < |u|
    requires SamePlace(v[a[0]], u[b[1]]) && SamePlace(v[a[1]], u[b[0]])
    ensures Opposed(v, a, u, b)
  {
    hide SamePlace;
  }

  lemma CornerPieces(v: seq<Vertex>, u: seq<Vertex>, cuts: seq<nat>, walls: seq<nat>)
    requires AreCornerAndRing(v, u) && cuts == [0, 1, 2] && walls == [2, 0]
    ensures InPieces(v, 0, u, cuts, walls)
  {
    CornerArcs(v, u);
    hide WallArc, IsWall, Opposed;
    var a := WallArc(v, 0);
    OpposedPair(v, Part(a, cuts, 0), u, WallArc(u, 2));
    OpposedPair(v, Part(a, cuts, 1), u, WallArc(u, 0));
    assert PieceOk(v, a, u, cuts, walls, 0) && PieceOk(v, a, u, cuts, walls, 1);
  }

  /** A wall of which different vertices are left: the one side drops the corner at which the other leaves the wall to
      go around a third region. */
  lemma CornerLeftOnOneSide(v: seq<Vertex>, u: seq<Vertex>, cuts: seq<nat>, walls: seq<nat>, e: real)
    requires AreCornerAndRing(v, u) && cuts == [0, 1, 2] && walls == [2, 0] && e == 1.3 * 1.3
    ensures Rectilinear(v) && Rectilinear(u)
    ensures InPieces(v, 0, u, cuts, walls) && !AllSameLeft(v, 0, u, cuts, walls, e)
    ensures SamePlace(v[2], u[1]) && 2 !in Simplified(v, e) && 1 in Simplified(u, e)
  {
    hide Simplified, Walls, WallArc, Splits, InPieces, AllSameLeft, Deviation;
    CornerPieces(v, u, cuts, walls);
    CornerArcs(v, u);
    CornerDistance(v, u);
    FitsIffNotSplit(v, e, WallArc(v, 0));
    UndividedWallIff(v, 0, u, cuts, walls, e);
    CornerWalls(v, u);
    LeftIffKept(v, e, 0, 1);
    SeedsStay(u, e, 1);
  }
}
