/**
 What the integer tests of the triangulation say of the plane: segments that meet, and the cone at a corner.
 A point on a segment is told by the share `i / n` of the way along it, all coordinates times `n`.
 */
module DiagonalGeometry {
  import opened Basics
  import opened PolyGeometry
  import opened Triangulation

  /** `n` times the point that is `i / n` of the way from `a` to `b`. */
  function Along(a: Point, b: Point, i: nat, n: nat): Point {
    (n * a.0 + i * (b.0 - a.0), n * a.1 + i * (b.1 - a.1))
  }

  /** `c` is a point of the closed segment. */
  ghost predicate IsOn(a: Point, b: Point, c: Point) {
    exists i: nat, n: nat :: i <= n && 0 < n && Along(a, b, i, n) == (n * c.0, n * c.1)
  }

  /** `i / n` of the way from `a` to `b` is where `j / n` of the way from `c` to `d` is. */
  predicate MeetAt(a: Point, b: Point, c: Point, d: Point, i: nat, j: nat, n: nat) {
    i <= n && j <= n && 0 < n && Along(a, b, i, n) == Along(c, d, j, n)
  }

  /** The closed segments have a point in common. */
  ghost predicate Meet(a: Point, b: Point, c: Point, d: Point) {
    exists i: nat, j: nat, n: nat :: MeetAt(a, b, c, d, i, j, n)
  }

  /** The segments have a point in common that is an end of neither. */
  ghost predicate MeetInside(a: Point, b: Point, c: Point, d: Point) {
    exists i: nat, j: nat, n: nat :: MeetAt(a, b, c, d, i, j, n) && 0 < i < n && 0 < j < n
  }

  function Abs(x: int): (r: nat) {
    if x < 0 then -x else x
  }

  lemma ProductSign(x: int, y: int)
    ensures (x > 0 && y > 0) || (x < 0 && y < 0) ==> x * y > 0
    ensures (x > 0 && y < 0) || (x < 0 && y > 0) ==> x * y < 0
    ensures x == 0 || y == 0 <==> x * y == 0
  {
  }

  // ----- Points on a segment -----

  /** A coordinate between two others, by its share of the way. */
  lemma ShareIsBetween(a: int, b: int, c: int, i: nat, n: nat)
    requires i <= n && 0 < n && n * a + i * (b - a) == n * c
    ensures a <= c <= b || b <= c <= a
  {
    assert n * (c - a) == i * (b - a) && n * (c - b) == (n - i) * (a - b);
    ProductSign(n, c - a);
    ProductSign(n, c - b);
    ProductSign(i, b - a);
    ProductSign(n - i, a - b);
  }

  lemma ShareOfSide(a: Point, b: Point, c: Point, x: int, y: int, x': int, y': int)
    requires (x, y) == (b.0 - a.0, b.1 - a.1) && (x', y') == (c.0 - a.0, c.1 - a.1) && Collinear(a, b, c)
    ensures x * y' == x' * y
  {
  }

  /** A collinear point whose coordinate lies between the ends is on the segment. */
  lemma BetweenIsOn(a: Point, b: Point, c: Point)
    requires Between(a, b, c) && a != b
    ensures IsOn(a, b, c)
  {
    var x, y, x', y' := b.0 - a.0, b.1 - a.1, c.0 - a.0, c.1 - a.1;
    ShareOfSide(a, b, c, x, y, x', y');
    var i, n := if x != 0 then x' else y', if x != 0 then x else y;
    var s := if n > 0 then 1 else -1;
    assert s * i >= 0 && s * n > 0 && s * i <= s * n;
    assert (s * n) * a.0 + (s * i) * x == (s * n) * c.0 by {
      assert n * x' == i * x;
      assert s * (n * x') == s * (i * x);
    }
    assert (s * n) * a.1 + (s * i) * y == (s * n) * c.1 by {
      assert n * y' == i * y;
      assert s * (n * y') == s * (i * y);
    }
    assert Along(a, b, s * i, s * n) == ((s * n) * c.0, (s * n) * c.1);
  }

  lemma CollinearByShare(x: int, y: int, x': int, y': int, i: int, n: int)
    requires n * x' == i * x && n * y' == i * y && n != 0
    ensures x * y' == x' * y
  {
    assert n * (x * y' - x' * y) == x * (n * y') - y * (n * x');
    assert x * (i * y) == y * (i * x);
    ProductSign(n, x * y' - x' * y);
  }

  lemma OnIsBetween(a: Point, b: Point, c: Point, i: nat, n: nat)
    requires i <= n && 0 < n && Along(a, b, i, n) == (n * c.0, n * c.1)
    ensures Between(a, b, c)
  {
    ShareIsBetween(a.0, b.0, c.0, i, n);
    ShareIsBetween(a.1, b.1, c.1, i, n);
    assert n * (c.0 - a.0) == i * (b.0 - a.0) && n * (c.1 - a.1) == i * (b.1 - a.1);
    CollinearByShare(b.0 - a.0, b.1 - a.1, c.0 - a.0, c.1 - a.1, i, n);
  }

  /** A point is between two others exactly if it is on the segment. */
  lemma BetweenIff(a: Point, b: Point, c: Point)
    requires a != b
    ensures Between(a, b, c) <==> IsOn(a, b, c)
  {
    if Between(a, b, c) {
      BetweenIsOn(a, b, c);
    } else if IsOn(a, b, c) {
      var i: nat, n: nat :| i <= n && 0 < n && Along(a, b, i, n) == (n * c.0, n * c.1);
      OnIsBetween(a, b, c, i, n);
    }
  }

  // ----- Segments that cross -----

  lemma AreasAsCrosses(a: Point, b: Point, c: Point, d: Point)
    ensures var px, py, qx, qy, rx, ry := b.0 - a.0, b.1 - a.1, d.0 - c.0, d.1 - c.1, c.0 - a.0, c.1 - a.1;
      && Area2(a, b, c) == px * ry - rx * py
      && Area2(c, d, a) == rx * qy - ry * qx
      && Area2(c, d, a) - Area2(c, d, b) == px * qy - py * qx
      && Area2(a, b, d) - Area2(a, b, c) == px * qy - py * qx
  {
  }

  /** On which side of a line a point of a segment is follows from its ends. */
  lemma AreaAlong(a: Point, b: Point, c: Point, d: Point, i: nat, j: nat, n: nat)
    requires MeetAt(a, b, c, d, i, j, n)
    ensures (n - j) * Area2(a, b, c) + j * Area2(a, b, d) == 0
  {
    AreasAsCrosses(a, b, c, d);
    MeetShares(a, b, c, d, i, j, n);
    hide Area2, MeetAt;
    Combine(b.0 - a.0, b.1 - a.1, c.0 - a.0, c.1 - a.1, d.0 - c.0, d.1 - c.1, i, j, n);
    Weighted(n, j, Area2(a, b, c), Area2(a, b, d));
  }

  lemma MeetShares(a: Point, b: Point, c: Point, d: Point, i: nat, j: nat, n: nat)
    requires MeetAt(a, b, c, d, i, j, n)
    ensures n * (c.0 - a.0) + j * (d.0 - c.0) == i * (b.0 - a.0)
    ensures n * (c.1 - a.1) + j * (d.1 - c.1) == i * (b.1 - a.1)
  {
  }

  lemma Weighted(n: int, j: int, x: int, y: int)
    ensures (n - j) * x + j * y == n * x + j * (y - x)
  {
  }

  lemma Combine(x: int, y: int, rx: int, ry: int, qx: int, qy: int, i: int, j: int, n: int)
    requires n * rx + j * qx == i * x && n * ry + j * qy == i * y
    ensures n * (x * ry - rx * y) + j * (x * qy - y * qx) == 0
  {
    assert x * (n * ry + j * qy) == x * (i * y);
    assert y * (n * rx + j * qx) == y * (i * x);
  }

  lemma MeetAtMirror(a: Point, b: Point, c: Point, d: Point, i: nat, j: nat, n: nat)
    ensures MeetAt(a, b, c, d, i, j, n) ==> MeetAt(c, d, a, b, j, i, n)
  {
  }

  lemma WeightedSigns(p: int, q: int, x: int, y: int)
    requires p >= 0 && q >= 0 && p + q > 0 && p * x + q * y == 0 && x != 0 && y != 0
    ensures (x < 0) != (y < 0) && p > 0 && q > 0
  {
    ProductSign(p, x);
    ProductSign(q, y);
  }

  lemma MeetsProperly(a: Point, b: Point, c: Point, d: Point, i: nat, j: nat, n: nat)
    requires MeetAt(a, b, c, d, i, j, n)
    requires !Collinear(a, b, c) && !Collinear(a, b, d) && !Collinear(c, d, a) && !Collinear(c, d, b)
    ensures IntersectProp(a, b, c, d) && 0 < i < n && 0 < j < n
  {
    AreaAlong(a, b, c, d, i, j, n);
    MeetAtMirror(a, b, c, d, i, j, n);
    AreaAlong(c, d, a, b, j, i, n);
    WeightedSigns(n - j, j, Area2(a, b, c), Area2(a, b, d));
    WeightedSigns(n - i, i, Area2(c, d, a), Area2(c, d, b));
  }

  /** Cramer's rule. */
  lemma Crossing(px: int, py: int, qx: int, qy: int, rx: int, ry: int)
    ensures (rx * qy - ry * qx) * px - (px * qy - py * qx) * rx == (rx * py - ry * px) * qx
    ensures (rx * qy - ry * qx) * py - (px * qy - py * qx) * ry == (rx * py - ry * px) * qy
  {
  }

  lemma OppositeSigns(x: int, y: int)
    requires x != 0 && y != 0 && (x < 0) != (y < 0)
    ensures 0 < Abs(x) < Abs(x - y)
  {
  }

  /** Where two crossing segments meet, from the areas at their ends. */
  lemma ProperMeets(a: Point, b: Point, c: Point, d: Point)
    requires IntersectProp(a, b, c, d)
    ensures var x, y := Area2(c, d, a), Area2(a, b, c);
      var n := Abs(x - Area2(c, d, b));
      MeetAt(a, b, c, d, Abs(x), Abs(y), n) && 0 < Abs(x) < n && 0 < Abs(y) < n
  {
    var x, x', y, y' := Area2(c, d, a), Area2(c, d, b), Area2(a, b, c), Area2(a, b, d);
    OppositeSigns(x, x');
    OppositeSigns(y, y');
    AreasAsCrosses(a, b, c, d);
    SameWay(a, b, c, d);
    hide Area2, Collinear;
    hide Left, MeetAt;
    var n := x - x';
    if n > 0 {
      assert x > 0 && y < 0;
      ShareMeets(a, b, c, d, x, -y, n);
    } else {
      assert x < 0 && y > 0;
      Negated(n, x, y, a.0, b.0, c.0, d.0);
      Negated(n, x, y, a.1, b.1, c.1, d.1);
      ShareMeets(a, b, c, d, -x, y, -n);
    }
  }

  lemma Negated(n: int, x: int, y: int, a: int, b: int, c: int, d: int)
    requires n * a + x * (b - a) == n * c + (-y) * (d - c)
    ensures (-n) * a + (-x) * (b - a) == (-n) * c + y * (d - c)
  {
  }

  lemma ShareMeets(a: Point, b: Point, c: Point, d: Point, i: nat, j: nat, n: nat)
    requires i <= n && j <= n && 0 < n
    requires n * a.0 + i * (b.0 - a.0) == n * c.0 + j * (d.0 - c.0)
    requires n * a.1 + i * (b.1 - a.1) == n * c.1 + j * (d.1 - c.1)
    ensures MeetAt(a, b, c, d, i, j, n)
  {
  }

  lemma SameWay(a: Point, b: Point, c: Point, d: Point)
    ensures var x, y, n := Area2(c, d, a), Area2(a, b, c), Area2(c, d, a) - Area2(c, d, b);
      && n * a.0 + x * (b.0 - a.0) == n * c.0 + (-y) * (d.0 - c.0)
      && n * a.1 + x * (b.1 - a.1) == n * c.1 + (-y) * (d.1 - c.1)
  {
    AreasAsCrosses(a, b, c, d);
    Crossing(b.0 - a.0, b.1 - a.1, d.0 - c.0, d.1 - c.1, c.0 - a.0, c.1 - a.1);
    hide Area2;
  }

  /** Segments cross properly exactly if they meet inside both and are not on one line. */
  lemma IntersectPropIff(a: Point, b: Point, c: Point, d: Point)
    ensures IntersectProp(a, b, c, d) <==>
      && MeetInside(a, b, c, d)
      && !(Collinear(a, b, c) && Collinear(a, b, d)) && !(Collinear(c, d, a) && Collinear(c, d, b))
  {
    if IntersectProp(a, b, c, d) {
      ProperMeets(a, b, c, d);
    } else if MeetInside(a, b, c, d) {
      var i: nat, j: nat, n: nat :| MeetAt(a, b, c, d, i, j, n) && 0 < i < n && 0 < j < n;
      AreaAlong(a, b, c, d, i, j, n);
      MeetAtMirror(a, b, c, d, i, j, n);
      AreaAlong(c, d, a, b, j, i, n);
      ProductSign(n - j, Area2(a, b, c));
      ProductSign(j, Area2(a, b, d));
      ProductSign(n - i, Area2(c, d, a));
      ProductSign(i, Area2(c, d, b));
      if !(Collinear(a, b, c) && Collinear(a, b, d)) && !(Collinear(c, d, a) && Collinear(c, d, b)) {
        MeetsProperly(a, b, c, d, i, j, n);
      }
    }
  }

  // ----- Segments that touch -----

  lemma AlongEnds(a: Point, b: Point, n: nat)
    ensures Along(a, b, 0, n) == (n * a.0, n * a.1) && Along(a, b, n, n) == (n * b.0, n * b.1)
  {
  }

  lemma OnMeets(a: Point, b: Point, c: Point, d: Point)
    ensures IsOn(a, b, c) ==> Meet(a, b, c, d)
    ensures IsOn(a, b, d) ==> Meet(a, b, c, d)
  {
    if IsOn(a, b, c) {
      var i: nat, n: nat :| i <= n && 0 < n && Along(a, b, i, n) == (n * c.0, n * c.1);
      AlongEnds(c, d, n);
      hide Along;
      assert MeetAt(a, b, c, d, i, 0, n);
    }
    if IsOn(a, b, d) {
      var i: nat, n: nat :| i <= n && 0 < n && Along(a, b, i, n) == (n * d.0, n * d.1);
      AlongEnds(c, d, n);
      hide Along;
      assert MeetAt(a, b, c, d, i, n, n);
    }
  }

  lemma MeetMirror(a: Point, b: Point, c: Point, d: Point)
    ensures Meet(a, b, c, d) ==> Meet(c, d, a, b)
  {
    if Meet(a, b, c, d) {
      var i: nat, j: nat, n: nat :| MeetAt(a, b, c, d, i, j, n);
      MeetAtMirror(a, b, c, d, i, j, n);
    }
  }

  /** If one end of a segment is on the other's line, and the other end is not, they can only meet there. */
  lemma MeetsAtEnd(a: Point, b: Point, c: Point, d: Point, i: nat, j: nat, n: nat)
    requires MeetAt(a, b, c, d, i, j, n)
    ensures Collinear(a, b, c) && !Collinear(a, b, d) ==> Between(a, b, c)
    ensures !Collinear(a, b, c) && Collinear(a, b, d) ==> Between(a, b, d)
  {
    AreaAlong(a, b, c, d, i, j, n);
    ProductSign(n - j, Area2(a, b, c));
    ProductSign(j, Area2(a, b, d));
    AlongEnds(c, d, n);
    hide Area2, Along, Between;
    if Collinear(a, b, c) && !Collinear(a, b, d) {
      assert j == 0;
      OnIsBetween(a, b, c, i, n);
    }
    if !Collinear(a, b, c) && Collinear(a, b, d) {
      assert j == n;
      OnIsBetween(a, b, d, i, n);
    }
  }

  /** Intervals with a point in common: an end of one is in the other. */
  lemma IntervalsMeet(a: int, b: int, c: int, d: int, i: nat, j: nat, n: nat)
    requires i <= n && j <= n && 0 < n && n * a + i * (b - a) == n * c + j * (d - c)
    ensures (a <= c <= b || b <= c <= a) || (a <= d <= b || b <= d <= a)
         || ((c <= a <= d || d <= a <= c) && c != d)
  {
    ShareBounds(a, b, i, n);
    ShareBounds(c, d, j, n);
    if a < c && a < d && b < c && b < d {
      Scaled(if a < b then b else a, if c < d then c else d, n);
    }
    if a > c && a > d && b > c && b > d {
      Scaled(if c < d then d else c, if a < b then a else b, n);
    }
  }

  lemma Scaled(x: int, y: int, n: nat)
    requires 0 < n && x < y
    ensures n * x < n * y
  {
    ProductSign(n, y - x);
    assert n * (y - x) == n * y - n * x;
  }

  lemma ShareBounds(a: int, b: int, i: nat, n: nat)
    requires i <= n && 0 < n
    ensures var m := n * a + i * (b - a);
      if a <= b then n * a <= m <= n * b else n * b <= m <= n * a
  {
    assert n * b == n * a + i * (b - a) + (n - i) * (b - a);
    ProductSign(i, b - a);
    ProductSign(n - i, b - a);
  }

  lemma OneLine(px: int, py: int, rx: int, ry: int, sx: int, sy: int)
    requires (px, py) != (0, 0) && px * ry - rx * py == 0 && px * sy - sx * py == 0
    ensures rx * sy - ry * sx == 0
  {
    assert px * (rx * sy - ry * sx) == rx * (px * sy) - sx * (px * ry);
    assert py * (rx * sy - ry * sx) == (rx * py) * sy - ry * (sx * py);
    ProductSign(px, rx * sy - ry * sx);
    ProductSign(py, rx * sy - ry * sx);
  }

  lemma AllOnOneLine(a: Point, b: Point, c: Point, d: Point)
    requires a != b && Collinear(a, b, c) && Collinear(a, b, d)
    ensures Collinear(c, d, a)
  {
    OneLine(b.0 - a.0, b.1 - a.1, c.0 - a.0, c.1 - a.1, d.0 - a.0, d.1 - a.1);
    AreasAsCrosses(a, b, c, d);
    var rx, ry, sx, sy := c.0 - a.0, c.1 - a.1, d.0 - a.0, d.1 - a.1;
    assert Area2(c, d, a) == rx * (sy - ry) - ry * (sx - rx);
  }

  lemma MeetsOnLine(a: Point, b: Point, c: Point, d: Point, i: nat, j: nat, n: nat)
    requires MeetAt(a, b, c, d, i, j, n) && a != b && Collinear(a, b, c) && Collinear(a, b, d)
    ensures Between(a, b, c) || Between(a, b, d) || Between(c, d, a)
  {
    AllOnOneLine(a, b, c, d);
    hide Area2;
    if a.0 != b.0 {
      IntervalsMeet(a.0, b.0, c.0, d.0, i, j, n);
    } else {
      IntervalsMeet(a.1, b.1, c.1, d.1, i, j, n);
      SameLine(a, b, c, d);
    }
  }

  lemma SameLine(a: Point, b: Point, c: Point, d: Point)
    requires a != b && a.0 == b.0 && Collinear(a, b, c) && Collinear(a, b, d)
    ensures c.0 == a.0 && d.0 == a.0
  {
    ProductSign(c.0 - a.0, b.1 - a.1);
    ProductSign(d.0 - a.0, b.1 - a.1);
  }

  /** The test for intersection finds exactly the segments that have a point in common. */
  lemma IntersectIff(a: Point, b: Point, c: Point, d: Point)
    requires a != b && c != d
    ensures Intersect(a, b, c, d) <==> Meet(a, b, c, d)
  {
    hide Area2, Collinear, IsOn, Left;
    if Intersect(a, b, c, d) {
      if IntersectProp(a, b, c, d) {
        ProperMeets(a, b, c, d);
      } else {
        hide IntersectProp, Between, Meet;
        BetweenIff(a, b, c);
        BetweenIff(a, b, d);
        BetweenIff(c, d, a);
        BetweenIff(c, d, b);
        OnMeets(a, b, c, d);
        OnMeets(c, d, a, b);
        MeetMirror(c, d, a, b);
      }
    } else if Meet(a, b, c, d) {
      var i: nat, j: nat, n: nat :| MeetAt(a, b, c, d, i, j, n);
      MeetsSomehow(a, b, c, d, i, j, n);
    }
  }

  lemma MeetsSomehow(a: Point, b: Point, c: Point, d: Point, i: nat, j: nat, n: nat)
    requires MeetAt(a, b, c, d, i, j, n) && a != b && c != d
    ensures Intersect(a, b, c, d)
  {
    hide Between, IntersectProp, Collinear, MeetAt;
    MeetAtMirror(a, b, c, d, i, j, n);
    if Collinear(a, b, c) && Collinear(a, b, d) {
      MeetsOnLine(a, b, c, d, i, j, n);
    } else if Collinear(a, b, c) || Collinear(a, b, d) {
      MeetsAtEnd(a, b, c, d, i, j, n);
    } else if Collinear(c, d, a) && Collinear(c, d, b) {
      MeetsOnLine(c, d, a, b, j, i, n);
    } else if Collinear(c, d, a) || Collinear(c, d, b) {
      MeetsAtEnd(c, d, a, b, j, i, n);
    } else {
      MeetsProperly(a, b, c, d, i, j, n);
    }
  }

  // ----- The cone at a corner -----

  /** `n` times the way to `d` is made up of `i` times the way to `a` and `j` times the way to `b`, all from `o`. */
  predicate MadeOf(o: Point, a: Point, b: Point, d: Point, i: int, j: int, n: nat) {
    && 0 < n
    && n * (d.0 - o.0) == i * (a.0 - o.0) + j * (b.0 - o.0)
    && n * (d.1 - o.1) == i * (a.1 - o.1) + j * (b.1 - o.1)
  }

  /** `d` is inside the cone from `o` through `a` and `b`, or on its border. */
  ghost predicate InClosedCone(o: Point, a: Point, b: Point, d: Point) {
    exists i, j, n: nat :: MadeOf(o, a, b, d, i, j, n) && i >= 0 && j >= 0
  }

  ghost predicate InOpenCone(o: Point, a: Point, b: Point, d: Point) {
    exists i, j, n: nat :: MadeOf(o, a, b, d, i, j, n) && i > 0 && j > 0
  }

  lemma ConeAreas(o: Point, a: Point, b: Point, d: Point)
    ensures var ux, uy, vx, vy, wx, wy := a.0 - o.0, a.1 - o.1, b.0 - o.0, b.1 - o.1, d.0 - o.0, d.1 - o.1;
      && Area2(o, a, b) == ux * vy - vx * uy
      && Area2(o, a, d) == ux * wy - wx * uy
      && Area2(o, d, b) == wx * vy - vx * wy
  {
  }

  lemma AreasOfMade(o: Point, a: Point, b: Point, d: Point, i: int, j: int, n: nat)
    requires MadeOf(o, a, b, d, i, j, n)
    ensures n * Area2(o, a, d) == j * Area2(o, a, b) && n * Area2(o, d, b) == i * Area2(o, a, b)
  {
    ConeAreas(o, a, b, d);
    CombineWays(a.0 - o.0, a.1 - o.1, b.0 - o.0, b.1 - o.1, d.0 - o.0, d.1 - o.1, i, j, n);
    hide Area2, MadeOf;
  }

  lemma CombineWays(ux: int, uy: int, vx: int, vy: int, wx: int, wy: int, i: int, j: int, n: int)
    requires n * wx == i * ux + j * vx && n * wy == i * uy + j * vy
    ensures n * (ux * wy - wx * uy) == j * (ux * vy - vx * uy)
    ensures n * (wx * vy - vx * wy) == i * (ux * vy - vx * uy)
  {
    assert ux * (n * wy) == ux * (i * uy + j * vy) && uy * (n * wx) == uy * (i * ux + j * vx);
    assert vy * (n * wx) == vy * (i * ux + j * vx) && vx * (n * wy) == vx * (i * uy + j * vy);
  }

  lemma MadeOfAreas(o: Point, a: Point, b: Point, d: Point)
    requires Area2(o, a, b) != 0
    ensures var s := if Area2(o, a, b) > 0 then 1 else -1;
      MadeOf(o, a, b, d, s * Area2(o, d, b), s * Area2(o, a, d), s * Area2(o, a, b))
  {
    var n, i, j := Area2(o, a, b), Area2(o, d, b), Area2(o, a, d);
    ConeAreas(o, a, b, d);
    Cramer(a.0 - o.0, a.1 - o.1, b.0 - o.0, b.1 - o.1, d.0 - o.0, d.1 - o.1);
    hide Area2;
    assert n * (d.0 - o.0) == i * (a.0 - o.0) + j * (b.0 - o.0) && n * (d.1 - o.1) == i * (a.1 - o.1) + j * (b.1 - o.1);
    if n < 0 {
      NegatedSum(n, d.0 - o.0, i, a.0 - o.0, j, b.0 - o.0);
      NegatedSum(n, d.1 - o.1, i, a.1 - o.1, j, b.1 - o.1);
    }
  }

  lemma NegatedSum(n: int, x: int, i: int, y: int, j: int, z: int)
    requires n * x == i * y + j * z
    ensures (-n) * x == (-i) * y + (-j) * z
  {
  }

  lemma Cramer(ux: int, uy: int, vx: int, vy: int, wx: int, wy: int)
    ensures (ux * vy - vx * uy) * wx == (wx * vy - vx * wy) * ux + (ux * wy - wx * uy) * vx
    ensures (ux * vy - vx * uy) * wy == (wx * vy - vx * wy) * uy + (ux * wy - wx * uy) * vy
  {
  }

  /** A point is in a proper cone exactly if it is on the inner side of both its borders. */
  lemma ConeIff(o: Point, a: Point, b: Point, d: Point)
    requires Area2(o, a, b) < 0
    ensures InClosedCone(o, a, b, d) <==> Area2(o, d, b) <= 0 && Area2(o, a, d) <= 0
    ensures InOpenCone(o, a, b, d) <==> Area2(o, d, b) < 0 && Area2(o, a, d) < 0
  {
    MadeOfAreas(o, a, b, d);
    forall i, j, n: nat | MadeOf(o, a, b, d, i, j, n)
      ensures i >= 0 <==> Area2(o, d, b) <= 0
      ensures j >= 0 <==> Area2(o, a, d) <= 0
      ensures i > 0 <==> Area2(o, d, b) < 0
      ensures j > 0 <==> Area2(o, a, d) < 0
    {
      AreasOfMade(o, a, b, d, i, j, n);
      ProductSign(n, Area2(o, d, b));
      ProductSign(n, Area2(o, a, d));
      ProductSign(i, Area2(o, a, b));
      ProductSign(j, Area2(o, a, b));
    }
    hide Area2, MadeOf;
  }

  lemma TurnedArea(a: Point, b: Point, c: Point)
    ensures Area2(a, b, c) == Area2(b, c, a) && Area2(a, c, b) == -Area2(a, b, c)
  {
  }

  /** At a corner that turns left the test finds the directions between the two edges, strictly or with them; at one
      that turns right all but those between the edges on the other side. */
  lemma InConeIff(verts: seq<Point>, p: Poly, i: nat, j: nat)
    requires Within(p, |verts|) && i < |p| && j < |p|
    ensures var o, d, next, prev := verts[p[i]], verts[p[j]], verts[p[Next(i, |p|)]], verts[p[Prev(i, |p|)]];
      && (Area2(prev, o, next) < 0 ==>
            && (InCone(verts, p, i, j, false) <==> InOpenCone(o, next, prev, d))
            && (InCone(verts, p, i, j, true) <==> InClosedCone(o, next, prev, d)))
      && (Area2(prev, o, next) > 0 ==> forall loose ::
            InCone(verts, p, i, j, loose) <==> !InClosedCone(o, prev, next, d))
  {
    var o, d, next, prev := verts[p[i]], verts[p[j]], verts[p[Next(i, |p|)]], verts[p[Prev(i, |p|)]];
    TurnedArea(prev, o, next);
    TurnedArea(o, next, prev);
    TurnedArea(d, o, next);
    TurnedArea(d, o, prev);
    if Area2(prev, o, next) < 0 {
      ConeIff(o, next, prev, d);
    } else if Area2(prev, o, next) > 0 {
      ConeIff(o, prev, next, d);
    }
    hide Area2, InOpenCone, InClosedCone;
  }

  function Dot(u: Point, v: Point): int {
    u.0 * v.0 + u.1 * v.1
  }

  function Way(a: Point, b: Point): Point {
    (b.0 - a.0, b.1 - a.1)
  }

  /** For two ways along one line the areas with a third differ by the ratio of the two. */
  lemma ParallelAreas(u: Point, v: Point, w: Point)
    requires Cross(u, v) == 0
    ensures Cross(w, u) * Dot(u, v) == Cross(w, v) * Dot(u, u)
  {
    assert Cross(w, u) * Dot(u, v) - Cross(w, v) * Dot(u, u) == (0 - Cross(u, v)) * Dot(w, u);
  }

  lemma StraightAreas(o: Point, next: Point, prev: Point, d: Point)
    ensures Area2(o, d, prev) == Cross(Way(o, d), Way(o, prev))
    ensures Area2(o, next, d) == 0 - Cross(Way(o, d), Way(o, next))
    ensures Area2(prev, o, next) == 0 - Cross(Way(o, prev), Way(o, next))
    ensures Area2(prev, next, d) == Area2(o, d, prev) + Area2(o, next, d) - Area2(prev, o, next)
  {
  }

  lemma DotPositive(u: Point)
    requires u != (0, 0)
    ensures Dot(u, u) > 0
  {
    ProductSign(u.0, u.0);
    ProductSign(u.1, u.1);
  }

  /** Both areas have the same sign if the ways point apart, opposite signs if they point together. */
  lemma StraightSigns(u: Point, v: Point, w: Point)
    requires Cross(u, v) == 0 && u != (0, 0) && v != (0, 0)
    ensures var a, b := Cross(w, u), 0 - Cross(w, v);
      if Dot(u, v) < 0 then (a < 0 <==> b < 0) && (a == 0 <==> b == 0) else (a < 0 <==> b > 0) && (a == 0 <==> b == 0)
  {
    ParallelAreas(u, v, w);
    ParallelNotZero(u, v);
    DotPositive(u);
    var p, q, a, c := Dot(u, v), Dot(u, u), Cross(w, u), Cross(w, v);
    hide Dot, Cross;
    ProductSign(a, p);
    ProductSign(c, q);
  }

  lemma ParallelNotZero(u: Point, v: Point)
    requires Cross(u, v) == 0 && u != (0, 0) && v != (0, 0)
    ensures Dot(u, v) != 0
  {
    LagrangeIdentity(u, v);
    DotPositive(u);
    DotPositive(v);
    ProductSign(Dot(u, u), Dot(v, v));
    hide Dot, Cross;
  }

  lemma LagrangeIdentity(u: Point, v: Point)
    ensures Dot(u, u) * Dot(v, v) == Dot(u, v) * Dot(u, v) + Cross(u, v) * Cross(u, v)
  {
  }

  /** At a straight corner the directions to the left pass, strictly or with the line; where the two edges lie on one
      another no direction passes strictly, and only those on their line loosely. */
  lemma InStraightCone(verts: seq<Point>, p: Poly, i: nat, j: nat)
    requires Within(p, |verts|) && i < |p| && j < |p|
    requires var o, next, prev := verts[p[i]], verts[p[Next(i, |p|)]], verts[p[Prev(i, |p|)]];
      Area2(prev, o, next) == 0 && o != next && o != prev
    ensures var o, d, next, prev := verts[p[i]], verts[p[j]], verts[p[Next(i, |p|)]], verts[p[Prev(i, |p|)]];
      if Dot(Way(o, prev), Way(o, next)) < 0 then
        && (InCone(verts, p, i, j, false) <==> Left(prev, next, d))
        && (InCone(verts, p, i, j, true) <==> LeftOn(prev, next, d))
      else !InCone(verts, p, i, j, false) && (InCone(verts, p, i, j, true) <==> Collinear(o, next, d))
  {
    var o, d, next, prev := verts[p[i]], verts[p[j]], verts[p[Next(i, |p|)]], verts[p[Prev(i, |p|)]];
    StraightAreas(o, next, prev, d);
    TurnedArea(d, o, next);
    StraightSigns(Way(o, prev), Way(o, next), Way(o, d));
    hide Area2, Cross, Dot;
  }

  /** The edge after `k` has no end in common with the diagonal, neither the corner nor the place. */
  predicate Apart(verts: seq<Point>, p: Poly, i: nat, j: nat, k: nat)
    requires Within(p, |verts|) && i < |p| && j < |p| && k < |p|
  {
    forall x, y :: x in {i, j} && y in {k, Next(k, |p|)} ==> x != y && verts[p[x]] != verts[p[y]]
  }

  predicate NoStutter(verts: seq<Point>, p: Poly)
    requires Within(p, |verts|)
  {
    forall k :: 0 <= k < |p| ==> verts[p[k]] != verts[p[Next(k, |p|)]]
  }

  /** A proper diagonal starts into the polygon and has no point in common with any edge apart from it; a loose one may
      touch such edges but not cross them. */
  lemma DiagonalIff(verts: seq<Point>, p: Poly, i: nat, j: nat)
    requires Within(p, |verts|) && i < |p| && j < |p| && verts[p[i]] != verts[p[j]] && NoStutter(verts, p)
    ensures Diagonal(verts, p, i, j, false) <==>
      InCone(verts, p, i, j, false) && forall k :: 0 <= k < |p| && Apart(verts, p, i, j, k) ==>
        !Meet(verts[p[i]], verts[p[j]], verts[p[k]], verts[p[Next(k, |p|)]])
    ensures Diagonal(verts, p, i, j, true) <==>
      InCone(verts, p, i, j, true) && forall k :: 0 <= k < |p| && Apart(verts, p, i, j, k) ==>
        !Crosses(verts[p[i]], verts[p[j]], verts[p[k]], verts[p[Next(k, |p|)]])
  {
    hide InCone, Intersect, IntersectProp, Meet, Crosses, Apart;
    forall k | 0 <= k < |p|
      ensures Blocks(verts, p, i, j, k, false) <==>
        Apart(verts, p, i, j, k) && Meet(verts[p[i]], verts[p[j]], verts[p[k]], verts[p[Next(k, |p|)]])
      ensures Blocks(verts, p, i, j, k, true) <==>
        Apart(verts, p, i, j, k) && Crosses(verts[p[i]], verts[p[j]], verts[p[k]], verts[p[Next(k, |p|)]])
    {
      BlocksIff(verts, p, i, j, k);
    }
    hide Blocks;
  }

  /** They meet inside both and are not on one line. */
  ghost predicate Crosses(a: Point, b: Point, c: Point, d: Point) {
    MeetInside(a, b, c, d) && !(Collinear(a, b, c) && Collinear(a, b, d)) && !(Collinear(c, d, a) && Collinear(c, d, b))
  }

  lemma BlocksIff(verts: seq<Point>, p: Poly, i: nat, j: nat, k: nat)
    requires Within(p, |verts|) && i < |p| && j < |p| && k < |p|
    requires verts[p[i]] != verts[p[j]] && NoStutter(verts, p)
    ensures var a, b, c, d := verts[p[i]], verts[p[j]], verts[p[k]], verts[p[Next(k, |p|)]];
      && (Blocks(verts, p, i, j, k, false) <==> Apart(verts, p, i, j, k) && Meet(a, b, c, d))
      && (Blocks(verts, p, i, j, k, true) <==> Apart(verts, p, i, j, k) && Crosses(a, b, c, d))
  {
    var a, b, c, d := verts[p[i]], verts[p[j]], verts[p[k]], verts[p[Next(k, |p|)]];
    IntersectIff(a, b, c, d);
    IntersectPropIff(a, b, c, d);
    hide Intersect, IntersectProp, Meet, MeetInside, Collinear;
  }
}
