/** Editing a path corridor, and joining a new path to it. */
module Corridors {
  import opened Basics

  /** Which polygon has a link to which. */
  type Links = set<(nat, nat)>

  predicate Walk(links: Links, p: seq<nat>) {
    forall i :: 0 < i < |p| ==> (p[i - 1], p[i]) in links
  }

  ghost predicate Symmetric(links: Links) {
    forall a, b :: (a, b) in links ==> (b, a) in links
  }

  function Last(p: seq<nat>): nat
    requires p != []
  {
    p[|p| - 1]
  }

  // ----- The polygons common to a path and a list of visited polygons -----

  /** `x` is at none of the places from `a` up to `b`. */
  predicate Absent(s: seq<nat>, x: nat, a: int, b: int) {
    forall k :: 0 <= a <= k < b <= |s| ==> s[k] != x
  }

  predicate Visited(visited: seq<nat>, x: nat) {
    !Absent(visited, x, 0, |visited|)
  }

  /** No polygon of the path from `a` up to `b` was visited. */
  predicate Apart(path: seq<nat>, visited: seq<nat>, a: int, b: int) {
    forall k :: 0 <= a <= k < b <= |path| ==> !Visited(visited, path[k])
  }

  /** The first index from `a` on at which `s` has `x`; -1 without one. */
  function IndexFrom(s: seq<nat>, x: nat, a: nat): (i: int)
    requires a <= |s|
    ensures i == -1 || a <= i < |s|
    ensures if i == -1 then Absent(s, x, a, |s|) else s[i] == x && Absent(s, x, a, i)
    decreases |s| - a
  {
    if a == |s| then -1 else if s[a] == x then a else IndexFrom(s, x, a + 1)
  }

  function FirstIndex(s: seq<nat>, x: nat): (i: int)
    ensures -1 <= i < |s| && (i == -1 <==> !Visited(s, x))
    ensures i != -1 ==> s[i] == x && Absent(s, x, 0, i)
  {
    IndexFrom(s, x, 0)
  }

  /** The index of the first polygon of the path from `a` on that was visited; -1 without one. */
  function CommonFrom(path: seq<nat>, visited: seq<nat>, a: nat): (i: int)
    requires a <= |path|
    ensures i == -1 || a <= i < |path|
    ensures if i == -1 then Apart(path, visited, a, |path|) else Visited(visited, path[i]) && Apart(path, visited, a, i)
    decreases |path| - a
  {
    if a == |path| then -1 else if Visited(visited, path[a]) then a else CommonFrom(path, visited, a + 1)
  }

  /** The index of the last polygon of the path before `b` that was visited; -1 without one. */
  function CommonBefore(path: seq<nat>, visited: seq<nat>, b: nat): (i: int)
    requires b <= |path|
    ensures -1 <= i < b
    ensures if i == -1 then Apart(path, visited, 0, b) else Visited(visited, path[i]) && Apart(path, visited, i + 1, b)
  {
    if b == 0 then -1 else if Visited(visited, path[b - 1]) then b - 1 else CommonBefore(path, visited, b - 1)
  }

  function FirstCommon(path: seq<nat>, visited: seq<nat>): (i: int)
    ensures -1 <= i < |path| && (i != -1 ==> Visited(visited, path[i]))
  {
    CommonFrom(path, visited, 0)
  }

  function LastCommon(path: seq<nat>, visited: seq<nat>): (i: int)
    ensures -1 <= i < |path| && (i != -1 ==> Visited(visited, path[i]))
  {
    CommonBefore(path, visited, |path|)
  }

  lemma FirstIndexIs(s: seq<nat>, x: nat, i: nat)
    requires i < |s| && s[i] == x && Absent(s, x, 0, i)
    ensures FirstIndex(s, x) == i
  {
    var _ := FirstIndex(s, x);
  }

  lemma FirstCommonIs(path: seq<nat>, visited: seq<nat>, i: int)
    requires -1 <= i < |path|
    requires
      if i == -1 then Apart(path, visited, 0, |path|) else Visited(visited, path[i]) && Apart(path, visited, 0, i)
    ensures FirstCommon(path, visited) == i
  {
    hide Visited;
    var _ := CommonFrom(path, visited, 0);
  }

  lemma LastCommonIs(path: seq<nat>, visited: seq<nat>, i: int)
    requires -1 <= i < |path|
    requires Apart(path, visited, i + 1, |path|) && (i != -1 ==> Visited(visited, path[i]))
    ensures LastCommon(path, visited) == i
  {
    hide Visited;
    var _ := CommonBefore(path, visited, |path|);
  }

  lemma LastCommonFacts(path: seq<nat>, visited: seq<nat>)
    ensures Apart(path, visited, LastCommon(path, visited) + 1, |path|)
  {
    hide Visited;
  }

  // ----- The merged paths -----

  /** The start moved along `visited`: back from where it is now to the last common polygon, then on along the path. */
  function StartMoved(path: seq<nat>, maxPath: nat, visited: seq<nat>): seq<nat> {
    var i := LastCommon(path, visited);
    if i == -1 then path
    else Take(Reversed(visited[FirstIndex(visited, path[i])..]) + path[i + 1..], maxPath)
  }

  /** The end moved along `visited`: along the path to the first common polygon, then after the end. */
  function EndMoved(path: seq<nat>, maxPath: nat, visited: seq<nat>): seq<nat> {
    var i := FirstCommon(path, visited);
    if i == -1 then path
    else Take(path[..i + 1] + visited[FirstIndex(visited, path[i]) + 1..], maxPath)
  }

  /** A shortcut from the start: along `visited` to the last common polygon, then on along the path. Nothing happens if
      that polygon is where the shortcut begins. */
  function StartShortcut(path: seq<nat>, maxPath: nat, visited: seq<nat>): seq<nat> {
    var i := LastCommon(path, visited);
    if i == -1 || FirstIndex(visited, path[i]) == 0 then path
    else Take(visited[..FirstIndex(visited, path[i])] + path[i..], maxPath)
  }

  lemma TakeOfJoin<T>(a: seq<T>, b: seq<T>, n: nat)
    requires |a| <= n
    ensures Take(a + b, n) == a + Take(b, n - |a|)
  {
  }

  // ----- They are walks with the right ends -----

  lemma JoinWalks(links: Links, a: seq<nat>, b: seq<nat>)
    requires Walk(links, a) && Walk(links, b) && a != [] && b != [] && Last(a) == b[0]
    ensures Walk(links, a + b[1..])
  {
    var c := a + b[1..];
    forall i | 0 < i < |c|
      ensures (c[i - 1], c[i]) in links
    {
      if i >= |a| {
        var k := i - |a| + 1;
        assert c[i] == b[k] && c[i - 1] == b[k - 1];
      }
    }
  }

  lemma ReversedWalk(links: Links, p: seq<nat>)
    requires Symmetric(links) && Walk(links, p)
    ensures Walk(links, Reversed(p))
  {
    var r := Reversed(p);
    forall i | 0 < i < |r|
      ensures (r[i - 1], r[i]) in links
    {
      var k := |p| - i;
      assert (p[k - 1], p[k]) in links;
    }
  }

  lemma PartWalk(links: Links, p: seq<nat>, a: nat, b: nat)
    requires Walk(links, p) && a <= b <= |p|
    ensures Walk(links, p[a..b])
  {
    var q := p[a..b];
    forall i | 0 < i < |q|
      ensures (q[i - 1], q[i]) in links
    {
      assert q[i] == p[a + i] && q[i - 1] == p[a + i - 1];
    }
  }

  lemma TakeWalk(links: Links, p: seq<nat>, n: nat)
    requires Walk(links, p)
    ensures Walk(links, Take(p, n))
  {
    if n < |p| {
      PartWalk(links, p, 0, n);
    }
  }

  /** Two walks that meet, joined there and cut to size. */
  lemma JoinAndCut(links: Links, p: seq<nat>, q: seq<nat>, i: nat, j: nat, maxPath: nat)
    requires Walk(links, p) && Walk(links, q) && i < |p| && j < |q| && p[i] == q[j] && maxPath > 0
    ensures
      var r := Take(p[..i + 1] + q[j + 1..], maxPath);
      && Walk(links, r) && 1 <= |r| <= maxPath && r[0] == p[0]
      && (i + |q| - j <= maxPath ==> |r| == i + |q| - j && Last(r) == Last(q))
  {
    var a, b := p[..i + 1], q[j..];
    PartWalk(links, p, 0, i + 1);
    PartWalk(links, q, j, |q|);
    assert p[0..i + 1] == a && q[j..|q|] == b && b[1..] == q[j + 1..];
    JoinWalks(links, a, b);
    TakeWalk(links, a + b[1..], maxPath);
  }

  /** The corridor stays connected, begins where the move ended and, unless it is cut at `maxPath`, ends as before. */
  lemma StartMovedIsCorridor(links: Links, path: seq<nat>, maxPath: nat, visited: seq<nat>)
    requires Symmetric(links) && Walk(links, path) && Walk(links, visited)
    requires |path| <= maxPath
    ensures
      var r := StartMoved(path, maxPath, visited);
      var i := LastCommon(path, visited);
      Walk(links, r) && |r| <= maxPath &&
      (i != -1 ==>
         && r != [] && r[0] == Last(visited)
         && (|visited| - FirstIndex(visited, path[i]) + |path| - (i + 1) <= maxPath ==> Last(r) == Last(path)))
  {
    hide Walk, Symmetric, Visited, Apart, Absent, FirstIndex, LastCommon;
    var i := LastCommon(path, visited);
    if i != -1 {
      var j := FirstIndex(visited, path[i]);
      var back := Reversed(visited);
      ReversedWalk(links, visited);
      JoinAndCut(links, back, path, |visited| - 1 - j, i, maxPath);
      assert back[..|visited| - j] == Reversed(visited[j..]);
    }
  }

  /** The corridor stays connected, begins as before and, unless it is cut, ends where the move ended. */
  lemma EndMovedIsCorridor(links: Links, path: seq<nat>, maxPath: nat, visited: seq<nat>)
    requires Walk(links, path) && Walk(links, visited) && |path| <= maxPath
    ensures
      var r := EndMoved(path, maxPath, visited);
      var i := FirstCommon(path, visited);
      Walk(links, r) && |r| <= maxPath &&
      (i != -1 ==>
         && r != [] && r[0] == path[0]
         && (i + |visited| - FirstIndex(visited, path[i]) <= maxPath ==> Last(r) == Last(visited)))
  {
    hide Walk, Visited, Apart, Absent, FirstIndex, LastCommon, FirstCommon;
    var i := FirstCommon(path, visited);
    if i != -1 {
      JoinAndCut(links, path, visited, i, FirstIndex(visited, path[i]), maxPath);
    }
  }

  /** The corridor stays connected, begins where the shortcut begins and, unless it is cut, ends as before. It never
      gets longer than the path if the shortcut is no longer than the stretch it replaces. */
  lemma StartShortcutIsCorridor(links: Links, path: seq<nat>, maxPath: nat, visited: seq<nat>)
    requires Walk(links, path) && Walk(links, visited) && |path| <= maxPath
    ensures
      var r := StartShortcut(path, maxPath, visited);
      var i := LastCommon(path, visited);
      Walk(links, r) && |r| <= maxPath &&
      (i != -1 && FirstIndex(visited, path[i]) != 0 ==>
         && r != [] && r[0] == visited[0]
         && (FirstIndex(visited, path[i]) + |path| - i <= maxPath ==> Last(r) == Last(path))
         && (FirstIndex(visited, path[i]) <= i ==> |r| <= |path|))
  {
    hide Walk, Visited, Apart, Absent, FirstIndex, LastCommon, FirstCommon;
    var i := LastCommon(path, visited);
    if i != -1 {
      var j := FirstIndex(visited, path[i]);
      JoinAndCut(links, visited, path, j, i, maxPath);
      assert visited[..j + 1] + path[i + 1..] == visited[..j] + path[i..];
    }
  }

  lemma VisitedReversed(s: seq<nat>, x: nat)
    ensures Visited(Reversed(s), x) <==> Visited(s, x)
  {
    var n, r := |s|, Reversed(s);
    hide Reversed;
    if Visited(s, x) {
      var k :| 0 <= k < n && s[k] == x;
      assert r[n - 1 - k] == x;
    }
    if Visited(r, x) {
      var k :| 0 <= k < n && r[k] == x;
      assert s[n - 1 - k] == x;
    }
  }

  /** After the move, seen from the way back: the last common polygon is the same. */
  lemma CommonOnTheWayBack(path: seq<nat>, visited: seq<nat>, i: nat, j: nat)
    requires Distinct(visited) && i == LastCommon(path, visited) && j == FirstIndex(visited, path[i])
    ensures
      var there := Reversed(visited[j..]) + path[i + 1..];
      var m := |visited| - 1 - j;
      LastCommon(there, Reversed(visited)) == m && FirstIndex(Reversed(visited), there[m]) == m
  {
    hide FirstIndex, LastCommon, Visited, Absent;
    var rest, back := path[i + 1..], Reversed(visited);
    var there := Reversed(visited[j..]) + rest;
    var m := |visited| - 1 - j;
    assert there[m] == visited[j] == back[m];
    AbsentBefore(visited, j);
    FirstIndexIs(back, there[m], m);
    VisitedReversed(visited, there[m]);
    LastCommonFacts(path, visited);
    forall k | m + 1 <= k < |there|
      ensures !Visited(back, there[k])
    {
      assert there[k] == path[k - m + i];
      VisitedReversed(visited, there[k]);
    }
    LastCommonIs(there, back, m);
  }

  lemma AbsentBefore(s: seq<nat>, j: nat)
    requires Distinct(s) && j < |s|
    ensures Absent(Reversed(s), s[j], 0, |s| - 1 - j)
  {
  }

  lemma PartsOnTheWayBack(rest: seq<nat>, visited: seq<nat>, j: nat)
    requires j < |visited|
    ensures
      var m := |visited| - 1 - j;
      && |Reversed(visited)| == |visited| && |Reversed(visited[j..]) + rest| == m + 1 + |rest|
      && (Reversed(visited[j..]) + rest)[m + 1..] == rest
      && Reversed(Reversed(visited)[m..]) == visited[..j] + [visited[j]]
  {
  }

  lemma StartMovedNowhere(path: seq<nat>, maxPath: nat, visited: seq<nat>)
    requires LastCommon(path, visited) == -1
    ensures StartMoved(path, maxPath, visited) == path
  {
  }

  lemma StartMovedCut(path: seq<nat>, maxPath: nat, visited: seq<nat>, i: nat, j: nat)
    requires i == LastCommon(path, visited) && j == FirstIndex(visited, path[i]) && |visited| - j <= maxPath
    ensures var front := Reversed(visited[j..]);
            StartMoved(path, maxPath, visited) == front + Take(path[i + 1..], maxPath - |front|)
  {
    hide LastCommon, FirstIndex, Visited, Apart, Absent, Reversed, Take;
    TakeOfJoin(Reversed(visited[j..]), path[i + 1..], maxPath);
  }

  lemma StartMovedWhole(path: seq<nat>, maxPath: nat, visited: seq<nat>, i: nat, j: nat)
    requires i == LastCommon(path, visited) && j == FirstIndex(visited, path[i])
    requires |visited| - j + |path| - (i + 1) <= maxPath
    ensures StartMoved(path, maxPath, visited) == Reversed(visited[j..]) + path[i + 1..]
  {
    hide LastCommon, FirstIndex, StartMoved;
    StartMovedCut(path, maxPath, visited, i, j);
  }

  lemma JoinAtCommon(visited: seq<nat>, j: nat, path: seq<nat>, i: nat)
    requires j < |visited| && i < |path| && visited[j] == path[i]
    ensures visited[..j] + [visited[j]] + path[i + 1..] == visited[..j] + path[i..]
  {
    assert path[i..] == [path[i]] + path[i + 1..];
  }

  /** Moving the start along some polygons and straight back leaves the corridor as if the start had only followed the
      visited polygons to the common one: from there on it is the old corridor, whole. */
  lemma MoveThereAndBack(path: seq<nat>, maxPath: nat, visited: seq<nat>)
    requires Distinct(visited) && LastCommon(path, visited) != -1
    requires |visited| + |path| <= maxPath
    ensures
      var i := LastCommon(path, visited);
      var j := FirstIndex(visited, path[i]);
      StartMoved(StartMoved(path, maxPath, visited), maxPath, Reversed(visited)) == visited[..j] + path[i..]
  {
    hide LastCommon, FirstIndex, Distinct, Visited, Apart, Absent, StartMoved, Reversed;
    var i := LastCommon(path, visited);
    var j := FirstIndex(visited, path[i]);
    var m := |visited| - 1 - j;
    var there := Reversed(visited[j..]) + path[i + 1..];
    StartMovedWhole(path, maxPath, visited, i, j);
    CommonOnTheWayBack(path, visited, i, j);
    PartsOnTheWayBack(path[i + 1..], visited, j);
    StartMovedWhole(there, maxPath, Reversed(visited), m, m);
    JoinAtCommon(visited, j, path, i);
  }

  // ----- Trackbacks -----

  predicate TrackbackAt(p: seq<nat>, j: int) {
    0 < j < |p| - 1 && p[j - 1] == p[j + 1]
  }

  ghost predicate NoTrackback(p: seq<nat>) {
    forall j :: !TrackbackAt(p, j)
  }

  /** Walk on from the end of `p` to `x`; a step back takes the last step away instead. */
  function Step(p: seq<nat>, x: nat): seq<nat> {
    if |p| >= 2 && p[|p| - 2] == x then p[..|p| - 1] else p + [x]
  }

  /** The walk `p` with every step back taken away. */
  function Reduced(p: seq<nat>): (r: seq<nat>) {
    if p == [] then [] else Step(Reduced(p[..|p| - 1]), Last(p))
  }

  /** What is left begins and ends where the walk does, takes only steps the walk takes and never steps straight
      back. */
  lemma {:induction false} ReducedIsShortWalk(links: Links, p: seq<nat>)
    requires p != []
    ensures
      var r := Reduced(p);
      1 <= |r| <= |p| && r[0] == p[0] && Last(r) == Last(p) && NoTrackback(r) && (Walk(links, p) ==> Walk(links, r))
  {
    var q := p[..|p| - 1];
    if q != [] {
      ReducedIsShortWalk(links, q);
      var s, r := Reduced(q), Reduced(p);
      assert r == Step(s, Last(p));
      forall j
        ensures !TrackbackAt(r, j)
      {
        assert !TrackbackAt(s, j);
      }
      if Walk(links, p) {
        PartWalk(links, p, 0, |p| - 1);
        assert p[|p| - 2] == Last(q) == Last(s);
      }
    }
  }

  lemma {:induction false} ReducedOfReduced(p: seq<nat>)
    requires NoTrackback(p)
    ensures Reduced(p) == p
  {
    if p != [] {
      var q := p[..|p| - 1];
      forall j
        ensures !TrackbackAt(q, j)
      {
        assert !TrackbackAt(p, j);
      }
      ReducedOfReduced(q);
      assert !TrackbackAt(p, |p| - 2);
    }
  }

  lemma ThereAndBack(p: seq<nat>, a: nat, b: nat)
    requires NoTrackback(p)
    ensures var q := Step(p, a); Step(Step(q, b), a) == q
  {
    var q := Step(p, a);
    if |q| >= 2 && q[|q| - 2] == b {
      if |q| >= 3 {
        assert !TrackbackAt(p, |q| - 2);
        assert q[|q| - 3] != a;
      }
    }
  }

  lemma ReducedStep(p: seq<nat>, x: nat)
    ensures Reduced(p + [x]) == Step(Reduced(p), x)
  {
    assert (p + [x])[..|p|] == p;
  }

  lemma TrackbackAtEnd(u: seq<nat>, a: nat, b: nat)
    ensures Reduced(u + [a, b, a]) == Reduced(u + [a])
  {
    hide Reduced, Step;
    ReducedStep(u, a);
    ReducedStep(u + [a], b);
    ReducedStep(u + [a] + [b], a);
    assert u + [a, b, a] == u + [a] + [b] + [a];
    ReducedNoTrackback(u);
    ThereAndBack(Reduced(u), a, b);
  }

  lemma ReducedNoTrackback(u: seq<nat>)
    ensures NoTrackback(Reduced(u))
  {
    if u != [] {
      ReducedIsShortWalk({}, u);
    }
  }

  /** Taking away one trackback anywhere does not change what is left in the end: the order does not matter. */
  lemma {:induction false} TrackbackDropsOut(u: seq<nat>, a: nat, b: nat, v: seq<nat>)
    ensures Reduced(u + [a, b, a] + v) == Reduced(u + [a] + v)
    decreases |v|
  {
    if v == [] {
      TrackbackAtEnd(u, a, b);
      assert u + [a, b, a] + [] == u + [a, b, a] && u + [a] + [] == u + [a];
    } else {
      var n := |v| - 1;
      TrackbackDropsOut(u, a, b, v[..n]);
      ReducedStep(u + [a, b, a] + v[..n], v[n]);
      ReducedStep(u + [a] + v[..n], v[n]);
      assert u + [a, b, a] + v == u + [a, b, a] + v[..n] + [v[n]];
      assert u + [a] + v == u + [a] + v[..n] + [v[n]];
    }
  }

  /** The old corridor, the new path after it, cut to size and without trackbacks. A corridor of one polygon adds
      nothing, and then the new path stays as it is. */
  function Spliced(path: seq<nat>, res: seq<nat>, maxPath: nat): seq<nat>
    requires path != []
  {
    if |path| == 1 then res else Reduced(Take(path[..|path| - 1] + res, maxPath))
  }

  /** The new corridor is connected, begins where the old one does and, unless it is cut, ends where the new path
      does. */
  lemma SplicedIsCorridor(links: Links, path: seq<nat>, res: seq<nat>, maxPath: nat)
    requires Walk(links, path) && Walk(links, res) && path != [] && res != [] && Last(path) == res[0]
    requires |path| <= maxPath && |res| <= maxPath
    ensures
      var r := Spliced(path, res, maxPath);
      && Walk(links, r) && 1 <= |r| <= maxPath && r[0] == path[0]
      && (|path| - 1 + |res| <= maxPath ==> Last(r) == Last(res))
      && (|path| > 1 ==> NoTrackback(r))
  {
    if |path| > 1 {
      JoinWalks(links, path, res);
      var whole := path[..|path| - 1] + res;
      assert path + res[1..] == whole;
      TakeWalk(links, whole, maxPath);
      ReducedIsShortWalk(links, Take(whole, maxPath));
    }
  }

  // ----- The code -----

  /** The first place at which `x` was visited; the search runs backwards through all the places. */
  method FindVisited(x: nat, visited: seq<nat>) returns (j: int)
    ensures j == FirstIndex(visited, x)
  {
    j := -1;
    var k := |visited| - 1;
    while k >= 0
      invariant -1 <= k < |visited| && (j == -1 || (k < j < |visited| && visited[j] == x))
      invariant forall i :: k < i < |visited| && (j == -1 || i < j) ==> visited[i] != x
    {
      if x == visited[k] {
        j := k;
      }
      k := k - 1;
    }
    if j != -1 {
      FirstIndexIs(visited, x, j);
    }
  }

  method FindLastCommon(path: array<nat>, npath: nat, visited: seq<nat>) returns (i: int, j: int)
    requires npath <= path.Length
    ensures i == LastCommon(path[..npath], visited)
    ensures j == if i == -1 then -1 else FirstIndex(visited, path[i])
  {
    hide FirstIndex, Absent, Visited, LastCommon, FirstCommon;
    ghost var p := path[..npath];
    i, j := npath - 1, -1;
    while i >= 0
      invariant -1 <= i < npath && j == -1
      invariant Apart(p, visited, i + 1, npath)
    {
      j := FindVisited(path[i], visited);
      if j != -1 {
        LastCommonIs(p, visited, i);
        return;
      }
      i := i - 1;
    }
    LastCommonIs(p, visited, -1);
  }

  method FindFirstCommon(path: array<nat>, npath: nat, visited: seq<nat>) returns (i: int, j: int)
    requires npath <= path.Length
    ensures i == FirstCommon(path[..npath], visited)
    ensures j == if i == -1 then -1 else FirstIndex(visited, path[i])
  {
    hide FirstIndex, Absent, Visited, LastCommon, FirstCommon;
    ghost var p := path[..npath];
    i, j := 0, -1;
    while i < npath
      invariant i <= npath && j == -1
      invariant Apart(p, visited, 0, i)
    {
      j := FindVisited(path[i], visited);
      if j != -1 {
        FirstCommonIs(p, visited, i);
        return;
      }
      i := i + 1;
    }
    i := -1;
    FirstCommonIs(p, visited, -1);
  }

  /** Make room for `req` polygons before the part of the path from `orig` on; what does not fit any more is cut off. */
  method MoveTail(path: array<nat>, npath: nat, maxPath: nat, req: nat, orig: nat) returns (size: nat)
    requires orig <= npath <= maxPath <= path.Length && req <= maxPath
    modifies path
    ensures req + size <= maxPath && path[req..req + size] == Take(old(path[orig..npath]), maxPath - req)
  {
    size := npath - orig;
    if req + size > maxPath {
      size := maxPath - req;
    }
    forall k | 0 <= k < size {
      path[req + k] := path[orig + k];
    }
    assert path[req..req + size] == old(path[orig..orig + size]);
    assert old(path[orig..npath])[..size] == old(path[orig..orig + size]);
  }

  /** Store what was visited from place `j` on, last first, at the beginning of the path. */
  method StoreBackwards(path: array<nat>, visited: seq<nat>, j: nat)
    requires j <= |visited| <= path.Length + j
    modifies path
    ensures path[..|visited| - j] == Reversed(visited[j..])
    ensures forall k :: |visited| - j <= k < path.Length ==> path[k] == old(path[k])
  {
    for i := 0 to |visited| - j
      invariant forall k :: 0 <= k < i ==> path[k] == visited[|visited| - 1 - k]
      invariant forall k :: |visited| - j <= k < path.Length ==> path[k] == old(path[k])
    {
      path[i] := visited[(|visited| - 1) - i];
    }
  }

  /** Store the first `req` visited polygons at the beginning of the path. */
  method StoreVisited(path: array<nat>, visited: seq<nat>, req: nat)
    requires req <= |visited| && req <= path.Length
    modifies path
    ensures path[..req] == visited[..req] && forall k :: req <= k < path.Length ==> path[k] == old(path[k])
  {
    for i := 0 to req
      invariant forall k :: 0 <= k < i ==> path[k] == visited[k]
      invariant forall k :: req <= k < path.Length ==> path[k] == old(path[k])
    {
      path[i] := visited[i];
    }
  }

  /** How many polygons a move of the start puts in front: those visited from the common polygon on. */
  function MovedFront(path: seq<nat>, visited: seq<nat>): nat {
    var i := LastCommon(path, visited);
    if i == -1 then 0 else |visited| - FirstIndex(visited, path[i])
  }

  /** How many polygons a shortcut puts in front: those visited before the common polygon. */
  function ShortcutFront(path: seq<nat>, visited: seq<nat>): nat {
    var i := LastCommon(path, visited);
    if i == -1 then 0 else FirstIndex(visited, path[i])
  }

  /** dtMergeCorridorStartMoved. What it puts in front must fit into the buffer. */
  method MergeCorridorStartMoved(path: array<nat>, npath: nat, maxPath: nat, visited: seq<nat>) returns (n: nat)
    requires npath <= maxPath <= path.Length && MovedFront(path[..npath], visited) <= maxPath
    modifies path
    ensures n <= maxPath && path[..n] == StartMoved(old(path[..npath]), maxPath, visited)
  {
    hide LastCommon, FirstIndex, Visited, Apart, Absent, StartMoved;
    var i, j := FindLastCommon(path, npath, visited);
    if i == -1 || j == -1 {
      StartMovedNowhere(path[..npath], maxPath, visited);
      return npath;
    }
    ghost var front, rest := Reversed(visited[j..]), path[i + 1..npath];
    assert path[..npath][i + 1..] == rest;
    var req := |visited| - j;
    var size := MoveTail(path, npath, maxPath, req, i + 1);
    ghost var tail := path[req..req + size];
    StoreBackwards(path, visited, j);
    n := req + size;
    assert path[..n] == front + tail;
    StartMovedCut(old(path[..npath]), maxPath, visited, i, j);
  }

  /** dtMergeCorridorEndMoved. */
  method MergeCorridorEndMoved(path: array<nat>, npath: nat, maxPath: nat, visited: seq<nat>) returns (n: nat)
    requires npath <= maxPath <= path.Length
    modifies path
    ensures n <= maxPath && path[..n] == EndMoved(old(path[..npath]), maxPath, visited)
  {
    hide FirstCommon, FirstIndex, Visited, Apart, Absent;
    var i, j := FindFirstCommon(path, npath, visited);
    if i == -1 || j == -1 {
      return npath;
    }
    ghost var front, after := path[..i + 1], visited[j + 1..];
    assert old(path[..npath])[..i + 1] == front;
    var ppos, vpos := i + 1, j + 1;
    var count := Min(|visited| - vpos, maxPath - ppos);
    forall k | 0 <= k < count {
      path[ppos + k] := visited[vpos + k];
    }
    n := ppos + count;
    assert path[..n] == front + Take(after, maxPath - ppos);
    TakeOfJoin(front, after, maxPath);
  }

  /** dtMergeCorridorStartShortcut. What it puts in front must fit into the buffer. */
  method MergeCorridorStartShortcut(path: array<nat>, npath: nat, maxPath: nat, visited: seq<nat>) returns (n: nat)
    requires npath <= maxPath <= path.Length && ShortcutFront(path[..npath], visited) <= maxPath
    modifies path
    ensures n <= maxPath && path[..n] == StartShortcut(old(path[..npath]), maxPath, visited)
  {
    hide LastCommon, FirstIndex, Visited, Apart, Absent;
    var i, req := FindLastCommon(path, npath, visited);
    if i == -1 || req == -1 {
      return npath;
    }
    if req <= 0 {
      return npath;
    }
    ghost var front, rest := visited[..req], path[i..npath];
    assert path[..npath][i..] == rest;
    var size := MoveTail(path, npath, maxPath, req, i);
    ghost var tail := path[req..req + size];
    StoreVisited(path, visited, req);
    n := req + size;
    assert path[..n] == front + tail;
    TakeOfJoin(front, rest, maxPath);
  }

  /** The loop that removes trackbacks in place: after a removal it looks again one place further back. */
  method RemoveTrackbacks(res: array<nat>, nres: nat) returns (n: nat)
    requires nres <= res.Length
    modifies res
    ensures n <= nres && res[..n] == Reduced(old(res[..nres]))
  {
    n := nres;
    ghost var all := res[..nres];
    var j := 0;
    while j < n
      invariant 0 <= j <= n <= nres && Reduced(res[..n]) == Reduced(all)
      invariant forall k :: k < j ==> !TrackbackAt(res[..n], k)
      decreases 2 * n - j
    {
      if j - 1 >= 0 && j + 1 < n && res[j - 1] == res[j + 1] {
        ghost var before := res[..n];
        forall k | 0 <= k < n - (j + 1) {
          res[j - 1 + k] := res[j + 1 + k];
        }
        n := n - 2;
        CutOut(before, res[..n], j);
        j := j - 2;
      }
      j := j + 1;
    }
    assert NoTrackback(res[..n]);
    ReducedOfReduced(res[..n]);
  }

  lemma CutOut(s: seq<nat>, t: seq<nat>, j: int)
    requires TrackbackAt(s, j) && t == s[..j - 1] + s[j + 1..]
    requires forall k :: k < j ==> !TrackbackAt(s, k)
    ensures Reduced(t) == Reduced(s) && forall k :: k < j - 1 ==> !TrackbackAt(t, k)
  {
    CutParts(s, t, j);
    hide Reduced;
    TrackbackDropsOut(s[..j - 1], s[j - 1], s[j], s[j + 2..]);
    forall k | k < j - 1
      ensures !TrackbackAt(t, k)
    {
      assert !TrackbackAt(s, k);
    }
  }

  lemma CutParts(s: seq<nat>, t: seq<nat>, j: int)
    requires TrackbackAt(s, j) && t == s[..j - 1] + s[j + 1..]
    ensures s == s[..j - 1] + [s[j - 1], s[j], s[j - 1]] + s[j + 2..] && t == s[..j - 1] + [s[j - 1]] + s[j + 2..]
  {
    hide Reduced;
  }

  /** Move what is stored back and copy `front` before it, as far as there is room. */
  method PutInFront(front: seq<nat>, res: array<nat>, nres: nat, maxPath: nat) returns (n: nat)
    requires |front| <= maxPath && nres <= maxPath <= res.Length
    modifies res
    ensures n <= maxPath && res[..n] == Take(front + old(res[..nres]), maxPath)
  {
    n := nres;
    if |front| + n > maxPath {
      n := maxPath - |front|;
    }
    forall k | 0 <= k < n {
      res[|front| + k] := res[k];
    }
    ghost var moved := res[|front|..|front| + n];
    assert moved == old(res[..n]);
    forall k | 0 <= k < |front| {
      res[k] := front[k];
    }
    assert res[|front|..|front| + n] == moved;
    assert res[..|front| + n] == front + moved;
    n := |front| + n;
  }

  /** The path splice of updateMoveRequest: a result that does not begin where the corridor ends is refused. */
  method SplicePath(path: seq<nat>, res: array<nat>, nres: nat, maxPathResult: nat) returns (valid: bool, n: nat)
    requires 0 < |path| <= maxPathResult && nres <= maxPathResult <= res.Length
    modifies res
    ensures valid <==> nres > 0 && old(res[..])[0] == Last(path)
    ensures valid ==> n <= maxPathResult && res[..n] == Spliced(path, old(res[..nres]), maxPathResult)
    ensures !valid ==> n == nres && res[..] == old(res[..])
  {
    var npath := |path|;
    n := nres;
    valid := nres > 0 && path[npath - 1] == res[0];
    if valid && npath > 1 {
      hide Reduced;
      n := PutInFront(path[..npath - 1], res, nres, maxPathResult);
      n := RemoveTrackbacks(res, n);
    }
  }
}
