/** The bounding-volume tree of a tile, as an array of nodes. */
module BVTree {
  import opened Basics

  /** Quantised coordinates (x, y, z). */
  type Point = (nat, nat, nat)

  datatype Box = Box(bmin: Point, bmax: Point)

  datatype Item = Item(box: Box, i: nat)

  /** A negative `i` is minus the number of nodes to skip, itself included. */
  datatype BVNode = BVNode(box: Box, i: int)

  /** The tree a run of flattened nodes stands for. */
  datatype Tree = Leaf(item: Item) | Node(box: Box, left: Tree, right: Tree)

  function Coord(p: Point, axis: nat): nat {
    if axis == 0 then p.0 else if axis == 1 then p.1 else p.2
  }

  predicate Overlap(a: Box, b: Box) {
    && a.bmin.0 <= b.bmax.0 && b.bmin.0 <= a.bmax.0
    && a.bmin.1 <= b.bmax.1 && b.bmin.1 <= a.bmax.1
    && a.bmin.2 <= b.bmax.2 && b.bmin.2 <= a.bmax.2
  }

  predicate InBox(p: Point, b: Box) {
    && b.bmin.0 <= p.0 <= b.bmax.0 && b.bmin.1 <= p.1 <= b.bmax.1 && b.bmin.2 <= p.2 <= b.bmax.2
  }

  /** Some point lies in both boxes. */
  ghost predicate Meet(a: Box, b: Box) {
    exists p: Point :: InBox(p, a) && InBox(p, b)
  }

  predicate Proper(b: Box) {
    b.bmin.0 <= b.bmax.0 && b.bmin.1 <= b.bmax.1 && b.bmin.2 <= b.bmax.2
  }

  /** The test by coordinates finds out whether boxes share a point. */
  lemma OverlapIffMeet(a: Box, b: Box)
    requires Proper(a) && Proper(b)
    ensures Overlap(a, b) <==> Meet(a, b)
  {
    if Overlap(a, b) {
      var p := (Max(a.bmin.0, b.bmin.0), Max(a.bmin.1, b.bmin.1), Max(a.bmin.2, b.bmin.2));
      assert InBox(p, a) && InBox(p, b);
    }
  }

  predicate Inside(a: Box, b: Box) {
    && b.bmin.0 <= a.bmin.0 && b.bmin.1 <= a.bmin.1 && b.bmin.2 <= a.bmin.2
    && a.bmax.0 <= b.bmax.0 && a.bmax.1 <= b.bmax.1 && a.bmax.2 <= b.bmax.2
  }

  lemma OverlapGrows(a: Box, b: Box, q: Box)
    requires Inside(a, b) && Overlap(q, a)
    ensures Overlap(q, b)
  {
  }

  // ----- Trees and their flattened form -----

  function Count(t: Tree): nat {
    match t
    case Leaf(_) => 1
    case Node(_, l, r) => Count(l) + Count(r)
  }

  function Leaves(t: Tree): (s: seq<Item>)
    ensures |s| == Count(t)
  {
    match t
    case Leaf(item) => [item]
    case Node(_, l, r) => Leaves(l) + Leaves(r)
  }

  function Flatten(t: Tree): (s: seq<BVNode>)
    ensures |s| == 2 * Count(t) - 1
  {
    match t
    case Leaf(item) => [BVNode(item.box, item.i)]
    case Node(box, l, r) => [BVNode(box, -(2 * Count(t) - 1))] + Flatten(l) + Flatten(r)
  }

  /** Every inner node's box encloses the boxes of all items below it. */
  predicate Encloses(t: Tree) {
    match t
    case Leaf(_) => true
    case Node(box, l, r) =>
      Encloses(l) && Encloses(r) && forall x :: x in Leaves(t) ==> Inside(x.box, box)
  }

  /** The items split in halves at every inner node, the smaller half on the left. */
  predicate Halved(t: Tree) {
    match t
    case Leaf(_) => true
    case Node(_, l, r) => Halved(l) && Halved(r) && Count(l) == Count(t) / 2
  }

  // ----- The walk -----

  /** The items a walk from node `k` reports, in order. */
  function WalkFrom(ns: seq<BVNode>, k: nat, q: Box): seq<int>
    decreases |ns| - k
  {
    if k >= |ns| then []
    else
      var overlap, leaf := Overlap(q, ns[k].box), ns[k].i >= 0;
      if leaf && overlap then [ns[k].i] + WalkFrom(ns, k + 1, q)
      else if leaf || overlap then WalkFrom(ns, k + 1, q)
      else WalkFrom(ns, k + (-ns[k].i), q)
  }

  /** The items of a tree that a query box meets, in tree order. */
  function Hits(s: seq<Item>, q: Box): seq<int> {
    if s == [] then []
    else (if Overlap(q, s[0].box) then [s[0].i as int] else []) + Hits(s[1..], q)
  }

  lemma {:induction false} HitsAppend(a: seq<Item>, b: seq<Item>, q: Box)
    ensures Hits(a + b, q) == Hits(a, q) + Hits(b, q)
  {
    if a == [] {
      assert a + b == b;
    } else {
      assert (a + b)[1..] == a[1..] + b;
      HitsAppend(a[1..], b, q);
    }
  }

  lemma {:induction false} NoHits(s: seq<Item>, q: Box)
    requires forall x :: x in s ==> !Overlap(q, x.box)
    ensures Hits(s, q) == []
  {
    if s != [] {
      assert s[0] in s;
      NoHits(s[1..], q);
    }
  }

  lemma WalkLeaf(ns: seq<BVNode>, k: nat, item: Item, q: Box)
    requires k < |ns| && ns[k] == BVNode(item.box, item.i)
    ensures WalkFrom(ns, k, q) == Hits([item], q) + WalkFrom(ns, k + 1, q)
  {
  }

  lemma WalkInner(ns: seq<BVNode>, k: nat, box: Box, size: nat, q: Box)
    requires k < |ns| && size > 0 && ns[k] == BVNode(box, 0 - size)
    ensures WalkFrom(ns, k, q) == if Overlap(q, box) then WalkFrom(ns, k + 1, q) else WalkFrom(ns, k + size, q)
  {
  }

  lemma MissedBox(items: seq<Item>, box: Box, q: Box)
    requires !Overlap(q, box) && forall x :: x in items ==> Inside(x.box, box)
    ensures Hits(items, q) == []
  {
    forall x | x in items
      ensures !Overlap(q, x.box)
    {
      if Overlap(q, x.box) {
        OverlapGrows(x.box, box, q);
      }
    }
    NoHits(items, q);
  }

  /** A walk over the nodes of a tree reports exactly its hits and goes on behind it; where the root's box misses
      the query, the escape index skips exactly the subtree. */
  lemma {:induction false} WalkTree(ns: seq<BVNode>, k: nat, t: Tree, q: Box)
    requires Encloses(t) && k + |Flatten(t)| <= |ns| && ns[k..k + |Flatten(t)|] == Flatten(t)
    ensures WalkFrom(ns, k, q) == Hits(Leaves(t), q) + WalkFrom(ns, k + |Flatten(t)|, q)
    decreases t
  {
    hide WalkFrom, Hits, Overlap, Inside;
    assert ns[k] == Flatten(t)[0];
    match t
    case Leaf(item) =>
      WalkLeaf(ns, k, item, q);
    case Node(box, l, r) =>
      WalkInner(ns, k, box, 2 * Count(t) - 1, q);
      if Overlap(q, box) {
        SubtreeNodes(ns, k, t);
        WalkTree(ns, k + 1, l, q);
        WalkTree(ns, k + 1 + |Flatten(l)|, r, q);
        HitsAppend(Leaves(l), Leaves(r), q);
      } else {
        MissedBox(Leaves(t), box, q);
      }
  }

  /** An inner node is followed by its left subtree and that by its right one. */
  lemma SubtreeNodes(ns: seq<BVNode>, k: nat, t: Tree)
    requires t.Node? && k + |Flatten(t)| <= |ns| && ns[k..k + |Flatten(t)|] == Flatten(t)
    ensures |Flatten(t)| == 1 + |Flatten(t.left)| + |Flatten(t.right)|
    ensures var m := k + 1 + |Flatten(t.left)|;
      ns[k + 1..m] == Flatten(t.left) && ns[m..k + |Flatten(t)|] == Flatten(t.right)
  {
    hide Flatten;
    var f, a, b := Flatten(t), Flatten(t.left), Flatten(t.right);
    var root := [BVNode(t.box, -(2 * Count(t) - 1))];
    FlattenInner(t.box, t.left, t.right);
    MiddleParts(root, a, b);
    SliceOfSlice(ns, k, k + |f|, 1, 1 + |a|);
    SliceOfSlice(ns, k, k + |f|, 1 + |a|, |f|);
  }

  lemma MiddleParts<T>(x: seq<T>, a: seq<T>, b: seq<T>)
    ensures (x + a + b)[|x|..|x| + |a|] == a && (x + a + b)[|x| + |a|..] == b
  {
  }

  lemma FlattenInner(box: Box, l: Tree, r: Tree)
    ensures var t := Node(box, l, r);
      Flatten(t) == [BVNode(box, -(2 * Count(t) - 1))] + Flatten(l) + Flatten(r)
  {
  }

  const ZERO_NODE := BVNode(Box((0, 0, 0), (0, 0, 0)), 0)

  /** The stored array has one node more than the tree. It stays zero, so it acts as a leaf for polygon 0 that is hit
      exactly when the query's minimum corner is the origin. */
  lemma WalkStored(t: Tree, q: Box)
    requires Encloses(t)
    ensures WalkFrom(Flatten(t) + [ZERO_NODE], 0, q) ==
      Hits(Leaves(t), q) + if q.bmin == (0, 0, 0) then [0] else []
  {
    hide Hits, Encloses;
    var ns := Flatten(t) + [ZERO_NODE];
    assert ns[0..|Flatten(t)|] == Flatten(t);
    WalkTree(ns, 0, t, q);
    assert ns[|Flatten(t)|] == ZERO_NODE;
    assert WalkFrom(ns, |ns|, q) == [];
  }

  // ----- Building -----

  function MinPoint(a: Point, b: Point): Point {
    (Min(a.0, b.0), Min(a.1, b.1), Min(a.2, b.2))
  }

  function MaxPoint(a: Point, b: Point): Point {
    (Max(a.0, b.0), Max(a.1, b.1), Max(a.2, b.2))
  }

  function Join(a: Box, b: Box): Box {
    Box(MinPoint(a.bmin, b.bmin), MaxPoint(a.bmax, b.bmax))
  }

  /** `box` encloses the items and no smaller box does: each of its sides is touched by some item. */
  ghost predicate Hull(items: seq<Item>, box: Box) {
    && (forall x :: x in items ==> Inside(x.box, box))
    && (forall axis: nat :: axis < 3 ==>
          && (exists x :: x in items && Coord(x.box.bmin, axis) == Coord(box.bmin, axis))
          && (exists x :: x in items && Coord(x.box.bmax, axis) == Coord(box.bmax, axis)))
  }

  lemma HullJoin(items: seq<Item>, box: Box, x: Item)
    requires Hull(items, box)
    ensures Hull(items + [x], Join(box, x.box))
  {
    var b := Join(box, x.box);
    forall axis: nat | axis < 3
      ensures exists y :: y in items + [x] && Coord(y.box.bmin, axis) == Coord(b.bmin, axis)
      ensures exists y :: y in items + [x] && Coord(y.box.bmax, axis) == Coord(b.bmax, axis)
    {
      var lo :| lo in items && Coord(lo.box.bmin, axis) == Coord(box.bmin, axis);
      var hi :| hi in items && Coord(hi.box.bmax, axis) == Coord(box.bmax, axis);
      assert lo in items + [x] && hi in items + [x] && x in items + [x];
    }
  }

  method CalcExtends(items: array<Item>, imin: nat, imax: nat) returns (box: Box)
    requires imin < imax <= items.Length
    ensures Hull(items[imin..imax], box)
  {
    box := items[imin].box;
    assert items[imin..imin + 1] == [items[imin]] && items[imin] in items[imin..imin + 1];
    for i := imin + 1 to imax
      invariant Hull(items[imin..i], box)
    {
      var it := items[i].box;
      HullJoin(items[imin..i], box, items[i]);
      assert items[imin..i + 1] == items[imin..i] + [items[i]];
      box := Box(
        (if it.bmin.0 < box.bmin.0 then it.bmin.0 else box.bmin.0,
         if it.bmin.1 < box.bmin.1 then it.bmin.1 else box.bmin.1,
         if it.bmin.2 < box.bmin.2 then it.bmin.2 else box.bmin.2),
        (if it.bmax.0 > box.bmax.0 then it.bmax.0 else box.bmax.0,
         if it.bmax.1 > box.bmax.1 then it.bmax.1 else box.bmax.1,
         if it.bmax.2 > box.bmax.2 then it.bmax.2 else box.bmax.2));
    }
  }

  /** Conversion to unsigned short. */
  function Ushort(x: int): nat {
    x % 0x1_0000
  }

  /** The axis with the largest extent, the earlier one on a tie. */
  function LongestAxis(x: nat, y: nat, z: nat): (axis: nat)
    ensures axis < 3
    ensures forall k: nat :: k < 3 ==> Coord((x, y, z), k) <= Coord((x, y, z), axis)
    ensures forall k: nat :: k < axis ==> Coord((x, y, z), k) < Coord((x, y, z), axis)
  {
    var axis, maxVal := if y > x then 1 else 0, if y > x then y else x;
    if z > maxVal then 2 else axis
  }

  /** The item comparators: ascending minimum along an axis. */
  predicate SortedBy(axis: nat, s: seq<Item>) {
    forall j, k :: 0 <= j < k < |s| ==> Coord(s[j].box.bmin, axis) <= Coord(s[k].box.bmin, axis)
  }

  function Insert(axis: nat, x: Item, s: seq<Item>): seq<Item> {
    if s == [] || Coord(x.box.bmin, axis) <= Coord(s[0].box.bmin, axis) then [x] + s
    else [s[0]] + Insert(axis, x, s[1..])
  }

  function InsertionSort(axis: nat, s: seq<Item>): seq<Item> {
    if s == [] then [] else Insert(axis, s[0], InsertionSort(axis, s[1..]))
  }

  lemma InsertedAbove(axis: nat, x: Item, s: seq<Item>, r: seq<Item>)
    requires s != [] && SortedBy(axis, s) && SortedBy(axis, r) && multiset(r) == multiset(s[1..]) + multiset{x}
    requires Coord(s[0].box.bmin, axis) <= Coord(x.box.bmin, axis)
    ensures SortedBy(axis, [s[0]] + r)
  {
    forall k | 0 <= k < |r|
      ensures Coord(s[0].box.bmin, axis) <= Coord(r[k].box.bmin, axis)
    {
      assert r[k] in multiset(s[1..]) + multiset{x};
      assert r[k] == x || r[k] in s[1..];
    }
  }

  lemma {:induction false} InsertSorts(axis: nat, x: Item, s: seq<Item>)
    requires SortedBy(axis, s)
    ensures SortedBy(axis, Insert(axis, x, s)) && multiset(Insert(axis, x, s)) == multiset(s) + multiset{x}
  {
    hide Coord;
    if s != [] && Coord(x.box.bmin, axis) > Coord(s[0].box.bmin, axis) {
      var r := Insert(axis, x, s[1..]);
      InsertSorts(axis, x, s[1..]);
      assert s == [s[0]] + s[1..];
      InsertedAbove(axis, x, s, r);
    }
  }

  /** A sorted rearrangement exists. */
  lemma {:induction false} SortExists(axis: nat, s: seq<Item>)
    ensures SortedBy(axis, InsertionSort(axis, s)) && multiset(InsertionSort(axis, s)) == multiset(s)
  {
    if s != [] {
      SortExists(axis, s[1..]);
      InsertSorts(axis, s[0], InsertionSort(axis, s[1..]));
      assert s == [s[0]] + s[1..];
    }
  }

  /** qsort with one of the item comparators: any sorted rearrangement, equal keys in no particular order. */
  method QSort(items: array<Item>, imin: nat, imax: nat, axis: nat)
    requires imin <= imax <= items.Length
    modifies items
    ensures SortedBy(axis, items[imin..imax])
    ensures multiset(items[imin..imax]) == multiset(old(items[imin..imax]))
    ensures SameOutside(items[..], old(items[..]), imin, imax)
  {
    SortExists(axis, items[imin..imax]);
    var sorted: seq<Item> :| SortedBy(axis, sorted) && multiset(sorted) == multiset(items[imin..imax]);
    assert |multiset(sorted)| == |sorted|;
    forall k | imin <= k < imax {
      items[k] := sorted[k - imin];
    }
    assert items[imin..imax] == sorted;
  }

  /** Only the cells from `lo` to below `hi` differ. */
  predicate SameOutside<T(==)>(s: seq<T>, s0: seq<T>, lo: nat, hi: nat) {
    |s| == |s0| && forall k :: 0 <= k < |s| && !(lo <= k < hi) ==> s[k] == s0[k]
  }

  /** The items in `[imin, imax)` were rearranged into the tree's leaf order. */
  ghost predicate ItemsBuilt(items: seq<Item>, items0: seq<Item>, imin: nat, imax: nat, t: Tree) {
    && imin < imax <= |items| && SameOutside(items, items0, imin, imax)
    && items[imin..imax] == Leaves(t) && multiset(Leaves(t)) == multiset(items0[imin..imax])
  }

  /** The nodes from `icur` on are the flattened tree. */
  ghost predicate NodesBuilt(nodes: seq<BVNode>, nodes0: seq<BVNode>, icur: nat, t: Tree) {
    && icur + |Flatten(t)| <= |nodes| && SameOutside(nodes, nodes0, icur, icur + |Flatten(t)|)
    && nodes[icur..icur + |Flatten(t)|] == Flatten(t)
  }

  lemma SplitSlice<T>(s: seq<T>, a: nat, m: nat, b: nat)
    requires a <= m <= b <= |s|
    ensures s[a..b] == s[a..m] + s[m..b]
  {
  }

  lemma JoinItems(items0: seq<Item>, items1: seq<Item>, items2: seq<Item>, items3: seq<Item>,
                  imin: nat, isplit: nat, imax: nat, box: Box, l: Tree, r: Tree)
    requires imin < isplit < imax <= |items0| && SameOutside(items1, items0, imin, imax)
    requires multiset(items1[imin..imax]) == multiset(items0[imin..imax])
    requires ItemsBuilt(items2, items1, imin, isplit, l) && ItemsBuilt(items3, items2, isplit, imax, r)
    ensures ItemsBuilt(items3, items0, imin, imax, Node(box, l, r))
  {
    SplitSlice(items1, imin, isplit, imax);
    SplitSlice(items3, imin, isplit, imax);
    assert items3[imin..isplit] == items2[imin..isplit];
    assert items2[isplit..imax] == items1[isplit..imax];
  }

  lemma JoinNodes(nodes0: seq<BVNode>, nodes1: seq<BVNode>, nodes2: seq<BVNode>, icur: nat, box: Box,
                  l: Tree, r: Tree)
    requires icur < |nodes0|
    requires NodesBuilt(nodes1, nodes0, icur + 1, l) && NodesBuilt(nodes2, nodes1, icur + 1 + |Flatten(l)|, r)
    ensures var t := Node(box, l, r);
      NodesBuilt(nodes2[icur := BVNode(box, -(2 * Count(t) - 1))], nodes0, icur, t)
  {
    hide Flatten;
    var t, m := Node(box, l, r), icur + 1 + |Flatten(l)|;
    var root := BVNode(box, -(2 * Count(t) - 1));
    FlattenInner(box, l, r);
    ThreeParts(nodes1, nodes2, icur, root, m, m + |Flatten(r)|);
  }

  lemma ThreeParts<T>(s1: seq<T>, s2: seq<T>, a: nat, x: T, m: nat, e: nat)
    requires a < m <= e <= |s2| == |s1| && forall k :: a < k < m ==> s2[k] == s1[k]
    ensures s2[a := x][a..e] == [x] + s1[a + 1..m] + s2[m..e]
  {
    assert s2[a + 1..m] == s1[a + 1..m];
    assert s2[a := x][a..e] == [x] + s2[a + 1..m] + s2[m..e];
  }

  lemma LeafNodes(nodes: seq<BVNode>, icur: nat, item: Item)
    requires icur < |nodes|
    ensures NodesBuilt(nodes[icur := BVNode(item.box, item.i)], nodes, icur, Leaf(item))
  {
  }

  lemma HullEncloses(items0: seq<Item>, box: Box, l: Tree, r: Tree)
    requires Encloses(l) && Encloses(r) && Hull(items0, box)
    requires multiset(Leaves(Node(box, l, r))) == multiset(items0)
    ensures Encloses(Node(box, l, r))
  {
    forall x | x in Leaves(Node(box, l, r))
      ensures Inside(x.box, box)
    {
      assert x in multiset(items0);
    }
  }

  method WriteLeaf(items: array<Item>, imin: nat, icur: nat, nodes: array<BVNode>) returns (ghost t: Tree)
    requires imin < items.Length && icur < nodes.Length
    modifies nodes
    ensures ItemsBuilt(items[..], old(items[..]), imin, imin + 1, t)
    ensures NodesBuilt(nodes[..], old(nodes[..]), icur, t)
    ensures Encloses(t) && Halved(t) && Count(t) == 1
  {
    ghost var nodes0 := nodes[..];
    nodes[icur] := BVNode(items[imin].box, items[imin].i);
    t := Leaf(items[imin]);
    assert items[..][imin..imin + 1] == [items[imin]];
    LeafNodes(nodes0, icur, items[imin]);
    assert nodes[..] == nodes0[icur := nodes[icur]];
  }

  /** Build the items in `[imin, imax)` into nodes from `icur` on; `t` is the tree that was built. */
  method Subdivide(items: array<Item>, imin: nat, imax: nat, icur: nat, nodes: array<BVNode>)
    returns (curNode: nat, ghost t: Tree)
    requires imin < imax <= items.Length && icur + 2 * (imax - imin) - 1 <= nodes.Length
    modifies items, nodes
    ensures curNode == icur + 2 * (imax - imin) - 1
    ensures ItemsBuilt(items[..], old(items[..]), imin, imax, t)
    ensures NodesBuilt(nodes[..], old(nodes[..]), icur, t)
    ensures Encloses(t) && Halved(t) && Count(t) == imax - imin
    decreases imax - imin
  {
    hide Flatten, Leaves, Hull, ItemsBuilt, NodesBuilt, SameOutside, SortedBy, Encloses, Halved, Count;
    var inum := imax - imin;
    ghost var items0, nodes0 := items[..], nodes[..];
    if inum == 1 {
      t := WriteLeaf(items, imin, icur, nodes);
      curNode := icur + 1;
    } else {
      var box := CalcExtends(items, imin, imax);
      var axis := LongestAxis(Ushort(box.bmax.0 - box.bmin.0), Ushort(box.bmax.1 - box.bmin.1),
                              Ushort(box.bmax.2 - box.bmin.2));
      QSort(items, imin, imax, axis);
      ghost var items1 := items[..];
      var isplit := imin + inum / 2;
      ghost var l, r;
      curNode, l := Subdivide(items, imin, isplit, icur + 1, nodes);
      ghost var items2, nodes2 := items[..], nodes[..];
      curNode, r := Subdivide(items, isplit, imax, curNode, nodes);
      ghost var nodes3 := nodes[..];
      var iescape := curNode - icur;
      nodes[icur] := BVNode(box, -iescape);
      t := Node(box, l, r);
      assert nodes[..] == nodes3[icur := nodes[icur]];
      assert nodes[icur] == BVNode(box, -(2 * inum - 1));
      JoinBuilt(items0, items1, items2, items[..], nodes0, nodes2, nodes3, imin, isplit, imax, icur, box, l, r);
      assert NodesBuilt(nodes[..], nodes0, icur, t);
    }
  }

  /** Two halves built one after the other, under a node written last. */
  lemma JoinBuilt(items0: seq<Item>, items1: seq<Item>, items2: seq<Item>, items3: seq<Item>,
                  nodes0: seq<BVNode>, nodes1: seq<BVNode>, nodes2: seq<BVNode>,
                  imin: nat, isplit: nat, imax: nat, icur: nat, box: Box, l: Tree, r: Tree)
    requires imin < isplit < imax <= |items0| && SameOutside(items1, items0, imin, imax)
    requires multiset(items1[imin..imax]) == multiset(items0[imin..imax]) && Hull(items0[imin..imax], box)
    requires ItemsBuilt(items2, items1, imin, isplit, l) && ItemsBuilt(items3, items2, isplit, imax, r)
    requires icur < |nodes0|
    requires NodesBuilt(nodes1, nodes0, icur + 1, l) && NodesBuilt(nodes2, nodes1, icur + 1 + |Flatten(l)|, r)
    requires Encloses(l) && Encloses(r) && Halved(l) && Halved(r)
    requires Count(l) == isplit - imin == (imax - imin) / 2 && Count(r) == imax - isplit
    ensures var t := Node(box, l, r);
      && Count(t) == imax - imin && Encloses(t) && Halved(t)
      && ItemsBuilt(items3, items0, imin, imax, t)
      && NodesBuilt(nodes2[icur := BVNode(box, -(2 * (imax - imin) - 1))], nodes0, icur, t)
  {
    hide Flatten, NodesBuilt, SameOutside;
    JoinItems(items0, items1, items2, items3, imin, isplit, imax, box, l, r);
    JoinNodes(nodes0, nodes1, nodes2, icur, box, l, r);
    HullEncloses(items0[imin..imax], box, l, r);
  }

  /** createBVTree followed by storing: `boxes[i]` are the polygons' quantised boxes. The header claims twice as many
      nodes as there are polygons, one more than are written. */
  method CreateBVTree(boxes: seq<Box>) returns (nodes: array<BVNode>, ghost t: Tree)
    requires boxes != []
    ensures fresh(nodes) && nodes.Length == 2 * |boxes| && nodes[..] == Flatten(t) + [ZERO_NODE]
    ensures Encloses(t) && Halved(t) && multiset(Leaves(t)) == multiset(Items(boxes))
  {
    var items := new Item[|boxes|](i requires 0 <= i < |boxes| => Item(boxes[i], i));
    nodes := new BVNode[2 * |boxes|](_ => ZERO_NODE);
    ghost var items0, nodes0 := items[..], nodes[..];
    assert items0 == Items(boxes);
    var curNode;
    curNode, t := Subdivide(items, 0, |boxes|, 0, nodes);
    assert items0[0..|boxes|] == items0;
    assert nodes[..] == nodes[0..curNode] + [nodes[curNode]];
  }

  function Items(boxes: seq<Box>): (s: seq<Item>)
    ensures |s| == |boxes| && forall i :: 0 <= i < |boxes| ==> s[i] == Item(boxes[i], i)
  {
    seq(|boxes|, i requires 0 <= i < |boxes| => Item(boxes[i], i))
  }

  lemma {:induction false} HitsAreItems(s: seq<Item>, q: Box, x: int)
    ensures x in Hits(s, q) <==> exists it :: it in s && Overlap(q, it.box) && it.i == x
  {
    if s != [] {
      HitsAreItems(s[1..], q, x);
      assert s == [s[0]] + s[1..];
      if exists it :: it in s && Overlap(q, it.box) && it.i == x {
        var it :| it in s && Overlap(q, it.box) && it.i == x;
        assert it == s[0] || it in s[1..];
      }
      if exists it :: it in s[1..] && Overlap(q, it.box) && it.i == x {
        var it :| it in s[1..] && Overlap(q, it.box) && it.i == x;
        assert it in s;
      }
    }
  }

  lemma {:induction false} HitsOnce(s: seq<Item>, q: Box)
    requires forall j, k :: 0 <= j < k < |s| ==> s[j].i != s[k].i
    ensures Distinct(Hits(s, q))
  {
    if s != [] {
      HitsOnce(s[1..], q);
      HitsAreItems(s[1..], q, s[0].i);
      assert forall it :: it in s[1..] ==> it.i != s[0].i;
    }
  }

  lemma TwiceCounts<T>(s: seq<T>, j: nat, k: nat)
    requires j < k < |s|
    ensures s[j] == s[k] ==> multiset(s)[s[j]] >= 2
  {
    assert s == s[..j] + [s[j]] + s[j + 1..k] + [s[k]] + s[k + 1..];
  }

  lemma ItemCountsOnce(boxes: seq<Box>, n: nat, x: Item)
    requires n <= |boxes|
    ensures multiset(Items(boxes)[..n])[x] == if x.i < n && x.box == boxes[x.i] then 1 else 0
  {
    if n > 0 {
      ItemCountsOnce(boxes, n - 1, x);
      assert Items(boxes)[..n] == Items(boxes)[..n - 1] + [Items(boxes)[n - 1]];
    }
  }

  lemma LeavesOnce(boxes: seq<Box>, s: seq<Item>)
    requires multiset(s) == multiset(Items(boxes))
    ensures forall j, k :: 0 <= j < k < |s| ==> s[j].i != s[k].i
  {
    var items := Items(boxes);
    assert items[..|boxes|] == items;
    forall j, k | 0 <= j < k < |s|
      ensures s[j].i != s[k].i
    {
      ItemCountsOnce(boxes, |boxes|, s[j]);
      ItemCountsOnce(boxes, |boxes|, s[k]);
      assert s[j] in multiset(s) && s[k] in multiset(s);
      TwiceCounts(s, j, k);
    }
  }

  /** A query on the stored tree reports each polygon whose box meets the query exactly once, no other polygon, and
      behind them polygon 0 once more exactly when the query's minimum corner is the origin. */
  lemma QueryIsOverlapTest(boxes: seq<Box>, t: Tree, q: Box)
    requires boxes != [] && Encloses(t) && multiset(Leaves(t)) == multiset(Items(boxes))
    ensures var hits := Hits(Leaves(t), q);
      && WalkFrom(Flatten(t) + [ZERO_NODE], 0, q) == hits + (if q.bmin == (0, 0, 0) then [0] else [])
      && Distinct(hits) && forall i: int :: i in hits <==> 0 <= i < |boxes| && Overlap(q, boxes[i])
  {
    WalkStored(t, q);
    LeavesOnce(boxes, Leaves(t));
    HitsOnce(Leaves(t), q);
    forall i: int
      ensures i in Hits(Leaves(t), q) <==> 0 <= i < |boxes| && Overlap(q, boxes[i])
    {
      HitsAreItems(Leaves(t), q, i);
      LeafItems(boxes, t);
      assert 0 <= i < |boxes| ==> Items(boxes)[i] in Items(boxes);
    }
  }

  lemma LeafItems(boxes: seq<Box>, t: Tree)
    requires multiset(Leaves(t)) == multiset(Items(boxes))
    ensures forall x :: x in Leaves(t) <==> x in Items(boxes)
  {
    assert forall x :: x in Leaves(t) <==> x in multiset(Leaves(t));
    assert forall x :: x in Items(boxes) <==> x in multiset(Items(boxes));
  }

  /** The stored nodes are those of tree `t` for the polygons' boxes. */
  ghost predicate Stores(ns: seq<BVNode>, boxes: seq<Box>, t: Tree) {
    && boxes != [] && Encloses(t) && multiset(Leaves(t)) == multiset(Items(boxes))
    && ns == Flatten(t) + [ZERO_NODE] && forall i :: 0 <= i < |boxes| ==> Proper(boxes[i])
  }

  /** Up to `max` references: those of the polygons whose boxes share a point with the query, in some order, each once;
      behind them polygon 0 if the query's minimum corner is the origin. */
  ghost predicate Answers(polys: seq<int>, boxes: seq<Box>, q: Box, base: nat, max: nat) {
    exists hits: seq<int> ::
      && Distinct(hits) && (forall i: int :: i in hits <==> 0 <= i < |boxes| && Meet(q, boxes[i]))
      && AreRefs(polys, hits + (if q.bmin == (0, 0, 0) then [0] else []), base, max)
  }

  predicate AreRefs(polys: seq<int>, all: seq<int>, base: nat, max: nat) {
    |polys| == Min(|all|, max) && forall k :: 0 <= k < |polys| ==> polys[k] == base + all[k]
  }

  lemma WalkAnswers(ns: seq<BVNode>, boxes: seq<Box>, t: Tree, q: Box, polys: seq<int>, base: nat, max: nat)
    requires Stores(ns, boxes, t) && Proper(q) && AreRefs(polys, WalkFrom(ns, 0, q), base, max)
    ensures Answers(polys, boxes, q, base, max)
  {
    QueryIsOverlapTest(boxes, t, q);
    hide Overlap, Meet, AreRefs, Hits, WalkFrom, Encloses;
    var hits := Hits(Leaves(t), q);
    forall i: int
      ensures i in hits <==> 0 <= i < |boxes| && Meet(q, boxes[i])
    {
      if 0 <= i < |boxes| {
        OverlapIffMeet(q, boxes[i]);
      }
    }
  }

  /** queryPolygonsInTile on a tile with a tree: polygon references `base + i`, at most `maxPolys` of them. */
  method QueryPolygonsInTile(bvTree: array<BVNode>, q: Box, base: nat, maxPolys: nat,
                             ghost boxes: seq<Box>, ghost t: Tree)
    returns (polys: seq<int>)
    ensures AreRefs(polys, WalkFrom(bvTree[..], 0, q), base, maxPolys)
    ensures Stores(bvTree[..], boxes, t) && Proper(q) ==> Answers(polys, boxes, q, base, maxPolys)
  {
    hide Stores, Answers;
    polys := [];
    var node := 0;
    ghost var ns, seen := bvTree[..], [];
    while node < bvTree.Length
      invariant 0 <= node
      invariant WalkFrom(ns, 0, q) == seen + WalkFrom(ns, node, q)
      invariant AreRefs(polys, seen, base, maxPolys)
      decreases bvTree.Length - node
    {
      var overlap := Overlap(q, bvTree[node].box);
      var isLeafNode := bvTree[node].i >= 0;
      if isLeafNode && overlap {
        if |polys| < maxPolys {
          polys := polys + [base + bvTree[node].i];
        }
        seen := seen + [bvTree[node].i];
      }
      if overlap || isLeafNode {
        node := node + 1;
      } else {
        var escapeIndex := -bvTree[node].i;
        node := node + escapeIndex;
      }
    }
    if Stores(ns, boxes, t) && Proper(q) {
      WalkAnswers(ns, boxes, t, q, polys, base, maxPolys);
    }
  }

  // ----- Quantisation -----

  function Clamp(x: real, lo: real, hi: real): real {
    if x < lo then lo else if x > hi then hi else x
  }

  function RoundDown(x: real): int {
    x.Floor - x.Floor % 2
  }

  function RoundUp(x: real): int {
    var v := (x + 1.0).Floor;
    if v % 2 == 0 then v + 1 else v
  }

  /** Rounding goes outwards by no more than two, to even numbers below and odd ones above. */
  lemma RoundingIsTight(x: real)
    ensures RoundDown(x) as real <= x < (RoundDown(x) + 2) as real && RoundDown(x) % 2 == 0
    ensures x < RoundUp(x) as real <= x + 2.0 && RoundUp(x) % 2 == 1
  {
  }

  lemma RoundedOverlap(qlo: real, qhi: real, lo: real, hi: real, top: real, ilo: nat, ihi: nat)
    requires 0.0 <= qlo <= hi && lo <= qhi <= top && top + 2.0 <= 65536.0
    requires ilo as real <= lo && hi.Floor <= ihi
    ensures 0 <= RoundDown(qlo) <= ihi && ilo <= RoundUp(qhi) < 0x1_0000
  {
  }

  /** A coordinate's offset within the tile in quantised units. */
  function Scale(x: real, tmin: real, qfac: real): real {
    qfac * (x - tmin)
  }

  lemma ScaleMonotone(x: real, y: real, tmin: real, qfac: real)
    requires x <= y && qfac > 0.0
    ensures Scale(x, tmin, qfac) <= Scale(y, tmin, qfac)
  {
  }

  /** One coordinate of the query box: clamped to the tile, scaled, and rounded outwards to even and odd numbers. */
  function QuantMin(x: real, tmin: real, tmax: real, qfac: real): int {
    RoundDown(Scale(Clamp(x, tmin, tmax), tmin, qfac))
  }

  function QuantMax(x: real, tmin: real, tmax: real, qfac: real): int {
    RoundUp(Scale(Clamp(x, tmin, tmax), tmin, qfac))
  }

  /** Quantisation never loses an overlap: an item within the tile whose real extent meets the query's real extent
      on an axis meets it in quantised coordinates, in range of 16 bits. */
  lemma QuantisationKeepsOverlap(lo: real, hi: real, qlo: real, qhi: real, tmin: real, tmax: real, qfac: real,
                                 ilo: nat, ihi: nat)
    requires qfac > 0.0 && tmin <= lo <= hi <= tmax && Scale(tmax, tmin, qfac) + 2.0 <= 65536.0
    requires ilo as real <= Scale(lo, tmin, qfac) && Scale(hi, tmin, qfac).Floor <= ihi
    requires lo <= qhi && qlo <= hi && qlo <= qhi
    ensures 0 <= QuantMin(qlo, tmin, tmax, qfac) <= ihi && ilo <= QuantMax(qhi, tmin, tmax, qfac) < 0x1_0000
  {
    var a, b := Clamp(qlo, tmin, tmax), Clamp(qhi, tmin, tmax);
    assert Scale(tmin, tmin, qfac) == 0.0;
    hide Scale, RoundDown, RoundUp;
    ScaleMonotone(a, hi, tmin, qfac);
    ScaleMonotone(lo, b, tmin, qfac);
    ScaleMonotone(b, tmax, tmin, qfac);
    ScaleMonotone(tmin, a, tmin, qfac);
    RoundedOverlap(Scale(a, tmin, qfac), Scale(b, tmin, qfac), Scale(lo, tmin, qfac), Scale(hi, tmin, qfac),
                   Scale(tmax, tmin, qfac), ilo, ihi);
  }

  /** Nor does it add one by much: items whose quantised coordinates, rounded down and up, meet the quantised query are
      less than three units away from the query's part in the tile. */
  lemma QuantisationAddsLittle(lo: real, hi: real, qlo: real, qhi: real, tmin: real, tmax: real, qfac: real,
                               ilo: nat, ihi: nat)
    requires qfac > 0.0 && ilo == Scale(lo, tmin, qfac).Floor && ihi as real <= Scale(hi, tmin, qfac) + 1.0
    requires QuantMin(qlo, tmin, tmax, qfac) <= ihi && ilo <= QuantMax(qhi, tmin, tmax, qfac)
    ensures Scale(Clamp(qlo, tmin, tmax), tmin, qfac) < Scale(hi, tmin, qfac) + 3.0
    ensures Scale(lo, tmin, qfac) < Scale(Clamp(qhi, tmin, tmax), tmin, qfac) + 3.0
  {
    RoundingIsTight(Scale(Clamp(qlo, tmin, tmax), tmin, qfac));
    RoundingIsTight(Scale(Clamp(qhi, tmin, tmax), tmin, qfac));
    hide Scale, Clamp, RoundDown, RoundUp;
  }
}
