/** The links of one navigation mesh tile: a pool of cells, each on the free list or on one polygon's list. */
module LinkStores {
  import opened Basics
  import opened SharedLists

  /** A decoded polygon reference: the tile's salt and slot, and the polygon in the tile. */
  datatype PolyRef = PolyRef(salt: nat, it: nat, ip: nat)

  datatype Link = Link(ref: PolyRef, edge: nat, side: nat)

  datatype Cell = Cell(link: Link, next: int)

  datatype LinkStore = LinkStore(cells: seq<Cell>, free: int, firstLink: seq<int>)

  function Nexts(cells: seq<Cell>): (next: seq<int>)
    ensures |next| == |cells| && forall i :: 0 <= i < |cells| ==> next[i] == cells[i].next
  {
    seq(|cells|, i requires 0 <= i < |cells| => cells[i].next)
  }

  function Heads(s: LinkStore): seq<int> {
    [s.free] + s.firstLink
  }

  /** List 0 is the free list, list `1 + p` that of polygon `p`. */
  ghost predicate Threaded(s: LinkStore, lists: seq<seq<nat>>, owner: seq<nat>) {
    && Shared(Nexts(s.cells), Heads(s), lists, owner)
    && forall i :: 0 <= i < |owner| ==> owner[i] < |lists|
  }

  /** Every cell is on exactly one list. */
  ghost predicate StoreOk(s: LinkStore) {
    exists lists, owner :: Threaded(s, lists, owner)
  }

  ghost function Lists(s: LinkStore): (lists: seq<seq<nat>>)
    requires StoreOk(s)
    ensures |lists| == 1 + |s.firstLink|
    ensures forall l :: 0 <= l < |lists| ==> Within(lists[l], |s.cells|)
  {
    var lists, owner :| Threaded(s, lists, owner);
    assert forall l :: 0 <= l < |lists| ==> Within(lists[l], |s.cells|) by {
      forall l | 0 <= l < |lists|
        ensures Within(lists[l], |s.cells|)
      {
        InBounds(Nexts(s.cells), Heads(s), lists, owner, l);
      }
    }
    lists
  }

  lemma Threads(s: LinkStore) returns (owner: seq<nat>)
    requires StoreOk(s)
    ensures Threaded(s, Lists(s), owner)
  {
    owner :| Threaded(s, Lists(s), owner);
  }

  function LinksAt(cells: seq<Cell>, list: seq<nat>): (links: seq<Link>)
    requires Within(list, |cells|)
    ensures |links| == |list| && forall k :: 0 <= k < |list| ==> links[k] == cells[list[k]].link
  {
    seq(|list|, k requires 0 <= k < |list| => cells[list[k]].link)
  }

  /** The links of polygon `p`, in list order. */
  ghost function LinksOf(s: LinkStore, p: nat): (links: seq<Link>)
    requires StoreOk(s) && p < |s.firstLink|
    ensures |links| == |Lists(s)[1 + p]|
    ensures forall k :: 0 <= k < |links| ==> links[k] == s.cells[Lists(s)[1 + p][k]].link
  {
    LinksAt(s.cells, Lists(s)[1 + p])
  }

  ghost function FreeCount(s: LinkStore): nat
    requires StoreOk(s)
  {
    |Lists(s)[0]|
  }

  /** The lists are determined by the links. */
  lemma ListsUnique(s: LinkStore, lists: seq<seq<nat>>, owner: seq<nat>)
    requires Threaded(s, lists, owner)
    ensures StoreOk(s) && Lists(s) == lists
  {
    var lists' := Lists(s);
    var owner' := Threads(s);
    var next, heads := Nexts(s.cells), Heads(s);
    forall l | 0 <= l < |lists|
      ensures lists[l] == lists'[l]
    {
      assert ListOk(next, heads[l], lists[l], owner, l) && ListOk(next, heads[l], lists'[l], owner', l);
      if |lists[l]| <= |lists'[l]| {
        ChainUnique(next, heads[l], lists[l], lists'[l]);
      } else {
        ChainUnique(next, heads[l], lists'[l], lists[l]);
      }
    }
  }

  /** The head and the links of one list. */
  lemma ListFacts(s: LinkStore, l: nat)
    requires StoreOk(s) && l <= |s.firstLink|
    ensures var list := Lists(s)[l];
      && Heads(s)[l] == After(list, -1) && Distinct(list)
      && forall k :: 0 <= k < |list| ==> s.cells[list[k]].next == After(list, k)
  {
    var owner := Threads(s);
    assert ListOk(Nexts(s.cells), Heads(s)[l], Lists(s)[l], owner, l);
    forall k | 0 <= k < |Lists(s)[l]|
      ensures s.cells[Lists(s)[l][k]].next == After(Lists(s)[l], k)
    {
      assert Nexts(s.cells)[Lists(s)[l][k]] == After(Lists(s)[l], k);
    }
  }

  /** Different polygons' lists and the free list have no cell in common. */
  lemma ListsDisjoint(s: LinkStore, l: nat, m: nat, k: nat)
    requires StoreOk(s) && l <= |s.firstLink| && m <= |s.firstLink| && l != m && k < |Lists(s)[l]|
    ensures Lists(s)[l][k] !in Lists(s)[m]
  {
    var owner := Threads(s);
    assert ListOk(Nexts(s.cells), Heads(s)[l], Lists(s)[l], owner, l);
    assert ListOk(Nexts(s.cells), Heads(s)[m], Lists(s)[m], owner, m);
    assert Lists(s)[l][k] in Lists(s)[l];
  }

  // ----- Adding a link -----

  /** allocLink and linking in front of polygon `p`'s list; nothing happens when no cell is free. */
  function Add(s: LinkStore, p: nat, link: Link): (s': LinkStore)
    requires p < |s.firstLink| && -1 <= s.free < |s.cells|
    ensures |s'.firstLink| == |s.firstLink|
  {
    if s.free == NULL then s
    else LinkStore(s.cells[s.free := Cell(link, s.firstLink[p])], s.cells[s.free].next, s.firstLink[p := s.free])
  }

  lemma FreeInBounds(s: LinkStore)
    requires StoreOk(s)
    ensures -1 <= s.free < |s.cells| && (s.free == NULL <==> FreeCount(s) == 0)
    ensures s.free != NULL ==> Lists(s)[0][0] == s.free
  {
    ListFacts(s, 0);
  }

  lemma AddLists(s: LinkStore, p: nat, link: Link)
    requires StoreOk(s) && p < |s.firstLink| && -1 <= s.free < |s.cells| && s.free != NULL
    ensures Lists(s)[0] != [] && Lists(s)[0][0] == s.free && StoreOk(Add(s, p, link))
    ensures Lists(Add(s, p, link)) ==
      Lists(s)[0 := RemoveAt(Lists(s)[0], 0)][1 + p := [s.free] + Lists(s)[1 + p]]
  {
    FreeInBounds(s);
    var owner := Threads(s);
    hide Shared, RemoveAt;
    var lists, next, heads := Lists(s), Nexts(s.cells), Heads(s);
    MoveToFront(next, heads, lists, owner, 0, 0, 1 + p);
    var s' := Add(s, p, link);
    assert Nexts(s'.cells) == next[s.free := heads[1 + p]];
    assert Heads(s') == heads[0 := next[s.free]][1 + p := s.free];
    var lists' := lists[0 := RemoveAt(lists[0], 0)][1 + p := [s.free] + lists[1 + p]];
    assert Threaded(s', lists', owner[s.free := 1 + p]);
    ListsUnique(s', lists', owner[s.free := 1 + p]);
  }

  lemma LinksAtWrite(cells: seq<Cell>, i: nat, cell: Cell, list: seq<nat>)
    requires Within(list, |cells|) && i < |cells| && i !in list
    ensures LinksAt(cells[i := cell], list) == LinksAt(cells, list)
    ensures LinksAt(cells[i := cell], [i] + list) == [cell.link] + LinksAt(cells, list)
  {
  }

  lemma AddLinks(s: LinkStore, p: nat, link: Link, q: nat)
    requires StoreOk(s) && p < |s.firstLink| && q < |s.firstLink| && -1 <= s.free < |s.cells| && s.free != NULL
    ensures StoreOk(Add(s, p, link))
    ensures LinksOf(Add(s, p, link), q) == if q == p then [link] + LinksOf(s, q) else LinksOf(s, q)
  {
    hide StoreOk, RemoveAt, Lists, LinksAt;
    AddLists(s, p, link);
    ListsDisjoint(s, 0, 1 + q, 0);
    LinksAtWrite(s.cells, s.free, Cell(link, s.firstLink[p]), Lists(s)[1 + q]);
  }

  /** A link is added in front of its polygon's list as long as a cell is free; nothing else changes. */
  lemma AddFacts(s: LinkStore, p: nat, link: Link)
    requires StoreOk(s) && p < |s.firstLink|
    ensures -1 <= s.free < |s.cells| && StoreOk(Add(s, p, link))
    ensures FreeCount(s) == 0 ==> Add(s, p, link) == s
    ensures FreeCount(s) > 0 ==> FreeCount(Add(s, p, link)) == FreeCount(s) - 1
    ensures FreeCount(s) > 0 ==> LinksOf(Add(s, p, link), p) == [link] + LinksOf(s, p)
    ensures forall q :: 0 <= q < |s.firstLink| && q != p ==> LinksOf(Add(s, p, link), q) == LinksOf(s, q)
  {
    hide StoreOk, RemoveAt, Lists, LinksAt;
    FreeInBounds(s);
    if s.free != NULL {
      AddLists(s, p, link);
      hide LinksOf;
      forall q | 0 <= q < |s.firstLink|
        ensures LinksOf(Add(s, p, link), q) == if q == p then [link] + LinksOf(s, q) else LinksOf(s, q)
      {
        AddLinks(s, p, link, q);
      }
    }
  }

  // ----- Removing links -----

  /** Unlink cell `j` behind `pj` from polygon `p`'s list and free it. */
  function Drop(s: LinkStore, p: nat, pj: int, j: nat): LinkStore
    requires p < |s.firstLink| && j < |s.cells| && -1 <= pj < |s.cells|
  {
    var nj := s.cells[j].next;
    var first := if pj == NULL then s.firstLink[p := nj] else s.firstLink;
    var cells := if pj == NULL then s.cells else s.cells[pj := s.cells[pj].(next := nj)];
    LinkStore(cells[j := cells[j].(next := s.free)], j, first)
  }

  lemma DropWrites(s: LinkStore, p: nat, pj: int, j: nat)
    requires p < |s.firstLink| && j < |s.cells| && -1 <= pj < |s.cells| && pj != j
    ensures var s', next, heads := Drop(s, p, pj, j), Nexts(s.cells), Heads(s);
      && |s'.cells| == |s.cells| && |s'.firstLink| == |s.firstLink|
      && (forall i :: 0 <= i < |s.cells| ==> s'.cells[i].link == s.cells[i].link)
      && Nexts(s'.cells) == (if pj == NULL then next else next[pj := next[j]])[j := heads[0]]
      && Heads(s') == (if pj == NULL then heads[1 + p := next[j]] else heads)[0 := j]
  {
  }

  lemma DropLists(s: LinkStore, p: nat, k: nat)
    requires StoreOk(s) && p < |s.firstLink| && k < |Lists(s)[1 + p]|
    ensures var list := Lists(s)[1 + p];
      var s' := Drop(s, p, if k > 0 then list[k - 1] else NULL, list[k]);
      && |s'.cells| == |s.cells| && |s'.firstLink| == |s.firstLink|
      && (forall i :: 0 <= i < |s.cells| ==> s'.cells[i].link == s.cells[i].link)
      && StoreOk(s')
      && Lists(s') == Lists(s)[1 + p := RemoveAt(list, k)][0 := [list[k]] + Lists(s)[0]]
  {
    var lists := Lists(s);
    var owner := Threads(s);
    ListFacts(s, 1 + p);
    hide Shared, RemoveAt, Drop, Heads, Nexts;
    var j, pj := lists[1 + p][k], if k > 0 then lists[1 + p][k - 1] else NULL;
    MoveToFront(Nexts(s.cells), Heads(s), lists, owner, 1 + p, k, 0);
    DropWrites(s, p, pj, j);
    var s' := Drop(s, p, pj, j);
    var lists' := lists[1 + p := RemoveAt(lists[1 + p], k)][0 := [j] + lists[0]];
    assert Threaded(s', lists', owner[j := 0]);
    ListsUnique(s', lists', owner[j := 0]);
  }

  lemma LinksAtRemove(cells: seq<Cell>, cells': seq<Cell>, list: seq<nat>, k: nat)
    requires |cells'| == |cells| && forall i :: 0 <= i < |cells| ==> cells'[i].link == cells[i].link
    requires k < |list| && Within(list, |cells|)
    ensures LinksAt(cells', RemoveAt(list, k)) == RemoveAt(LinksAt(cells, list), k)
  {
  }

  lemma LinksAtSame(cells: seq<Cell>, cells': seq<Cell>, list: seq<nat>)
    requires |cells'| == |cells| && forall i :: 0 <= i < |cells| ==> cells'[i].link == cells[i].link
    requires Within(list, |cells|)
    ensures LinksAt(cells', list) == LinksAt(cells, list)
  {
  }

  /** Dropping a cell removes its link from its polygon's links and no other. */
  lemma DropFacts(s: LinkStore, p: nat, k: nat)
    requires StoreOk(s) && p < |s.firstLink| && k < |Lists(s)[1 + p]|
    ensures var list := Lists(s)[1 + p];
      var s' := Drop(s, p, if k > 0 then list[k - 1] else NULL, list[k]);
      && |s'.firstLink| == |s.firstLink| && StoreOk(s') && Lists(s')[1 + p] == RemoveAt(list, k)
      && LinksOf(s', p) == RemoveAt(LinksOf(s, p), k)
      && forall q :: 0 <= q < |s.firstLink| && q != p ==> LinksOf(s', q) == LinksOf(s, q)
  {
    DropLists(s, p, k);
    hide StoreOk, RemoveAt, Drop, Lists, LinksAt;
    var list := Lists(s)[1 + p];
    var s' := Drop(s, p, if k > 0 then list[k - 1] else NULL, list[k]);
    LinksAtRemove(s.cells, s'.cells, list, k);
    forall q | 0 <= q < |s.firstLink| && q != p
      ensures LinksOf(s', q) == LinksOf(s, q)
    {
      LinksAtSame(s.cells, s'.cells, Lists(s)[1 + q]);
    }
  }

  /** The links that do not lead into tile `target`. */
  function Keep(links: seq<Link>, target: nat): (kept: seq<Link>)
    ensures forall k :: 0 <= k < |kept| ==> kept[k] in links && kept[k].ref.it != target
    ensures (forall k :: 0 <= k < |links| ==> links[k].ref.it != target) ==> kept == links
  {
    if links == [] then []
    else if links[0].ref.it == target then Keep(links[1..], target)
    else [links[0]] + Keep(links[1..], target)
  }

  lemma KeepCons(l: Link, rest: seq<Link>, target: nat)
    ensures Keep([l] + rest, target) == (if l.ref.it == target then [] else [l]) + Keep(rest, target)
  {
    assert ([l] + rest)[1..] == rest;
  }

  lemma KeepDrop(links: seq<Link>, k: nat, target: nat)
    requires k < |links| && links[k].ref.it == target
    ensures var r := RemoveAt(links, k); r[..k] + Keep(r[k..], target) == links[..k] + Keep(links[k..], target)
  {
    hide Keep, RemoveAt;
    RemoveAtParts(links, k);
    KeepCons(links[k], links[k + 1..], target);
  }

  lemma KeepAdvance(links: seq<Link>, k: nat, target: nat)
    requires k < |links| && links[k].ref.it != target
    ensures links[..k + 1] + Keep(links[k + 1..], target) == links[..k] + Keep(links[k..], target)
  {
    hide Keep;
    KeepCons(links[k], links[k + 1..], target);
    assert links[k..] == [links[k]] + links[k + 1..];
    assert links[..k + 1] == links[..k] + [links[k]];
  }

  /** `j` is the `k`th cell on the list of polygon `p` and `pj` the one before it. */
  ghost predicate AtCell(s: LinkStore, p: nat, k: nat, pj: int, j: int)
    requires StoreOk(s) && p < |s.firstLink|
  {
    var list := Lists(s)[1 + p];
    && k <= |list| && pj == (if k > 0 then list[k - 1] else NULL)
    && j == (if k < |list| then list[k] else NULL)
  }

  lemma FirstCell(s: LinkStore, p: nat)
    requires StoreOk(s) && p < |s.firstLink|
    ensures AtCell(s, p, 0, NULL, s.firstLink[p])
  {
    hide StoreOk, Lists;
    ListFacts(s, 1 + p);
  }

  lemma NextCell(s: LinkStore, p: nat, k: nat, pj: int, j: int)
    requires StoreOk(s) && p < |s.firstLink| && AtCell(s, p, k, pj, j) && j != NULL
    ensures 0 <= j < |s.cells| && AtCell(s, p, k + 1, j, s.cells[j].next)
  {
    hide StoreOk, Lists;
    ListFacts(s, 1 + p);
  }

  /** After cell `j` was dropped, the cell that came after it is at its place. */
  lemma DroppedCell(s: LinkStore, p: nat, k: nat, pj: int, j: int)
    requires StoreOk(s) && p < |s.firstLink| && AtCell(s, p, k, pj, j) && j != NULL
    ensures 0 <= j < |s.cells| && -1 <= pj < |s.cells|
    ensures k < |LinksOf(s, p)| && s.cells[j].link == LinksOf(s, p)[k]
    ensures |Drop(s, p, pj, j).firstLink| == |s.firstLink| && StoreOk(Drop(s, p, pj, j))
    ensures LinksOf(Drop(s, p, pj, j), p) == RemoveAt(LinksOf(s, p), k)
    ensures AtCell(Drop(s, p, pj, j), p, k, pj, s.cells[j].next)
    ensures forall q :: 0 <= q < |s.firstLink| && q != p ==> LinksOf(Drop(s, p, pj, j), q) == LinksOf(s, q)
  {
    hide StoreOk, Lists, LinksOf, Drop;
    ListFacts(s, 1 + p);
    DropFacts(s, p, k);
  }

  /** The links before place `k` are those to keep; the lists of other polygons are as they were. */
  ghost predicate Unconnecting(s0: LinkStore, s: LinkStore, p: nat, target: nat, k: nat, pj: int, j: int)
    requires StoreOk(s0) && p < |s0.firstLink|
  {
    && |s.firstLink| == |s0.firstLink| && StoreOk(s) && AtCell(s, p, k, pj, j) && k <= |LinksOf(s, p)|
    && LinksOf(s, p)[..k] + Keep(LinksOf(s, p)[k..], target) == Keep(LinksOf(s0, p), target)
    && forall q :: 0 <= q < |s.firstLink| && q != p ==> LinksOf(s, q) == LinksOf(s0, q)
  }

  lemma UnconnectStart(s: LinkStore, p: nat, target: nat)
    requires StoreOk(s) && p < |s.firstLink|
    ensures Unconnecting(s, s, p, target, 0, NULL, s.firstLink[p])
  {
    hide StoreOk, LinksOf, Keep, AtCell;
    FirstCell(s, p);
    assert LinksOf(s, p)[0..] == LinksOf(s, p);
  }

  lemma UnconnectTo(s0: LinkStore, s: LinkStore, s': LinkStore, p: nat, target: nat, k: nat, pj: int, j: int, nj: int)
    requires StoreOk(s0) && p < |s0.firstLink| && Unconnecting(s0, s, p, target, k, pj, j)
    requires k < |LinksOf(s, p)| && LinksOf(s, p)[k].ref.it == target
    requires |s'.firstLink| == |s.firstLink| && StoreOk(s') && AtCell(s', p, k, pj, nj)
    requires LinksOf(s', p) == RemoveAt(LinksOf(s, p), k)
    requires forall q :: 0 <= q < |s.firstLink| && q != p ==> LinksOf(s', q) == LinksOf(s, q)
    ensures Unconnecting(s0, s', p, target, k, pj, nj)
  {
    hide StoreOk, LinksOf, Keep, RemoveAt, AtCell;
    KeepDrop(LinksOf(s, p), k, target);
  }

  lemma UnconnectDrop(s0: LinkStore, s: LinkStore, p: nat, target: nat, k: nat, pj: int, j: int)
    requires StoreOk(s0) && p < |s0.firstLink| && Unconnecting(s0, s, p, target, k, pj, j) && j != NULL
    ensures 0 <= j < |s.cells| && -1 <= pj < |s.cells| && k < |LinksOf(s, p)|
    ensures s.cells[j].link.ref.it == target ==>
      && Unconnecting(s0, Drop(s, p, pj, j), p, target, k, pj, s.cells[j].next)
      && |LinksOf(Drop(s, p, pj, j), p)| == |LinksOf(s, p)| - 1
  {
    hide StoreOk, LinksOf, Drop, Keep, RemoveAt, AtCell;
    DroppedCell(s, p, k, pj, j);
    var s' := Drop(s, p, pj, j);
    hide Unconnecting;
    if s.cells[j].link.ref.it == target {
      UnconnectTo(s0, s, s', p, target, k, pj, j, s.cells[j].next);
    }
  }

  lemma UnconnectSkip(s0: LinkStore, s: LinkStore, p: nat, target: nat, k: nat, pj: int, j: int)
    requires StoreOk(s0) && p < |s0.firstLink| && Unconnecting(s0, s, p, target, k, pj, j) && j != NULL
    ensures 0 <= j < |s.cells|
    ensures s.cells[j].link.ref.it != target ==> Unconnecting(s0, s, p, target, k + 1, j, s.cells[j].next)
  {
    hide StoreOk, LinksOf, Drop, Keep, AtCell;
    DroppedCell(s, p, k, pj, j);
    NextCell(s, p, k, pj, j);
    if s.cells[j].link.ref.it != target {
      KeepAdvance(LinksOf(s, p), k, target);
    }
  }

  lemma UnconnectEnd(s0: LinkStore, s: LinkStore, p: nat, target: nat, k: nat, pj: int)
    requires StoreOk(s0) && p < |s0.firstLink| && Unconnecting(s0, s, p, target, k, pj, NULL)
    ensures |s.firstLink| == |s0.firstLink| && StoreOk(s)
    ensures LinksOf(s, p) == Keep(LinksOf(s0, p), target)
    ensures forall q :: 0 <= q < |s.firstLink| && q != p ==> LinksOf(s, q) == LinksOf(s0, q)
  {
    AllCells(s, p, k, pj);
    hide StoreOk, LinksOf, AtCell;
    assert LinksOf(s, p)[..k] == LinksOf(s, p);
  }

  lemma AllCells(s: LinkStore, p: nat, k: nat, pj: int)
    requires StoreOk(s) && p < |s.firstLink| && AtCell(s, p, k, pj, NULL)
    ensures k == |LinksOf(s, p)|
  {
  }

  lemma UnconnectOk(s0: LinkStore, s: LinkStore, p: nat, target: nat, k: nat, pj: int, j: int)
    requires StoreOk(s0) && p < |s0.firstLink| && Unconnecting(s0, s, p, target, k, pj, j)
    ensures |s.firstLink| == |s0.firstLink| && StoreOk(s) && k <= |LinksOf(s, p)|
  {
  }

  /** The walk of unconnectLinks along one polygon's list. */
  method UnconnectPoly(s0: LinkStore, p: nat, target: nat) returns (s: LinkStore)
    requires StoreOk(s0) && p < |s0.firstLink|
    ensures |s.firstLink| == |s0.firstLink| && StoreOk(s)
    ensures LinksOf(s, p) == Keep(LinksOf(s0, p), target)
    ensures forall q :: 0 <= q < |s.firstLink| && q != p ==> LinksOf(s, q) == LinksOf(s0, q)
  {
    hide StoreOk, LinksOf, Drop, Keep, Unconnecting;
    s := s0;
    UnconnectStart(s, p, target);
    var j, pj := s.firstLink[p], NULL;
    ghost var k, left := 0, |LinksOf(s, p)|;
    while j != NULL
      invariant |s.firstLink| == |s0.firstLink| && StoreOk(s) && Unconnecting(s0, s, p, target, k, pj, j)
      invariant left == |LinksOf(s, p)| - k
      decreases left
    {
      UnconnectDrop(s0, s, p, target, k, pj, j);
      UnconnectSkip(s0, s, p, target, k, pj, j);
      if s.cells[j].link.ref.it == target {
        var nj := s.cells[j].next;
        s := Drop(s, p, pj, j);
        UnconnectOk(s0, s, p, target, k, pj, nj);
        j := nj;
      } else {
        pj, j, k := j, s.cells[j].next, k + 1;
      }
      left := left - 1;
    }
    UnconnectEnd(s0, s, p, target, k, pj);
  }

  /** unconnectLinks: of every polygon exactly the links that lead elsewhere stay, in their order. */
  method UnconnectLinks(s0: LinkStore, target: nat) returns (s: LinkStore)
    requires StoreOk(s0)
    ensures |s.firstLink| == |s0.firstLink| && StoreOk(s)
    ensures forall p :: 0 <= p < |s.firstLink| ==> LinksOf(s, p) == Keep(LinksOf(s0, p), target)
  {
    hide StoreOk, Lists, LinksOf;
    s := s0;
    for i := 0 to |s0.firstLink|
      invariant |s.firstLink| == |s0.firstLink| && StoreOk(s)
      invariant forall p :: 0 <= p < |s.firstLink| ==>
        LinksOf(s, p) == if p < i then Keep(LinksOf(s0, p), target) else LinksOf(s0, p)
    {
      s := UnconnectPoly(s, i, target);
    }
  }

  // ----- A new tile's links -----

  /** All cells on the free list in order, no links. */
  method BuildFreeList(maxLinkCount: nat, polyCount: nat) returns (s: LinkStore)
    requires maxLinkCount >= 1
    ensures |s.firstLink| == polyCount && StoreOk(s) && FreeCount(s) == maxLinkCount
    ensures forall p :: 0 <= p < polyCount ==> LinksOf(s, p) == []
  {
    var cells := seq(maxLinkCount, _ => Cell(Link(PolyRef(0, 0, 0), 0, 0), 0));
    cells := cells[maxLinkCount - 1 := cells[maxLinkCount - 1].(next := NULL)];
    for i := 0 to maxLinkCount - 1
      invariant |cells| == maxLinkCount && cells[maxLinkCount - 1].next == NULL
      invariant forall k :: 0 <= k < i ==> cells[k].next == k + 1
    {
      cells := cells[i := cells[i].(next := i + 1)];
    }
    s := LinkStore(cells, 0, seq(polyCount, _ => NULL));
    BuiltThreaded(s);
  }

  lemma BuiltThreaded(s: LinkStore)
    requires |s.cells| >= 1 && s.free == 0 && s.cells[|s.cells| - 1].next == NULL
    requires forall k :: 0 <= k < |s.cells| - 1 ==> s.cells[k].next == k + 1
    requires forall p :: 0 <= p < |s.firstLink| ==> s.firstLink[p] == NULL
    ensures StoreOk(s) && FreeCount(s) == |s.cells|
    ensures forall p :: 0 <= p < |s.firstLink| ==> LinksOf(s, p) == []
  {
    var free: seq<nat> := seq(|s.cells|, i requires 0 <= i => i);
    var lists: seq<seq<nat>> := [free] + seq(|s.firstLink|, _ => []);
    var owner: seq<nat> := seq(|s.cells|, _ => 0);
    var next := Nexts(s.cells);
    assert ListOk(next, 0, free, owner, 0) by {
      forall i | 0 <= i < |owner|
        ensures i in free
      {
        assert free[i] == i;
      }
    }
    assert forall l :: 0 < l < |lists| ==> ListOk(next, NULL, lists[l], owner, l);
    assert Threaded(s, lists, owner);
    ListsUnique(s, lists, owner);
  }
}
