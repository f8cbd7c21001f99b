/** dtNavMesh: adding and removing tiles, looking them up by position, and linking their polygons. */
module NavMeshes {
  import opened Basics
  import opened SharedLists
  import opened LinkStores
  import opened NavMeshModel
  import opened NavMeshLinking

  datatype AddResult = Added(ref: nat) | WrongMagic | WrongVersion | Occupied | OutOfMemory

  datatype RemoveResult = Removed(data: Header) | InvalidParam

  /** What tile data must satisfy: a pool for links, neighbour entries and connections that name polygons of the
      tile. */
  predicate DataOk(w: Widths, h: Header) {
    && h.maxLinkCount >= 1 && |h.polys| <= w.polys
    && (forall p, j :: 0 <= p < |h.polys| && 0 <= j < |h.polys[p].neis| && IsInternal(h.polys[p].neis[j]) ==>
         h.polys[p].neis[j] - 1 < |h.polys|)
    && forall c :: 0 <= c < |h.offMeshCons| ==> h.offMeshCons[c].poly < |h.polys|
  }

  /** Widths, salts and data of the live tiles. */
  predicate ContentOk(w: Widths, ts: seq<Tile>) {
    && WidthsOk(w) && |ts| <= w.tiles
    && (forall i :: 0 <= i < |ts| ==> ts[i].salt < w.salts)
    && forall i :: 0 <= i < |ts| && ts[i].header.Some? ==> FormatOk(ts[i].header.value) && DataOk(w, ts[i].header.value)
  }

  ghost function AllFreeLists(n: nat, lutSize: nat): seq<seq<nat>> {
    [seq(n, i requires 0 <= i => i)] + seq(lutSize, _ => [])
  }

  ghost function Zeros(n: nat): seq<nat> {
    seq(n, _ => 0)
  }

  lemma AllFree(ts: seq<Tile>, lookup: seq<int>, nextFree: int, lists: seq<seq<nat>>, owner: seq<nat>)
    requires |lookup| >= 1 && nextFree == if |ts| > 0 then 0 else NULL
    requires forall k :: 0 <= k < |ts| ==> ts[k].header.None? && ts[k].next == if k + 1 < |ts| then k + 1 else NULL
    requires forall k :: 0 <= k < |lookup| ==> lookup[k] == NULL
    requires lists == AllFreeLists(|ts|, |lookup|) && owner == Zeros(|ts|)
    ensures SlotsOk(ts, lookup, nextFree, lists, owner, -1)
  {
    var next, free := TileNexts(ts), lists[0];
    assert ListOk(next, nextFree, free, owner, 0) by {
      forall i | 0 <= i < |owner|
        ensures i in free
      {
        assert free[i] == i;
      }
    }
    assert forall l :: 0 < l < |lists| ==> ListOk(next, NULL, lists[l], owner, l);
  }

  lemma TakeNone(ts: seq<Tile>, x: int, y: int, n: nat)
    ensures Take(SlotsAt(ts, [], x, y), n) == []
  {
  }

  lemma TakeAt(ts: seq<Tile>, list: seq<nat>, x: int, y: int, n: nat)
    ensures var found := Take(SlotsAt(ts, list, x, y), n);
      forall k :: 0 <= k < |found| ==> IsAt(ts, found[k], x, y) && found[k] in list
  {
    var all := SlotsAt(ts, list, x, y);
    forall k | 0 <= k < |Take(all, n)|
      ensures IsAt(ts, Take(all, n)[k], x, y) && Take(all, n)[k] in list
    {
      assert Take(all, n)[k] == all[k] && all[k] in all;
    }
  }

  lemma TakeSnoc(ts: seq<Tile>, list: seq<nat>, k: nat, x: int, y: int, n: nat)
    requires k < |list|
    ensures var a := Take(SlotsAt(ts, list[..k], x, y), n);
      Take(SlotsAt(ts, list[..k + 1], x, y), n) == if IsAt(ts, list[k], x, y) && |a| < n then a + [list[k]] else a
  {
    SlotsAtSnoc(ts, list[..k], list[k], x, y);
    assert list[..k + 1] == list[..k] + [list[k]];
  }

  class NavMesh {
    const w: Widths
    const geo: Geometry
    const tiles: array<Tile>
    const posLookup: array<int>
    var nextFree: int

    /** List 0 is the free list, list `1 + h` the bucket of hash `h`. */
    ghost var lists: seq<seq<nat>>
    ghost var owner: seq<nat>

    /** The slot lists are right, but for slot `but`. */
    ghost predicate Listed(but: int)
      reads this, tiles, posLookup
    {
      && SlotsOk(tiles[..], posLookup[..], nextFree, lists, owner, but) && |lists| == 1 + posLookup.Length
    }

    ghost predicate Valid()
      reads this, tiles, posLookup
    {
      Listed(-1) && LinksOk(tiles[..]) && UniquePlaces(tiles[..]) && ContentOk(w, tiles[..]) && GeometryOk(geo)
    }

    ghost function BucketOf(x: int, y: int): seq<nat>
      requires posLookup.Length > 0 && |lists| == 1 + posLookup.Length
      reads this
    {
      lists[1 + ComputeTileHash(x, y, posLookup.Length)]
    }

    /** init: all slots free, in order, with salt 1; all buckets empty. */
    constructor (maxTiles: nat, lutSize: nat, widths: Widths, geometry: Geometry)
      requires WidthsOk(widths) && maxTiles <= widths.tiles && lutSize >= 1 && GeometryOk(geometry)
      ensures Valid() && w == widths && geo == geometry && fresh(tiles) && fresh(posLookup)
      ensures posLookup.Length == lutSize
      ensures tiles.Length == maxTiles && forall i :: 0 <= i < maxTiles ==> tiles[i].header.None? && tiles[i].salt == 1
    {
      w := widths;
      geo := geometry;
      tiles := new Tile[maxTiles](_ => Tile(0, None, LinkStore([], 0, []), NULL));
      posLookup := new int[lutSize](_ => NULL);
      nextFree := NULL;
      lists := AllFreeLists(maxTiles, lutSize);
      owner := Zeros(maxTiles);
      new;
      var i := maxTiles;
      while i > 0
        invariant 0 <= i <= maxTiles == tiles.Length && nextFree == if i < maxTiles then i else NULL
        invariant lists == AllFreeLists(maxTiles, lutSize) && owner == Zeros(maxTiles)
        invariant posLookup.Length == lutSize && forall k :: 0 <= k < lutSize ==> posLookup[k] == NULL
        invariant forall k :: 0 <= k < maxTiles ==> tiles[k].header.None?
        invariant forall k :: i <= k < maxTiles ==>
          tiles[k].salt == 1 && tiles[k].next == if k + 1 < maxTiles then k + 1 else NULL
      {
        i := i - 1;
        tiles[i] := tiles[i].(salt := 1, next := nextFree);
        nextFree := i;
      }
      AllFree(tiles[..], posLookup[..], nextFree, lists, owner);
    }

    // ----- Looking up -----

    lemma BucketChain(x: int, y: int, but: int)
      requires Listed(but)
      ensures posLookup.Length > 0
      ensures Chain(TileNexts(tiles[..]), posLookup[ComputeTileHash(x, y, posLookup.Length)], BucketOf(x, y))
    {
      var h := ComputeTileHash(x, y, posLookup.Length);
      assert ListOk(TileNexts(tiles[..]), ([nextFree] + posLookup[..])[1 + h], lists[1 + h], owner, 1 + h);
    }

    lemma BucketMembers(x: int, y: int, but: int)
      requires Listed(but)
      ensures posLookup.Length > 0 && but !in BucketOf(x, y) && Distinct(BucketOf(x, y))
      ensures forall i :: 0 <= i < tiles.Length && i != but && IsAt(tiles[..], i, x, y) ==> i in BucketOf(x, y)
    {
      var h := ComputeTileHash(x, y, posLookup.Length);
      assert ListOk(TileNexts(tiles[..]), ([nextFree] + posLookup[..])[1 + h], lists[1 + h], owner, 1 + h);
    }

    /** getTileAt: the live tile at the location, or none if there is none. */
    method GetTileAt(x: int, y: int, layer: int) returns (found: Option<nat>)
      requires Listed(-1)
      ensures found.Some? ==> IsIn(tiles[..], found.value, x, y, layer)
      ensures found.None? ==> forall i :: 0 <= i < tiles.Length ==> !IsIn(tiles[..], i, x, y, layer)
    {
      BucketChain(x, y, -1);
      hide SlotsOk, BucketOf, ComputeTileHash, Chain;
      ghost var list, ts := BucketOf(x, y), tiles[..];
      var head := posLookup[ComputeTileHash(x, y, posLookup.Length)];
      var tile := head;
      ghost var k := 0;
      ChainAt(TileNexts(ts), head, list, 0);
      while tile != NULL
        invariant k <= |list| && tile == if k < |list| then list[k] else NULL
        invariant forall m :: 0 <= m < k ==> !IsIn(ts, list[m], x, y, layer)
        decreases |list| - k
      {
        ChainAt(TileNexts(ts), head, list, k);
        var h := tiles[tile].header;
        if h.Some? && h.value.x == x && h.value.y == y && h.value.layer == layer {
          return Some(tile);
        }
        tile := tiles[tile].next;
        k := k + 1;
      }
      found := None;
      BucketMembers(x, y, -1);
      forall i | 0 <= i < tiles.Length
        ensures !IsIn(ts, i, x, y, layer)
      {
        assert IsAt(ts, i, x, y) ==> i in list;
      }
    }

    /** getTilesAt: the first `maxTiles` tiles of the position's bucket that are at that position. */
    method GetTilesAt(x: int, y: int, maxTiles: nat, ghost but: int) returns (found: seq<nat>)
      requires Listed(but)
      ensures posLookup.Length > 0 && found == Take(SlotsAt(tiles[..], BucketOf(x, y), x, y), maxTiles)
      ensures forall i :: 0 <= i < tiles.Length && i != but && IsAt(tiles[..], i, x, y) ==>
        i in SlotsAt(tiles[..], BucketOf(x, y), x, y)
      ensures forall k :: 0 <= k < |found| ==> IsAt(tiles[..], found[k], x, y) && found[k] != but
    {
      BucketChain(x, y, but);
      hide SlotsOk, BucketOf, ComputeTileHash, Chain, Take, SlotsAt;
      ghost var list, ts := BucketOf(x, y), tiles[..];
      found := [];
      TakeNone(ts, x, y, maxTiles);
      assert list[..0] == [];
      var head := posLookup[ComputeTileHash(x, y, posLookup.Length)];
      var tile := head;
      ghost var k := 0;
      ChainAt(TileNexts(ts), head, list, 0);
      while tile != NULL
        invariant k <= |list| && tile == if k < |list| then list[k] else NULL
        invariant found == Take(SlotsAt(ts, list[..k], x, y), maxTiles)
        decreases |list| - k
      {
        ChainAt(TileNexts(ts), head, list, k);
        TakeSnoc(ts, list, k, x, y, maxTiles);
        var h := tiles[tile].header;
        if h.Some? && h.value.x == x && h.value.y == y {
          if |found| < maxTiles {
            found := found + [tile];
          }
        }
        tile := tiles[tile].next;
        k := k + 1;
      }
      assert list[..k] == list;
      BucketMembers(x, y, but);
      TakeAt(ts, list, x, y, maxTiles);
    }

    method GetNeighbourTilesAt(x: int, y: int, side: nat, maxTiles: nat, ghost but: int) returns (found: seq<nat>)
      requires Listed(but) && side < 8
      ensures posLookup.Length > 0
      ensures var (nx, ny) := Neighbour(x, y, side);
        && found == Take(SlotsAt(tiles[..], BucketOf(nx, ny), nx, ny), maxTiles)
        && (forall i :: 0 <= i < tiles.Length && i != but && IsAt(tiles[..], i, nx, ny) ==>
             i in SlotsAt(tiles[..], BucketOf(nx, ny), nx, ny))
        && forall k :: 0 <= k < |found| ==> IsAt(tiles[..], found[k], nx, ny) && found[k] != but
      ensures Toward(Neighbour(x, y, side).0 - x, Neighbour(x, y, side).1 - y, side)
    {
      var (nx, ny) := Neighbour(x, y, side);
      NeighbourIsToward(x, y, side, nx, ny);
      found := GetTilesAt(nx, ny, maxTiles, but);
    }

    // ----- Linking polygons -----

    /** The tiles are those of `ts0`, with links that `kind` allows put in front. */
    ghost predicate Growing(ts0: seq<Tile>, kind: Kind)
      reads tiles
    {
      LinksOk(ts0) && LinksOk(tiles[..]) && SameTiles(ts0, tiles[..]) && Grown(ts0, tiles[..], kind)
    }

    /** Take a free link cell, if there is one, fill it and put it in front of polygon `p`'s list. */
    method AddLink(i: nat, p: nat, l: Link, ghost ts0: seq<Tile>, ghost kind: Kind)
      requires Growing(ts0, kind) && Live(ts0, i) && p < |ts0[i].header.value.polys|
      requires LinkOk(ts0, ts0[i].header.value, l) && Wanted(ts0, kind, i, p, l)
      modifies tiles
      ensures Growing(ts0, kind)
      ensures SameTiles(old(tiles[..]), tiles[..]) && PutIn(old(tiles[..]), tiles[..], i, p, l)
      ensures HasMore(old(tiles[..]), tiles[..]) && Has(tiles[..], i, p, l)
    {
      ghost var ts := tiles[..];
      assert LinkOk(ts, ts[i].header.value, l) && Wanted(ts, kind, i, p, l);
      hide LinkOk, Wanted, Grown, StoreOk, PutIn, LinksOk, Has, HasMore;
      GrowBy(ts0, ts, kind, i, p, l);
      AddPutsIn(ts, i, p, l);
      PutInHas(ts, AddTo(ts, i, p, l), i, p, l);
      GrownRefl(ts, kind);
      GrowBy(ts, ts, kind, i, p, l);
      GrownHasMore(ts, AddTo(ts, i, p, l), kind);
      var idx := tiles[i].store.free;
      if idx != NULL {
        var store := tiles[i].store;
        store := store.(free := store.cells[idx].next);
        store := store.(cells := store.cells[idx := Cell(l, store.firstLink[p])]);
        store := store.(firstLink := store.firstLink[p := idx]);
        tiles[i] := tiles[i].(store := store);
      }
      assert tiles[..] == AddTo(ts, i, p, l);
    }

    /** The internal links of one polygon, edges from last to first so that the list runs from first to last. */
    method ConnectIntPoly(t: nat, p: nat, ghost ts0: seq<Tile>)
      requires Growing(ts0, Internal(t)) && Live(ts0, t) && DataOk(w, ts0[t].header.value)
      requires p < |ts0[t].header.value.polys|
      modifies tiles
      ensures Growing(ts0, Internal(t))
      ensures forall q :: 0 <= q < |ts0[t].header.value.polys| && q != p ==>
        LinksIn(tiles[..], t, q) == LinksIn(old(tiles[..]), t, q)
      ensures var wanted := IntLinks(ts0[t].salt, t, ts0[t].header.value.polys[p].neis, 0);
        FreeLinks(old(tiles[..]), t) >= |wanted| ==>
          LinksIn(tiles[..], t, p) == wanted + LinksIn(old(tiles[..]), t, p) &&
          FreeLinks(tiles[..], t) == FreeLinks(old(tiles[..]), t) - |wanted|
    {
      hide LinksOk, Grown, LinksIn, FreeLinks, IntLinks;
      ghost var ts, h := tiles[..], ts0[t].header.value;
      var poly := tiles[t].header.value.polys[p];
      var j := |poly.neis|;
      ghost var free, before := FreeLinks(tiles[..], t), LinksIn(ts, t, p);
      IntLinksFrom(ts0[t].salt, t, poly.neis, 0, before);
      while j > 0
        invariant 0 <= j <= |poly.neis| && Growing(ts0, Internal(t))
        invariant forall q :: 0 <= q < |h.polys| && q != p ==> LinksIn(tiles[..], t, q) == LinksIn(ts, t, q)
        invariant var made := IntLinks(ts0[t].salt, t, poly.neis, j);
          free >= |made| ==> LinksIn(tiles[..], t, p) == made + before && FreeLinks(tiles[..], t) == free - |made|
      {
        j := j - 1;
        IntLinksFrom(ts0[t].salt, t, poly.neis, j, before);
        var nei := poly.neis[j];
        if !(nei == 0 || nei >= DT_EXT_LINK) {
          var link := Link(PolyRef(tiles[t].salt, t, nei - 1), j, 0xff);
          AddLink(t, p, link, ts0, Internal(t));
        }
      }
    }

    /** connectIntLinks: with cells enough, every polygon gets exactly one link per internal edge, in edge order. */
    method ConnectIntLinks(t: nat, ghost ts0: seq<Tile>)
      requires Growing(ts0, Internal(t)) && Live(ts0, t) && DataOk(w, ts0[t].header.value)
      modifies tiles
      ensures Growing(ts0, Internal(t))
      ensures var polys := ts0[t].header.value.polys;
        FreeLinks(old(tiles[..]), t) >= LinkCount(ts0[t].salt, t, polys, 0) ==> forall p :: 0 <= p < |polys| ==>
          LinksIn(tiles[..], t, p) == PolyLinks(ts0[t].salt, t, polys[p]) + LinksIn(old(tiles[..]), t, p)
    {
      hide LinksOk, Grown, LinksIn, FreeLinks, DataOk, IntLinks;
      var polys := tiles[t].header.value.polys;
      ghost var ts, free, salt := tiles[..], FreeLinks(tiles[..], t), ts0[t].salt;
      for p := 0 to |polys|
        invariant Growing(ts0, Internal(t))
        invariant free >= LinkCount(salt, t, polys, 0) ==> FreeLinks(tiles[..], t) >= LinkCount(salt, t, polys, p)
        invariant free >= LinkCount(salt, t, polys, 0) ==> forall q :: 0 <= q < |polys| ==>
          LinksIn(tiles[..], t, q) == (if q < p then PolyLinks(salt, t, polys[q]) else []) + LinksIn(ts, t, q)
      {
        if !polys[p].offMesh {
          ConnectIntPoly(t, p, ts0);
        }
      }
    }

    /** Whether polygon `i` of `target` has an edge that faces the side and touches. */
    method FindConnectingEdge(h: Header, p: nat, edge: nat, target: Header, side: nat, i: nat) returns (found: bool)
      requires i < |target.polys|
      ensures found == Connects(geo, h, p, edge, target, side, i)
    {
      var neis := target.polys[i].neis;
      for j := 0 to |neis|
        invariant forall e :: 0 <= e < j ==> !(neis[e] == DT_EXT_LINK + side && geo.touches(h, p, edge, target, i, e))
      {
        if neis[j] == DT_EXT_LINK + side && geo.touches(h, p, edge, target, i, j) {
          return true;
        }
      }
      return false;
    }

    /** findConnectingPolys: the first `maxcon` polygons with an edge that faces `side` and touches. */
    method FindConnectingPolys(h: Header, p: nat, edge: nat, target: Header, side: nat, maxcon: nat)
      returns (con: seq<nat>)
      ensures con == Take(ConnectingAmong(geo, h, p, edge, target, side, |target.polys|), maxcon)
    {
      hide Connects;
      con := [];
      for i := 0 to |target.polys|
        invariant con == Take(ConnectingAmong(geo, h, p, edge, target, side, i), maxcon)
      {
        var found := FindConnectingEdge(h, p, edge, target, side, i);
        if found && |con| < maxcon {
          con := con + [i];
        }
      }
    }

    /** The links of one portal edge. */
    method ConnectEdge(t: nat, target: nat, side: int, p: nat, j: nat, ghost ts0: seq<Tile>)
      requires Growing(ts0, Portals(geo, t, target, side)) && Live(ts0, t) && Live(ts0, target)
      requires Near(ts0[t].header.value, ts0[target].header.value) && -1 <= side && p < |ts0[t].header.value.polys|
      requires j < |ts0[t].header.value.polys[p].neis| && PortalOn(ts0[t].header.value.polys[p].neis[j], side)
      modifies tiles
      ensures Growing(ts0, Portals(geo, t, target, side)) && HasMore(old(tiles[..]), tiles[..])
      ensures EdgeLinked(geo, tiles[..], t, target, p, j, MAX_CON)
    {
      hide LinksOk, Grown, HasMore, Has, Connecting, Connects, LinkOk, Wanted;
      ghost var ts := tiles[..];
      var h := tiles[t].header.value;
      var dir := h.polys[p].neis[j] % 0x100;
      var nei := FindConnectingPolys(h, p, j, tiles[target].header.value, OppositeTile(dir), MAX_CON);
      PortalConIs(geo, h, p, j, tiles[target].header.value);
      HasMoreRefl(ts);
      for k := 0 to |nei|
        invariant Growing(ts0, Portals(geo, t, target, side)) && HasMore(ts, tiles[..])
        invariant EdgeLinked(geo, tiles[..], t, target, p, j, k)
      {
        ghost var before := tiles[..];
        var link := Link(PolyRef(tiles[target].salt, target, nei[k]), j, dir);
        PortalLinkOk(geo, ts0, t, target, side, p, j, k);
        AddLink(t, p, link, ts0, Portals(geo, t, target, side));
        EdgeStays(geo, before, tiles[..], t, target, p, j, k);
        HasMoreTrans(ts, before, tiles[..]);
      }
    }

    /** connectExtLinks: every portal edge of tile `t` on the side is linked to the polygons of `target` it touches. */
    method ConnectExtLinks(t: nat, target: nat, side: int, ghost ts0: seq<Tile>)
      requires Growing(ts0, Portals(geo, t, target, side)) && Live(ts0, t) && Live(ts0, target)
      requires Near(ts0[t].header.value, ts0[target].header.value) && -1 <= side
      modifies tiles
      ensures Growing(ts0, Portals(geo, t, target, side))
      ensures PortalsLinked(geo, tiles[..], t, target, side, |ts0[t].header.value.polys|)
    {
      hide LinksOk, Grown, HasMore, Has, EdgeLinked;
      var polys := tiles[t].header.value.polys;
      for p := 0 to |polys|
        invariant Growing(ts0, Portals(geo, t, target, side)) && PortalsLinked(geo, tiles[..], t, target, side, p)
      {
        var neis := polys[p].neis;
        for j := 0 to |neis|
          invariant Growing(ts0, Portals(geo, t, target, side)) && PortalsLinked(geo, tiles[..], t, target, side, p)
          invariant EdgesLinked(geo, tiles[..], t, target, side, p, j)
        {
          ghost var before := tiles[..];
          if neis[j] >= DT_EXT_LINK {
            var dir := neis[j] % 0x100;
            if side == -1 || dir == side {
              ConnectEdge(t, target, side, p, j, ts0);
              PortalsStay(geo, before, tiles[..], t, target, side, p);
              EdgesStay(geo, before, tiles[..], t, target, side, p, j);
            }
          }
        }
      }
    }

    /** The links of a connection of `target` that lands in tile `t`. */
    method ConnectLanding(t: nat, target: nat, side: int, c: nat, ghost ts0: seq<Tile>)
      requires Growing(ts0, Landings(geo, t, target, side)) && Live(ts0, t) && Live(ts0, target)
      requires Near(ts0[t].header.value, ts0[target].header.value) && -1 <= side < 8
      requires DataOk(w, ts0[target].header.value) && GeometryOk(geo)
      requires Lands(geo, ts0[t].header.value, ts0[target].header.value, c, side)
      modifies tiles
      ensures Growing(ts0, Landings(geo, t, target, side)) && HasMore(old(tiles[..]), tiles[..])
      ensures LandingLinked(geo, tiles[..], t, target, c, side)
    {
      hide LinksOk, Grown, HasMore, Has, LinksIn;
      ghost var ts := tiles[..];
      var con := tiles[target].header.value.offMeshCons[c];
      var ip := geo.nearest(tiles[target].header.value, c, true, tiles[t].header.value).value;
      var link := Link(PolyRef(tiles[t].salt, t, ip), 1, LandingSide(side));
      AddLink(target, con.poly, link, ts0, Landings(geo, t, target, side));
      if con.bidir {
        ghost var between := tiles[..];
        var back := Link(PolyRef(tiles[target].salt, target, con.poly), 0xff, if side == -1 then 0xff else side);
        AddLink(t, ip, back, ts0, Landings(geo, t, target, side));
        HasMoreTrans(ts, between, tiles[..]);
        HasStays(between, tiles[..], target, con.poly, link);
      }
    }

    /** connectExtOffMeshLinks: off-mesh connections of `target` that land in tile `t` are linked there, and back. */
    method ConnectExtOffMeshLinks(t: nat, target: nat, side: int, ghost ts0: seq<Tile>)
      requires Growing(ts0, Landings(geo, t, target, side)) && Live(ts0, t) && Live(ts0, target)
      requires Near(ts0[t].header.value, ts0[target].header.value) && -1 <= side < 8
      requires DataOk(w, ts0[target].header.value) && GeometryOk(geo)
      modifies tiles
      ensures Growing(ts0, Landings(geo, t, target, side))
      ensures LandingsLinked(geo, ts0, tiles[..], t, target, side, |ts0[target].header.value.offMeshCons|)
    {
      hide LinksOk, Grown, HasMore, Has, LinksIn, LandingLinked;
      var oppositeSide := LandingSide(side);
      var other, h := tiles[target].header.value, tiles[t].header.value;
      for c := 0 to |other.offMeshCons|
        invariant Growing(ts0, Landings(geo, t, target, side))
        invariant LandingsLinked(geo, ts0, tiles[..], t, target, side, c)
      {
        ghost var before := tiles[..];
        var con := other.offMeshCons[c];
        FirstLinkIs(before, target, con.poly);
        StillStarted(ts0, before, Landings(geo, t, target, side), target, c);
        HasMoreRefl(before);
        if con.side == oppositeSide && tiles[target].store.firstLink[con.poly] != -1 {
          if geo.nearest(other, c, true, h).Some? {
            ConnectLanding(t, target, side, c, ts0);
          }
        }
        LandingsStay(geo, ts0, before, tiles[..], t, target, side, c);
      }
    }

    /** Link connection `c` with the polygon it starts on. */
    method ConnectBase(t: nat, c: nat, ghost ts0: seq<Tile>)
      requires Growing(ts0, Bases(geo, t)) && Live(ts0, t) && DataOk(w, ts0[t].header.value) && GeometryOk(geo)
      requires c < |ts0[t].header.value.offMeshCons|
      modifies tiles
      ensures Growing(ts0, Bases(geo, t)) && HasMore(old(tiles[..]), tiles[..]) && BaseLinked(geo, tiles[..], t, c)
    {
      hide LinksOk, Grown, HasMore, Has;
      ghost var before := tiles[..];
      var h, salt := tiles[t].header.value, tiles[t].salt;
      var con := h.offMeshCons[c];
      var ref := geo.nearest(h, c, false, h);
      if ref.Some? {
        var link := Link(PolyRef(salt, t, ref.value), 0, 0xff);
        AddLink(t, con.poly, link, ts0, Bases(geo, t));
        ghost var between := tiles[..];
        AddLink(t, ref.value, Link(PolyRef(salt, t, con.poly), 0xff, 0xff), ts0, Bases(geo, t));
        HasStays(between, tiles[..], t, con.poly, link);
        HasMoreTrans(before, between, tiles[..]);
      } else {
        HasMoreRefl(before);
      }
    }

    /** baseOffMeshLinks: each off-mesh connection is linked with the polygon it starts from, both ways. */
    method BaseOffMeshLinks(t: nat, ghost ts0: seq<Tile>)
      requires Growing(ts0, Bases(geo, t)) && Live(ts0, t) && DataOk(w, ts0[t].header.value) && GeometryOk(geo)
      modifies tiles
      ensures Growing(ts0, Bases(geo, t)) && BasesLinked(geo, tiles[..], t, |ts0[t].header.value.offMeshCons|)
    {
      hide LinksOk, Grown, HasMore, BaseLinked;
      for c := 0 to |tiles[t].header.value.offMeshCons|
        invariant Growing(ts0, Bases(geo, t)) && BasesLinked(geo, tiles[..], t, c)
      {
        ghost var before := tiles[..];
        ConnectBase(t, c, ts0);
        BasesStay(geo, before, tiles[..], t, c);
      }
    }

    // ----- Adding a tile -----

    /** One link of the free list and its end. */
    lemma FreeListFacts()
      requires Listed(-1)
      ensures var list := lists[0];
        && nextFree == After(list, -1) && Distinct(list) && |owner| == tiles.Length
        && (forall k :: 0 <= k < |list| ==> list[k] < tiles.Length && tiles[list[k]].next == After(list, k))
        && (forall k :: 0 <= k < |list| ==> tiles[list[k]].header.None?)
        && forall i :: 0 <= i < tiles.Length && tiles[i].header.None? ==> i in list
    {
      var list := lists[0];
      assert ListOk(TileNexts(tiles[..]), ([nextFree] + posLookup[..])[0], list, owner, 0);
      forall k | 0 <= k < |list|
        ensures list[k] < tiles.Length && tiles[list[k]].next == After(list, k) && tiles[list[k]].header.None?
      {
        assert list[k] in list && TileNexts(tiles[..])[list[k]] == After(list, k);
      }
    }

    lemma FreeSlotFacts(k: nat)
      requires Listed(-1) && k < |lists[0]|
      ensures lists[0][k] < tiles.Length == |owner| && tiles[lists[0][k]].header.None?
      ensures k > 0 ==> lists[0][k - 1] < tiles.Length
    {
      FreeListFacts();
    }

    /** Take slot `tile` off the free list, where it is at position `k` behind `prev`. */
    method UnlinkFree(tile: nat, prev: int, ghost k: nat)
      requires Listed(-1) && k < |lists[0]| && lists[0][k] == tile
      requires prev == if k > 0 then lists[0][k - 1] else NULL
      modifies this, tiles
      ensures Listed(tile) && lists[1..] == old(lists[1..]) && OnlyNext(old(tiles[..]), tiles[..])
    {
      FreeSlotFacts(k);
      hide SlotsOk, Distinct, RemoveAt, ComputeTileHash, OnlyNext, TileNexts;
      ghost var ts, lookup, free := tiles[..], posLookup[..], nextFree;
      SlotItself(ts, tile);
      if prev == NULL {
        nextFree := tiles[tile].next;
        HeadWrite(free, lookup, ts[tile].next);
        assert tiles[..] == ts;
      } else {
        tiles[prev] := tiles[prev].(next := tiles[tile].next);
        SetNext(ts, prev, tiles[tile].next);
        assert tiles[..] == ts[prev := ts[prev].(next := ts[tile].next)];
      }
      SlotOff(ts, lookup, free, lists, owner, tile, k, tiles[..], lookup, nextFree);
      lists := lists[0 := RemoveAt(lists[0], k)];
      owner := owner[tile := |lists|];
    }

    /** Walk the free list up to slot `t`. */
    method FindFree(t: nat) returns (found: bool, prev: int, ghost k: nat)
      requires Listed(-1) && t < tiles.Length
      ensures found <==> tiles[t].header.None?
      ensures found ==> k < |lists[0]| && lists[0][k] == t && prev == if k > 0 then lists[0][k - 1] else NULL
    {
      FreeListFacts();
      hide SlotsOk, Distinct, After;
      prev, k := NULL, 0;
      var tile := nextFree;
      AfterIs(lists[0], -1);
      while tile != NULL && tile != t
        invariant k <= |lists[0]| && tile == if k < |lists[0]| then lists[0][k] else NULL
        invariant prev == if k > 0 then lists[0][k - 1] else NULL
        invariant t !in lists[0][..k]
        decreases |lists[0]| - k
      {
        AfterIs(lists[0], k);
        prev, tile, k := tile, tiles[tile].next, k + 1;
      }
      assert k == |lists[0]| ==> lists[0][..k] == lists[0];
      found := tile == t;
    }

    /** The allocation part of addTile: the first free slot, or the slot `lastRef` names with its salt restored. */
    method AllocTile(lastRef: nat) returns (t: Option<nat>)
      requires Listed(-1) && WidthsOk(w)
      modifies this, tiles
      ensures t.None? <==> if lastRef == 0 then old(lists[0]) == [] else
        !(DecodePolyIdTile(w, lastRef) < tiles.Length && old(tiles[..])[DecodePolyIdTile(w, lastRef)].header.None?)
      ensures t.None? ==> Listed(-1) && nextFree == old(nextFree) && tiles[..] == old(tiles[..])
      ensures t.Some? ==> Listed(t.value) && t.value < tiles.Length && old(tiles[..])[t.value].header.None?
      ensures t.Some? ==> forall i :: 0 <= i < tiles.Length ==> tiles[i] == old(tiles[..])[i].(next := tiles[i].next,
        salt := if i == t.value && lastRef != 0 then DecodePolyIdSalt(w, lastRef) else old(tiles[..])[i].salt)
      ensures t.Some? && lastRef != 0 ==> t.value == DecodePolyIdTile(w, lastRef)
    {
      FreeListFacts();
      hide SlotsOk, Distinct, DecodePolyIdTile, DecodePolyIdSalt;
      if lastRef == 0 {
        if nextFree == NULL {
          return None;
        }
        t := Some(nextFree);
        UnlinkFree(nextFree, NULL, 0);
      } else {
        var tileIndex := DecodePolyIdTile(w, lastRef);
        if tileIndex >= tiles.Length {
          return None;
        }
        var found, prev;
        ghost var k;
        found, prev, k := FindFree(tileIndex);
        if !found {
          return None;
        }
        UnlinkFree(tileIndex, prev, k);
        ghost var ts := tiles[..];
        tiles[tileIndex] := tiles[tileIndex].(salt := DecodePolyIdSalt(w, lastRef));
        SlotsFrame(ts, tiles[..], posLookup[..], nextFree, lists, owner, tileIndex);
        t := Some(tileIndex);
      }
    }

    /** Fill slot `t` with a tile that has no links yet and put it in front of its position's bucket. */
    method InsertTile(t: nat, header: Header)
      requires Listed(t) && t < tiles.Length && tiles[t].header.None? && LinksOk(tiles[..]) && DataOk(w, header)
      modifies this, tiles, posLookup
      ensures Listed(-1) && LinksOk(tiles[..]) && tiles[t].header == Some(header) && tiles[t].salt == old(tiles[t].salt)
      ensures forall i :: 0 <= i < tiles.Length && i != t ==> tiles[i] == old(tiles[i])
      ensures forall p :: 0 <= p < |header.polys| ==> LinksIn(tiles[..], t, p) == []
      ensures forall i, p :: i != t && Live(tiles[..], i) && 0 <= p < |tiles[i].header.value.polys| ==>
        LinksIn(tiles[..], i, p) == LinksIn(old(tiles[..]), i, p)
      ensures FreeLinks(tiles[..], t) == header.maxLinkCount
    {
      hide SlotsOk, StoreOk, ComputeTileHash, LinksOf;
      ghost var ts, lookup := tiles[..], posLookup[..];
      SlotFacts(t);
      var h := ComputeTileHash(header.x, header.y, posLookup.Length);
      var store := BuildFreeList(header.maxLinkCount, |header.polys|);
      var tile := Tile(tiles[t].salt, Some(header), store, posLookup[h]);
      tiles[t] := tile;
      posLookup[h] := t;
      assert tiles[..] == ts[t := tile];
      assert TileNexts(tiles[..]) == TileNexts(ts)[t := ([nextFree] + lookup)[1 + h]];
      assert [nextFree] + posLookup[..] == ([nextFree] + lookup)[1 + h := t];
      SlotOn(ts, lookup, nextFree, lists, owner, t, tiles[..], posLookup[..], nextFree);
      lists := lists[1 + h := [t] + lists[1 + h]];
      owner := owner[t := 1 + h];
      NewTileLinksOk(ts, t, tile, tiles[..]);
    }

    lemma SlotFacts(but: int)
      requires Listed(but)
      ensures posLookup.Length > 0 && |owner| == tiles.Length
    {
    }

    /** Links between tile `t` and a tile near it: portals both ways, and connections that run from there to `t`. */
    method ConnectPairIn(t: nat, nei: nat, side: int, back: int, ghost ts1: seq<Tile>)
      requires Growing(ts1, Touching(geo, t)) && Live(ts1, t) && Live(ts1, nei) && -1 <= side < 8 && -1 <= back < 8
      requires Around(ts1[t].header.value, ts1[nei].header.value, side, back) && GeometryOk(geo)
      requires DataOk(w, ts1[t].header.value) && DataOk(w, ts1[nei].header.value)
      modifies tiles
      ensures Growing(ts1, Touching(geo, t)) && Growing(old(tiles[..]), Touching(geo, t))
      ensures PortalsLinked(geo, tiles[..], t, nei, side, |ts1[t].header.value.polys|)
      ensures PortalsLinked(geo, tiles[..], nei, t, back, |ts1[nei].header.value.polys|)
      ensures LandingsLinked(geo, old(tiles[..]), tiles[..], t, nei, side, |ts1[nei].header.value.offMeshCons|)
    {
      hide LinksOk, Grown, DataOk, HasMore, PortalsLinked, LandingsLinked, GeometryOk;
      ghost var ts, polys := tiles[..], |ts1[t].header.value.polys|;
      GrownRefl(ts, Portals(geo, t, nei, side));
      ConnectExtLinks(t, nei, side, ts);
      ghost var tsa := tiles[..];
      GrownTouching(geo, ts1, ts, tsa, Portals(geo, t, nei, side), t);
      GrownRefl(ts, Touching(geo, t));
      GrownTouching(geo, ts, ts, tsa, Portals(geo, t, nei, side), t);
      GrownRefl(tsa, Portals(geo, nei, t, back));
      ConnectExtLinks(nei, t, back, tsa);
      ghost var tsb := tiles[..];
      GrownTouching(geo, ts1, tsa, tsb, Portals(geo, nei, t, back), t);
      GrownTouching(geo, ts, tsa, tsb, Portals(geo, nei, t, back), t);
      GrownHasMore(tsa, tsb, Portals(geo, nei, t, back));
      PortalsStay(geo, tsa, tsb, t, nei, side, polys);
      GrownRefl(tsb, Landings(geo, t, nei, side));
      ConnectExtOffMeshLinks(t, nei, side, tsb);
      GrownTouching(geo, ts1, tsb, tiles[..], Landings(geo, t, nei, side), t);
      GrownTouching(geo, ts, tsb, tiles[..], Landings(geo, t, nei, side), t);
      GrownHasMore(tsb, tiles[..], Landings(geo, t, nei, side));
      PortalsStay(geo, tsb, tiles[..], t, nei, side, polys);
      PortalsStay(geo, tsb, tiles[..], nei, t, back, |ts1[nei].header.value.polys|);
      LandingsFrom(geo, ts, tsb, tiles[..], t, nei, side, |ts1[nei].header.value.offMeshCons|);
    }

    /** All links between tile `t`, whose own connections have their base links, and a tile near it. */
    method ConnectPair(t: nat, nei: nat, side: int, back: int, ghost ts1: seq<Tile>)
      requires Growing(ts1, Touching(geo, t)) && Live(ts1, t) && Live(ts1, nei) && -1 <= side < 8 && -1 <= back < 8
      requires Around(ts1[t].header.value, ts1[nei].header.value, side, back) && GeometryOk(geo)
      requires DataOk(w, ts1[t].header.value) && DataOk(w, ts1[nei].header.value)
      requires BasesLinked(geo, tiles[..], t, |ts1[t].header.value.offMeshCons|)
      modifies tiles
      ensures Growing(ts1, Touching(geo, t)) && Growing(old(tiles[..]), Touching(geo, t))
      ensures PairLinked(geo, ts1, tiles[..], t, nei, side, back)
    {
      hide LinksOk, Grown, DataOk, HasMore, PortalsLinked, LandingsLinked, OwnLandingsLinked, BasesLinked, GeometryOk;
      ghost var ts, polys, cons := tiles[..], |ts1[t].header.value.polys|, |ts1[t].header.value.offMeshCons|;
      ghost var polys', cons' := |ts1[nei].header.value.polys|, |ts1[nei].header.value.offMeshCons|;
      ConnectPairIn(t, nei, side, back, ts1);
      ghost var tsa := tiles[..];
      GrownHasMore(ts, tsa, Touching(geo, t));
      BasesStay(geo, ts, tsa, t, cons);
      LandingsFrom(geo, ts1, ts, tsa, t, nei, side, cons');
      GrownRefl(tsa, Landings(geo, nei, t, back));
      ConnectExtOffMeshLinks(nei, t, back, tsa);
      ghost var tsb := tiles[..];
      GrownTouching(geo, ts1, tsa, tsb, Landings(geo, nei, t, back), t);
      GrownTouching(geo, ts, tsa, tsb, Landings(geo, nei, t, back), t);
      GrownHasMore(tsa, tsb, Landings(geo, nei, t, back));
      FreeLess(tsa, tsb, Landings(geo, nei, t, back), t);
      PortalsStay(geo, tsa, tsb, t, nei, side, polys);
      PortalsStay(geo, tsa, tsb, nei, t, back, polys');
      LandingsStay(geo, ts1, tsa, tsb, t, nei, side, cons');
      StartedFromBase(geo, tsa, tsb, nei, t, back);
    }

    /** The links inside a new tile. */
    method ConnectInside(t: nat, ghost ts1: seq<Tile>)
      requires LinksOk(ts1) && tiles[..] == ts1 && Live(ts1, t) && DataOk(w, ts1[t].header.value) && GeometryOk(geo)
      modifies tiles
      ensures Growing(ts1, Touching(geo, t)) && BasesLinked(geo, tiles[..], t, |ts1[t].header.value.offMeshCons|)
      ensures OwnLandingsLinked(geo, tiles[..], t, t, -1)
      ensures InnerLinked(ts1, tiles[..], t)
    {
      hide LinksOk, Grown, DataOk, HasMore, BasesLinked, LandingsLinked, GeometryOk, LinksIn, FreeLinks;
      hide OwnLandingsLinked;
      GrownRefl(ts1, Internal(t));
      GrownRefl(ts1, Touching(geo, t));
      ConnectIntLinks(t, ts1);
      ghost var tsa := tiles[..];
      InnerStart(ts1, tsa, t);
      GrownTouching(geo, ts1, ts1, tsa, Internal(t), t);
      GrownRefl(tsa, Bases(geo, t));
      BaseOffMeshLinks(t, tsa);
      ghost var tsb := tiles[..];
      GrownTouching(geo, ts1, tsa, tsb, Bases(geo, t), t);
      InnerStays(ts1, tsa, tsb, t, Bases(geo, t));
      GrownRefl(tsb, Landings(geo, t, t, -1));
      ConnectExtOffMeshLinks(t, t, -1, tsb);
      GrownTouching(geo, ts1, tsb, tiles[..], Landings(geo, t, t, -1), t);
      GrownHasMore(tsb, tiles[..], Landings(geo, t, t, -1));
      FreeLess(tsb, tiles[..], Landings(geo, t, t, -1), t);
      BasesStay(geo, tsb, tiles[..], t, |ts1[t].header.value.offMeshCons|);
      StartedFromBase(geo, tsb, tiles[..], t, t, -1);
      InnerStays(ts1, tsb, tiles[..], t, Landings(geo, t, t, -1));
    }

    /** The tiles found at one position are linked with tile `t`. */
    method ConnectPosition(t: nat, neis: seq<nat>, side: int, back: int, ghost x: int, ghost y: int,
                           ghost ts1: seq<Tile>)
      requires Growing(ts1, Touching(geo, t)) && Live(ts1, t) && -1 <= side < 8 && -1 <= back < 8
      requires ContentOk(w, ts1) && GeometryOk(geo)
      requires BasesLinked(geo, tiles[..], t, |ts1[t].header.value.offMeshCons|)
      requires forall k :: 0 <= k < |neis| ==> IsAt(ts1, neis[k], x, y)
      requires forall n :: IsAt(ts1, n, x, y) ==> Around(ts1[t].header.value, ts1[n].header.value, side, back)
      modifies tiles
      ensures Growing(ts1, Touching(geo, t)) && Growing(old(tiles[..]), Touching(geo, t))
      ensures BasesLinked(geo, tiles[..], t, |ts1[t].header.value.offMeshCons|)
      ensures NeisLinked(geo, ts1, tiles[..], t, neis, |neis|, side, back)
    {
      hide LinksOk, Grown, HasMore, PairLinked, BasesLinked, GeometryOk, Around, DataOk;
      ghost var ts := tiles[..];
      GrownRefl(ts, Touching(geo, t));
      for j := 0 to |neis|
        invariant Growing(ts1, Touching(geo, t)) && Growing(ts, Touching(geo, t))
        invariant BasesLinked(geo, tiles[..], t, |ts1[t].header.value.offMeshCons|)
        invariant NeisLinked(geo, ts1, tiles[..], t, neis, j, side, back)
      {
        if neis[j] != t {
          ghost var before := tiles[..];
          assert IsAt(ts1, neis[j], x, y);
          ConnectPair(t, neis[j], side, back, ts1);
          GrownTouching(geo, ts, before, tiles[..], Touching(geo, t), t);
          GrownHasMore(before, tiles[..], Touching(geo, t));
          BasesStay(geo, before, tiles[..], t, |ts1[t].header.value.offMeshCons|);
          NeisStay(geo, ts1, before, tiles[..], t, neis, j, side, back);
        }
      }
    }

    /** Link a new tile inside, with the layers at its position and with the tiles around it. */
    method ConnectTile(t: nat)
      requires Listed(-1) && LinksOk(tiles[..]) && ContentOk(w, tiles[..]) && Live(tiles[..], t) && GeometryOk(geo)
      modifies tiles
      ensures Listed(-1) && LinksOk(tiles[..]) && SameTiles(old(tiles[..]), tiles[..])
      ensures Grown(old(tiles[..]), tiles[..], Touching(geo, t)) && InnerLinked(old(tiles[..]), tiles[..], t)
      ensures FewPerPosition(tiles[..]) ==> TileLinked(geo, old(tiles[..]), tiles[..], t)
    {
      hide SlotsOk, LinksOk, Grown, DataOk, Take, SlotsAt, HasMore, PairLinked, BasesLinked, OwnLandingsLinked, FewAt;
      hide PositionLinked, PositionsLinked, NeisLinked, InnerLinked, GeometryOk, BucketOf, LinksIn, Around;
      ghost var ts1 := tiles[..];
      var x, y := tiles[t].header.value.x, tiles[t].header.value.y;
      ConnectInside(t, ts1);
      ghost var ts := tiles[..];
      KeepListed(ts1, -1);
      var neis := GetTilesAt(x, y, MAX_NEIS, -1);
      NearPosition(ts1, t, -1);
      ConnectPosition(t, neis, -1, -1, x, y, ts1);
      PositionIs(neis, ts1, ts, t, x, y, -1, -1);
      InsideStays(geo, ts1, ts, tiles[..], t);
      PositionsNone(geo, ts1, tiles[..], t);
      for i := 0 to 8
        invariant Growing(ts1, Touching(geo, t)) && InnerLinked(ts1, tiles[..], t)
        invariant BasesLinked(geo, tiles[..], t, |ts1[t].header.value.offMeshCons|)
        invariant OwnLandingsLinked(geo, tiles[..], t, t, -1)
        invariant FewPerPosition(ts1) ==> PositionsLinked(geo, ts1, tiles[..], t, i)
        invariant FewPerPosition(ts1) ==> PositionLinked(geo, ts1, tiles[..], t, x, y, -1, -1)
      {
        ts := tiles[..];
        KeepListed(ts1, -1);
        neis := GetNeighbourTilesAt(x, y, i, MAX_NEIS, -1);
        NearPosition(ts1, t, i);
        ConnectPosition(t, neis, i, OppositeTile(i), Neighbour(x, y, i).0, Neighbour(x, y, i).1, ts1);
        PositionIs(neis, ts1, ts, t, Neighbour(x, y, i).0, Neighbour(x, y, i).1, i, OppositeTile(i));
        InsideStays(geo, ts1, ts, tiles[..], t);
        if FewPerPosition(ts1) {
          FreeLess(ts, tiles[..], Touching(geo, t), t);
          GrownHasMore(ts, tiles[..], Touching(geo, t));
          PositionStays(geo, ts1, ts, tiles[..], t, x, y, -1, -1);
          PositionsStay(geo, ts1, ts, tiles[..], t, i);
        }
      }
      KeepListed(ts1, -1);
      if FewPerPosition(tiles[..]) {
        FewFrame(tiles[..], ts1);
      }
    }

    /** The tiles found at a position are all that are there, if they are few. */
    lemma PositionIs(neis: seq<nat>, ts1: seq<Tile>, ts: seq<Tile>, t: nat, x: int, y: int, side: int, back: int)
      requires SlotsOk(ts, posLookup[..], nextFree, lists, owner, -1) && |lists| == 1 + posLookup.Length
      requires posLookup.Length > 0 && neis == Take(SlotsAt(ts, BucketOf(x, y), x, y), MAX_NEIS)
      requires forall n :: 0 <= n < |ts| && IsAt(ts, n, x, y) ==> n in SlotsAt(ts, BucketOf(x, y), x, y)
      requires SameTiles(ts1, ts) && SameTiles(ts1, tiles[..]) && LinksOk(ts1) && LinksOk(tiles[..]) && Live(ts1, t)
      requires NeisLinked(geo, ts1, tiles[..], t, neis, |neis|, side, back)
      ensures FewPerPosition(ts1) ==> PositionLinked(geo, ts1, tiles[..], t, x, y, side, back)
    {
      if FewPerPosition(ts1) {
        SlotsFrame(ts, tiles[..], posLookup[..], nextFree, lists, owner, -1);
        BucketMembers(x, y, -1);
        FewFrame(ts1, ts);
        hide SlotsOk, LinksOk, PairLinked, BucketOf, FewAt;
        FewAreAll(ts, BucketOf(x, y), x, y);
      }
    }

    lemma KeepListed(ts: seq<Tile>, but: int)
      requires SlotsOk(ts, posLookup[..], nextFree, lists, owner, but) && |lists| == 1 + posLookup.Length
      requires SameTiles(ts, tiles[..])
      ensures Listed(but)
    {
      SlotsFrame(ts, tiles[..], posLookup[..], nextFree, lists, owner, but);
    }

    lemma FreeSlots()
      requires Listed(-1)
      ensures lists[0] == [] <==> forall i :: 0 <= i < tiles.Length ==> tiles[i].header.Some?
    {
      FreeListFacts();
      assert lists[0] != [] ==> lists[0][0] < tiles.Length && tiles[lists[0][0]].header.None?;
    }

    /** addTile. It fails on foreign data, on an occupied location and when no slot is free, or the slot `lastRef` names
        is not; then nothing changes. Otherwise the tile gets a free slot, or that slot and salt again, and links are
        added in front of the old ones, each with the new tile at one end. */
    method AddTile(header: Header, lastRef: nat) returns (r: AddResult, ghost t: nat)
      requires Valid() && DataOk(w, header)
      modifies this, tiles, posLookup
      ensures Valid()
      ensures r.WrongMagic? <==> header.magic != DT_NAVMESH_MAGIC
      ensures r.WrongVersion? <==> header.magic == DT_NAVMESH_MAGIC && header.version != DT_NAVMESH_VERSION
      ensures r.Occupied? <==> FormatOk(header) && Taken(old(tiles[..]), header)
      ensures r.OutOfMemory? <==>
        FormatOk(header) && !Taken(old(tiles[..]), header) && !CanAlloc(w, old(tiles[..]), lastRef)
      ensures !r.Added? ==> tiles[..] == old(tiles[..])
      ensures r.Added? ==>
        TileAdded(geo, old(tiles[..]), tiles[..], t, header) && r.ref == EncodePolyId(w, BaseRef(tiles[t], t))
      ensures r.Added? && FewPerPosition(tiles[..]) ==>
        && TileLinked(geo, old(tiles[..]), tiles[..], t)
        && LinkedAround(geo, old(tiles[..]), tiles[..], t)
      ensures r.Added? && header.maxLinkCount >= LinkCount(tiles[t].salt, t, header.polys, 0) ==>
        forall p :: 0 <= p < |header.polys| ==>
          EndsWith(LinksIn(tiles[..], t, p), PolyLinks(tiles[t].salt, t, header.polys[p]))
      ensures r.Added? ==> if lastRef == 0 then tiles[t].salt == old(tiles[..])[t].salt
        else t == DecodePolyIdTile(w, lastRef) && tiles[t].salt == DecodePolyIdSalt(w, lastRef)
    {
      hide SlotsOk, LinksOk, DataOk, Grown, LinksIn, DecodePolyIdTile, DecodePolyIdSalt, EncodePolyId;
      hide TileLinked, LinkedAround, InnerLinked, GeometryOk, FewAt;
      t := 0;
      if header.magic != DT_NAVMESH_MAGIC {
        return WrongMagic, 0;
      }
      if header.version != DT_NAVMESH_VERSION {
        return WrongVersion, 0;
      }
      var at := GetTileAt(header.x, header.y, header.layer);
      if at.Some? {
        return Occupied, 0;
      }
      ghost var ts0 := tiles[..];
      FreeSlots();
      var slot := AllocTile(lastRef);
      if slot.None? {
        return OutOfMemory, 0;
      }
      t := slot.value;
      ghost var ts1 := tiles[..];
      SlotWritesKeepLinks(ts0, ts1);
      InsertTile(slot.value, header);
      ghost var ts2 := tiles[..];
      ConnectTile(slot.value);
      r := Added(EncodePolyId(w, BaseRef(tiles[slot.value], slot.value)));
      StepsAddTile(geo, ts0, ts1, ts2, tiles[..], t, header);
      AddKeepsPlaces(geo, ts0, tiles[..], t, header);
      if FewPerPosition(tiles[..]) {
        LinkedSince(geo, ts0, ts2, tiles[..], t);
        LinkedIsAround(geo, ts0, tiles[..], t);
      }
      InnerIs(ts2, tiles[..], t);
    }

    // ----- Removing a tile -----

    /** Let whatever is before a tile in bucket `h`, slot `prev` or the bucket itself, point to `next`. */
    method Bypass(h: nat, prev: int, next: int)
      requires h < posLookup.Length && -1 <= prev < tiles.Length
      modifies tiles, posLookup
      ensures OnlyNext(old(tiles[..]), tiles[..])
      ensures prev == NULL ==>
        && TileNexts(tiles[..]) == TileNexts(old(tiles[..]))
        && [nextFree] + posLookup[..] == ([nextFree] + old(posLookup[..]))[1 + h := next]
      ensures prev != NULL ==>
        && TileNexts(tiles[..]) == TileNexts(old(tiles[..]))[prev := next]
        && posLookup[..] == old(posLookup[..])
    {
      hide OnlyNext, TileNexts;
      ghost var ts, lookup := tiles[..], posLookup[..];
      if prev == NULL {
        posLookup[h] := next;
        SlotItself(ts, 0);
        BucketWrite(nextFree, lookup, h, next);
        assert tiles[..] == ts && posLookup[..] == lookup[h := next];
      } else {
        tiles[prev] := tiles[prev].(next := next);
        SetNext(ts, prev, next);
        assert tiles[..] == ts[prev := ts[prev].(next := next)] && posLookup[..] == lookup;
      }
    }

    /** Take slot `tile` out of its bucket, where it is at position `k` behind `prev`. */
    method UnlinkBucket(tile: nat, prev: int, ghost k: nat)
      requires Listed(-1) && Live(tiles[..], tile) && posLookup.Length > 0
      requires var list := BucketOf(tiles[tile].header.value.x, tiles[tile].header.value.y);
        k < |list| && list[k] == tile && prev == if k > 0 then list[k - 1] else NULL
      modifies this, tiles, posLookup
      ensures Listed(tile) && nextFree == old(nextFree) && OnlyNext(old(tiles[..]), tiles[..])
    {
      hide SlotsOk, RemoveAt, ComputeTileHash, OnlyNext, TileNexts, Chain;
      var x, y := tiles[tile].header.value.x, tiles[tile].header.value.y;
      BucketChain(x, y, -1);
      SlotFacts(-1);
      var h := ComputeTileHash(x, y, posLookup.Length);
      ghost var ts, lookup := tiles[..], posLookup[..];
      ChainAt(TileNexts(ts), posLookup[h], lists[1 + h], if k > 0 then k - 1 else 0);
      Bypass(h, prev, tiles[tile].next);
      BucketOff(ts, lookup, nextFree, lists, owner, tile, h, k, prev, tiles[..], posLookup[..]);
      lists := lists[1 + h := RemoveAt(lists[1 + h], k)];
      owner := owner[tile := |lists|];
    }

    lemma BucketHas(t: nat) returns (at: nat)
      requires Listed(-1) && Live(tiles[..], t)
      ensures posLookup.Length > 0
      ensures var list := BucketOf(tiles[t].header.value.x, tiles[t].header.value.y);
        at < |list| && list[at] == t
    {
      var x, y := tiles[t].header.value.x, tiles[t].header.value.y;
      BucketMembers(x, y, -1);
      assert IsAt(tiles[..], t, x, y);
      at :| 0 <= at < |BucketOf(x, y)| && BucketOf(x, y)[at] == t;
    }

    /** Walk the bucket of tile `t` up to it. */
    method FindInBucket(t: nat) returns (prev: int, ghost k: nat)
      requires Listed(-1) && Live(tiles[..], t)
      ensures posLookup.Length > 0
      ensures var list := BucketOf(tiles[t].header.value.x, tiles[t].header.value.y);
        k < |list| && list[k] == t && prev == if k > 0 then list[k - 1] else NULL
    {
      var x, y := tiles[t].header.value.x, tiles[t].header.value.y;
      BucketChain(x, y, -1);
      ghost var at := BucketHas(t);
      hide SlotsOk, BucketOf, ComputeTileHash, Chain;
      ghost var list, ts := BucketOf(x, y), tiles[..];
      var head := posLookup[ComputeTileHash(x, y, posLookup.Length)];
      var cur := head;
      prev, k := NULL, 0;
      ChainAt(TileNexts(ts), head, list, 0);
      while cur != t
        invariant k <= at && cur == list[k] && prev == if k > 0 then list[k - 1] else NULL
        decreases |list| - k
      {
        ChainAt(TileNexts(ts), head, list, k);
        prev, cur, k := cur, tiles[cur].next, k + 1;
      }
    }

    /** Take the links that lead to tile `t` out of the tiles near it. */
    method UnconnectTile(j: nat, t: nat, ghost ts0: seq<Tile>, ghost done: set<nat>)
      requires LinksOk(ts0) && LinksOk(tiles[..]) && Cut(ts0, tiles[..], t, done) && Live(tiles[..], j)
      modifies tiles
      ensures LinksOk(tiles[..]) && Cut(ts0, tiles[..], t, done + {j})
    {
      ghost var ts := tiles[..];
      assert TileLinksOk(ts, j);
      hide LinksOk, Cut, StoreOk, LinksOf, Keep;
      var store := LinkStores.UnconnectLinks(tiles[j].store, t);
      tiles[j] := tiles[j].(store := store);
      CutOne(ts0, ts, t, done, j, store, tiles[..]);
    }

    /** Disconnect tile `t` from the given tiles. */
    method UnconnectTiles(t: nat, neis: seq<nat>, ghost ts0: seq<Tile>, ghost done: set<nat>)
      requires LinksOk(ts0) && LinksOk(tiles[..]) && Cut(ts0, tiles[..], t, done)
      requires forall k :: 0 <= k < |neis| ==> Live(tiles[..], neis[k])
      modifies tiles
      ensures LinksOk(tiles[..]) && Cut(ts0, tiles[..], t, done + Elements(neis))
    {
      hide LinksOk, Keep, LinksIn;
      assert done + Elements(neis[..0]) == done;
      for j := 0 to |neis|
        invariant LinksOk(tiles[..]) && Cut(ts0, tiles[..], t, done + Elements(neis[..j]))
      {
        assert SameTiles(ts0, tiles[..]);
        UnconnectTile(neis[j], t, ts0, done + Elements(neis[..j]));
        assert done + Elements(neis[..j + 1]) == done + Elements(neis[..j]) + {neis[j]};
      }
      assert neis[..|neis|] == neis;
    }

    /** The tiles found at a position are all that are there. */
    lemma FoundAll(t: nat, neis: seq<nat>, ts0: seq<Tile>, done: set<nat>, x: int, y: int)
      requires Listed(t) && FewPerPosition(ts0) && SameTiles(ts0, tiles[..])
      requires posLookup.Length > 0 && neis == Take(SlotsAt(tiles[..], BucketOf(x, y), x, y), MAX_NEIS)
      requires forall i :: 0 <= i < tiles.Length && i != t && IsAt(tiles[..], i, x, y) ==>
        i in SlotsAt(tiles[..], BucketOf(x, y), x, y)
      ensures PositionDone(ts0, t, done + Elements(neis), x, y)
    {
      BucketMembers(x, y, t);
      hide SlotsOk, ComputeTileHash, FewAt;
      SlotsAtFrame(ts0, tiles[..], BucketOf(x, y), x, y);
      FewAreAll(ts0, BucketOf(x, y), x, y);
    }

    /** Take the links to tile `t` out of the tiles at its position and in the eight around it. */
    method Disconnect(t: nat) returns (ghost done: set<nat>)
      requires Listed(t) && LinksOk(tiles[..]) && Live(tiles[..], t) && FewPerPosition(tiles[..])
      modifies tiles
      ensures Listed(t) && LinksOk(tiles[..]) && Cut(old(tiles[..]), tiles[..], t, done)
      ensures NearTilesIn(old(tiles[..]), t, done)
    {
      hide SlotsOk, LinksOk, Keep, LinksIn, ComputeTileHash, Take, SlotsAt, FewPerPosition, PositionDone, BucketOf;
      ghost var ts0 := tiles[..];
      var x, y := tiles[t].header.value.x, tiles[t].header.value.y;
      done := {};
      CutStart(ts0, t);
      var neis := GetTilesAt(x, y, MAX_NEIS, t);
      FoundAll(t, neis, ts0, done, x, y);
      UnconnectTiles(t, neis, ts0, done);
      done := done + Elements(neis);
      for i := 0 to 8
        invariant LinksOk(tiles[..]) && Cut(ts0, tiles[..], t, done)
        invariant PositionDone(ts0, t, done, x, y)
        invariant forall k :: 0 <= k < i ==> PositionDone(ts0, t, done, Neighbour(x, y, k).0, Neighbour(x, y, k).1)
      {
        KeepListed(ts0, t);
        neis := GetNeighbourTilesAt(x, y, i, MAX_NEIS, t);
        FoundAll(t, neis, ts0, done, Neighbour(x, y, i).0, Neighbour(x, y, i).1);
        UnconnectTiles(t, neis, ts0, done);
        DoneGrows(ts0, t, done, done + Elements(neis));
        done := done + Elements(neis);
      }
      KeepListed(ts0, t);
      NearDone(ts0, t, done);
    }

    lemma DoneGrows(ts: seq<Tile>, t: nat, done: set<nat>, more: set<nat>)
      requires done <= more
      ensures forall x, y :: PositionDone(ts, t, done, x, y) ==> PositionDone(ts, t, more, x, y)
    {
    }

    /** removeTile. It fails on the null reference, an unknown slot or an old salt; then nothing changes. Otherwise the
        slot is free under its next salt, and every other tile keeps exactly its links that lead elsewhere. */
    method RemoveTile(ref: nat) returns (r: RemoveResult)
      requires Valid() && FewPerPosition(tiles[..])
      requires var t := DecodePolyIdTile(w, ref);
        t < tiles.Length && tiles[t].salt == DecodePolyIdSalt(w, ref) ==> Live(tiles[..], t)
      modifies this, tiles, posLookup
      ensures Valid()
      ensures var t := DecodePolyIdTile(w, ref);
        r.InvalidParam? <==> ref == 0 || t >= tiles.Length || old(tiles[..])[t].salt != DecodePolyIdSalt(w, ref)
      ensures r.InvalidParam? ==> tiles[..] == old(tiles[..])
      ensures r.Removed? ==> TileRemoved(old(tiles[..]), tiles[..], DecodePolyIdTile(w, ref))
      ensures var t := DecodePolyIdTile(w, ref);
        r.Removed? ==> Some(r.data) == old(tiles[..])[t].header && tiles[t].salt == NextSalt(w, old(tiles[..])[t].salt)
      ensures r.Removed? && w.salts > 2 ==> tiles[DecodePolyIdTile(w, ref)].salt != DecodePolyIdSalt(w, ref)
    {
      hide SlotsOk, LinksOk, LinksIn, DataOk, DecodePolyIdTile, DecodePolyIdSalt, FewAt, NextSalt;
      if ref == 0 {
        return InvalidParam;
      }
      var t, salt := DecodePolyIdTile(w, ref), DecodePolyIdSalt(w, ref);
      if t >= tiles.Length || tiles[t].salt != salt {
        return InvalidParam;
      }
      ghost var ts0 := tiles[..];
      RemoveFromBucket(t);
      ghost var ts1 := tiles[..];
      SlotWritesKeepLinks(ts0, ts1);
      FewFrame(ts0, ts1);
      ghost var done := Disconnect(t);
      r := Removed(tiles[t].header.value);
      ghost var ts2 := tiles[..];
      FreeTile(t);
      StepsRemoveTile(ts1, ts2, tiles[..], t, done, tiles[t]);
      assert TileRemoved(ts0, tiles[..], t);
      SaltChanges(w, salt);
    }

    /** Find tile `t` in its bucket and take it out. */
    method RemoveFromBucket(t: nat)
      requires Listed(-1) && Live(tiles[..], t)
      modifies this, tiles, posLookup
      ensures Listed(t) && OnlyNext(old(tiles[..]), tiles[..])
    {
      var prev;
      ghost var k;
      prev, k := FindInBucket(t);
      UnlinkBucket(t, prev, k);
    }

    /** Reset a slot that is on no list, move on to its next salt and put it in front of the free list. */
    method FreeTile(t: nat)
      requires Listed(t) && t < tiles.Length && WidthsOk(w)
      modifies this, tiles
      ensures Listed(-1)
      ensures
        var empty := Tile(NextSalt(w, old(tiles[t].salt)), None, LinkStore([], 0, []), old(nextFree));
        tiles[..] == old(tiles[..])[t := empty]
    {
      SlotFacts(t);
      hide SlotsOk;
      ghost var ts, free := tiles[..], nextFree;
      var salt := (tiles[t].salt + 1) % w.salts;
      if salt == 0 {
        salt := salt + 1;
      }
      assert salt == NextSalt(w, ts[t].salt);
      hide NextSalt;
      tiles[t] := Tile(salt, None, LinkStore([], 0, []), nextFree);
      nextFree := t;
      assert tiles[..] == ts[t := Tile(salt, None, LinkStore([], 0, []), free)];
      assert TileNexts(tiles[..]) == TileNexts(ts)[t := free];
      HeadWrite(free, posLookup[..], t);
      SlotOn(ts, posLookup[..], free, lists, owner, t, tiles[..], posLookup[..], nextFree);
      lists := lists[0 := [t] + lists[0]];
      owner := owner[t := 0];
    }
  }

  /** `ref` is the reference of the live tile in slot `t`. */
  predicate Issued(w: Widths, ts: seq<Tile>, t: nat, ref: nat) {
    Live(ts, t) && ts[t].salt > 0 && ref == EncodePolyId(w, BaseRef(ts[t], t))
  }

  /** Removing a tile and adding its data back with the old reference gives the same reference. */
  method RemoveAndAddBack(mesh: NavMesh, ref: nat) returns (r: AddResult)
    requires mesh.Valid() && FewPerPosition(mesh.tiles[..])
    requires exists t: nat :: Issued(mesh.w, mesh.tiles[..], t, ref)
    modifies mesh, mesh.tiles, mesh.posLookup
    ensures mesh.Valid() && r == Added(ref)
  {
    ghost var ts := mesh.tiles[..];
    ghost var t: nat :| Issued(mesh.w, ts, t, ref);
    IssuedIs(mesh.w, ts, t, ref);
    hide SlotsOk, LinksOk, LinksIn, DataOk, DecodePolyIdTile, DecodePolyIdSalt, EncodePolyId, FewPerPosition, Issued;
    hide TileAdded, TileRemoved, Taken;
    var removed := mesh.RemoveTile(ref);
    PlaceFree(mesh.w, ts, mesh.tiles[..], t, removed.data);
    ghost var slot;
    r, slot := mesh.AddTile(removed.data, ref);
    assert BaseRef(mesh.tiles[slot], slot) == BaseRef(ts[t], t);
  }

  lemma IssuedIs(w: Widths, ts: seq<Tile>, t: nat, ref: nat)
    requires ContentOk(w, ts) && Issued(w, ts, t, ref)
    ensures ref > 0 && DecodePolyIdTile(w, ref) == t && DecodePolyIdSalt(w, ref) == ts[t].salt
    ensures Live(ts, t) && ref == EncodePolyId(w, BaseRef(ts[t], t))
  {
    hide EncodePolyId, DecodePolyIdTile, DecodePolyIdSalt, DataOk;
    PolyIdRoundTrip(w, BaseRef(ts[t], t));
    PolyIdInjective(w, BaseRef(ts[t], t), BaseRef(ts[t], t));
  }

  /** After a removal the location is free and the slot can be had again. */
  lemma PlaceFree(w: Widths, ts: seq<Tile>, ts': seq<Tile>, t: nat, data: Header)
    requires ContentOk(w, ts) && LinksOk(ts) && UniquePlaces(ts) && TileRemoved(ts, ts', t)
    requires Some(data) == ts[t].header
    ensures !Taken(ts', data) && DataOk(w, data) && FormatOk(data) && t < |ts'| && ts'[t].header.None?
  {
    hide LinksOk, LinksIn, DataOk;
  }

  /** Adding a tile and removing it again leaves every other tile with exactly the links it had. */
  method AddAndRemove(mesh: NavMesh, header: Header) returns (r: AddResult, removed: bool)
    requires mesh.Valid() && DataOk(mesh.w, header)
    requires forall x, y :: |TilesAt(mesh.tiles[..], x, y)| < MAX_NEIS
    modifies mesh, mesh.tiles, mesh.posLookup
    ensures mesh.Valid() && (r.Added? && r.ref != 0 ==> removed)
    ensures removed ==> SameLinks(old(mesh.tiles[..]), mesh.tiles[..])
  {
    ghost var ts, t := mesh.tiles[..], 0;
    r, t := mesh.AddTile(header, 0);
    removed := false;
    if r.Added? && r.ref != 0 {
      ghost var ts1 := mesh.tiles[..];
      FewAfterAdd(mesh.geo, ts, ts1, t, header);
      PolyIdRoundTrip(mesh.w, BaseRef(mesh.tiles[t], t));
      var gone := mesh.RemoveTile(r.ref);
      removed := true;
      AddThenRemoveLinks(mesh.geo, ts, ts1, mesh.tiles[..], t, header);
    }
  }

  /** Slot `t` is bypassed at position `k` of bucket `h`. */
  lemma BucketOff(ts: seq<Tile>, lookup: seq<int>, nextFree: int, lists: seq<seq<nat>>, owner: seq<nat>, t: nat,
                  h: nat, k: nat, prev: int, ts': seq<Tile>, lookup': seq<int>)
    requires SlotsOk(ts, lookup, nextFree, lists, owner, -1) && t < |ts| && |lists| == 1 + |lookup| == 1 + |lookup'|
    requires h < |lookup| && Bucket(ts[t], |lookup|) == 1 + h && k < |lists[1 + h]| && lists[1 + h][k] == t
    requires OnlyNext(ts, ts') && prev == if k > 0 then lists[1 + h][k - 1] else NULL
    requires prev == NULL ==>
      && TileNexts(ts') == TileNexts(ts)
      && [nextFree] + lookup' == ([nextFree] + lookup)[1 + h := ts[t].next]
    requires prev != NULL ==> prev < |ts| && TileNexts(ts') == TileNexts(ts)[prev := ts[t].next] && lookup' == lookup
    ensures SlotsOk(ts', lookup', nextFree, lists[1 + h := RemoveAt(lists[1 + h], k)], owner[t := |lists|], t)
  {
    hide SlotsOk, OnlyNext, TileNexts, RemoveAt;
    SlotItself(ts, t);
    SlotOff(ts, lookup, nextFree, lists, owner, t, k, ts', lookup', nextFree);
  }

  lemma SlotItself(ts: seq<Tile>, i: nat)
    ensures OnlyNext(ts, ts) && (i < |ts| ==> TileNexts(ts)[i] == ts[i].next)
  {
  }

  lemma HeadWrite(a: int, s: seq<int>, x: int)
    ensures [x] + s == ([a] + s)[0 := x]
  {
  }

  lemma BucketWrite(a: int, s: seq<int>, h: nat, x: int)
    requires h < |s|
    ensures [a] + s[h := x] == ([a] + s)[1 + h := x]
  {
  }
}
