/**
 Tile slots, references and links of a navigation mesh as values: what every operation keeps, and how the steps of
 adding and removing a tile add up.
 */
module NavMeshModel {
  import opened Basics
  import opened SharedLists
  import opened LinkStores

  const DT_NAVMESH_MAGIC := 0x444e4156
  const DT_NAVMESH_VERSION := 7
  const DT_EXT_LINK := 0x8000
  const MAX_NEIS := 32
  const MAX_CON := 4

  /** A neighbour entry: 0 for a hard edge, `DT_EXT_LINK + side` for a portal, a polygon's index plus one otherwise. */
  datatype Poly = Poly(offMesh: bool, neis: seq<nat>)

  datatype OffMeshCon = OffMeshCon(poly: nat, side: nat, bidir: bool)

  datatype Header = Header(
    magic: nat, version: nat, x: int, y: int, layer: int,
    polys: seq<Poly>, maxLinkCount: nat, offMeshCons: seq<OffMeshCon>)

  datatype Option<T> = None | Some(value: T)

  datatype Tile = Tile(salt: nat, header: Option<Header>, store: LinkStore, next: int)

  // ----- References -----

  /** How many salts, tiles and polygons a reference can tell apart: powers of two whose bits add up to at most 32. */
  datatype Widths = Widths(salts: nat, tiles: nat, polys: nat)

  predicate WidthsOk(w: Widths) {
    w.salts >= 2 && w.tiles >= 1 && w.polys >= 1
  }

  function EncodePolyId(w: Widths, r: PolyRef): nat {
    r.salt * (w.polys * w.tiles) + r.it * w.polys + r.ip
  }

  function DecodePolyIdSalt(w: Widths, ref: nat): (salt: nat)
    requires WidthsOk(w)
    ensures salt < w.salts
  {
    Positive(w.polys, w.tiles);
    ref / (w.polys * w.tiles) % w.salts
  }

  function DecodePolyIdTile(w: Widths, ref: nat): (it: nat)
    requires WidthsOk(w)
  {
    ref / w.polys % w.tiles
  }

  function DecodePolyIdPoly(w: Widths, ref: nat): (ip: nat)
    requires WidthsOk(w)
  {
    ref % w.polys
  }

  lemma Positive(a: nat, b: nat)
    requires a >= 1 && b >= 1
    ensures a * b >= 1
  {
  }

  lemma Monotone(a: nat, b: nat, n: nat)
    requires a <= b
    ensures a * n <= b * n
  {
    assert b * n == a * n + (b - a) * n;
  }

  lemma Stretch(n: nat, d: int)
    ensures d >= 1 ==> n * d >= n
    ensures d <= -1 ==> n * d <= 0 - n
  {
    assert d >= 1 ==> n * d == n + n * (d - 1);
    assert d <= -1 ==> n * d == n * (d + 1) - n;
  }

  lemma QuotientIsUnique(n: nat, q: int, r: nat, q': int, r': nat)
    requires r < n && r' < n && n * q + r == n * q' + r'
    ensures q == q' && r == r'
  {
    assert n * (q - q') == r' - r;
    Stretch(n, q - q');
  }

  lemma DivMod(a: nat, b: nat, n: nat)
    requires b < n
    ensures (a * n + b) / n == a && (a * n + b) % n == b
  {
    var x := a * n + b;
    QuotientIsUnique(n, x / n, x % n, a, b);
  }

  predicate Fits(w: Widths, r: PolyRef) {
    r.salt < w.salts && r.it < w.tiles && r.ip < w.polys
  }

  /** Decoding undoes encoding. */
  lemma PolyIdRoundTrip(w: Widths, r: PolyRef)
    requires WidthsOk(w) && Fits(w, r)
    ensures var ref := EncodePolyId(w, r);
      && DecodePolyIdSalt(w, ref) == r.salt && DecodePolyIdTile(w, ref) == r.it && DecodePolyIdPoly(w, ref) == r.ip
  {
    var salt, it, ip, t, n := r.salt, r.it, r.ip, w.tiles, w.polys;
    Positive(n, t);
    LowPart(it, ip, t, n);
    DivMod(salt, it * n + ip, n * t);
    DivMod(0, salt, w.salts);
    Regroup(salt, it, ip, t, n);
    DivMod(salt * t + it, ip, n);
    DivMod(salt, it, t);
  }

  lemma LowPart(it: nat, ip: nat, t: nat, n: nat)
    requires it < t && ip < n
    ensures it * n + ip < n * t
  {
    Monotone(it + 1, t, n);
    assert (it + 1) * n == it * n + n && t * n == n * t;
  }

  lemma Regroup(salt: nat, it: nat, ip: nat, t: nat, n: nat)
    ensures salt * (n * t) + it * n + ip == (salt * t + it) * n + ip
  {
    assert salt * (n * t) == (salt * t) * n;
    assert (salt * t + it) * n == (salt * t) * n + it * n;
  }

  /** Different references stay different, and one with a salt is never the null reference. */
  lemma PolyIdInjective(w: Widths, r: PolyRef, q: PolyRef)
    requires WidthsOk(w) && Fits(w, r) && Fits(w, q)
    ensures EncodePolyId(w, r) == EncodePolyId(w, q) ==> r == q
    ensures r.salt > 0 ==> EncodePolyId(w, r) > 0
  {
    hide DecodePolyIdSalt, DecodePolyIdTile, DecodePolyIdPoly;
    PolyIdRoundTrip(w, r);
    PolyIdRoundTrip(w, q);
    Positive(w.polys, w.tiles);
    if r.salt > 0 {
      Monotone(1, r.salt, w.polys * w.tiles);
    }
  }

  // ----- Positions -----

  function ComputeTileHash(x: int, y: int, lutSize: nat): (h: nat)
    requires lutSize > 0
    ensures h < lutSize
  {
    (0x8da6b343 * x + 0xd8163841 * y) % 0x1_0000_0000 % lutSize
  }

  function OppositeTile(side: nat): nat {
    (side + 4) % 8
  }

  function Neighbour(x: int, y: int, side: nat): (int, int) {
    match side
    case 0 => (x + 1, y)
    case 1 => (x + 1, y + 1)
    case 2 => (x, y + 1)
    case 3 => (x - 1, y + 1)
    case 4 => (x - 1, y)
    case 5 => (x - 1, y - 1)
    case 6 => (x, y - 1)
    case 7 => (x + 1, y - 1)
    case _ => (x, y)
  }

  /** Which way each side of a tile lies: 0 is towards +x, and the other sides follow in eighths of a turn over +y. */
  predicate Toward(dx: int, dy: int, side: int) {
    && 0 <= side < 8 && -1 <= dx <= 1 && -1 <= dy <= 1
    && (dx == 1 <==> side == 7 || side <= 1) && (dx == -1 <==> 3 <= side <= 5)
    && (dy == 1 <==> 1 <= side <= 3) && (dy == -1 <==> side >= 5)
  }

  /** A neighbour lies where its side points, and the way back from there is the opposite side. */
  lemma NeighbourIsToward(x: int, y: int, side: nat, nx: int, ny: int)
    requires side < 8
    ensures Neighbour(x, y, side) == (nx, ny) <==> Toward(nx - x, ny - y, side)
    ensures Neighbour(x, y, side) == (nx, ny) ==>
      OppositeTile(side) < 8 && Neighbour(nx, ny, OppositeTile(side)) == (x, y)
  {
  }

  predicate Near(a: Header, b: Header) {
    -1 <= a.x - b.x <= 1 && -1 <= a.y - b.y <= 1
  }

  predicate SamePlace(a: Header, b: Header) {
    a.x == b.x && a.y == b.y && a.layer == b.layer
  }

  /** The eight neighbours of a position and the position itself are all the near ones. */
  lemma NearIsNeighbour(a: Header, b: Header)
    ensures Near(a, b) <==> (b.x, b.y) == (a.x, a.y) || exists i :: 0 <= i < 8 && Neighbour(a.x, a.y, i) == (b.x, b.y)
  {
    if Near(a, b) && (b.x, b.y) != (a.x, a.y) {
      var dx, dy := b.x - a.x, b.y - a.y;
      var i := if dx == 1 then (if dy == 0 then 0 else if dy == 1 then 1 else 7)
        else if dx == 0 then (if dy == 1 then 2 else 6)
        else if dy == 1 then 3 else if dy == 0 then 4 else 5;
      assert Neighbour(a.x, a.y, i) == (b.x, b.y);
    }
  }

  // ----- Slots -----

  function TileNexts(ts: seq<Tile>): (next: seq<int>)
    ensures |next| == |ts| && forall i :: 0 <= i < |ts| ==> next[i] == ts[i].next
  {
    seq(|ts|, i requires 0 <= i < |ts| => ts[i].next)
  }

  predicate Live(ts: seq<Tile>, i: int) {
    0 <= i < |ts| && ts[i].header.Some?
  }

  predicate IsAt(ts: seq<Tile>, i: int, x: int, y: int) {
    Live(ts, i) && ts[i].header.value.x == x && ts[i].header.value.y == y
  }

  predicate IsIn(ts: seq<Tile>, i: int, x: int, y: int, layer: int) {
    IsAt(ts, i, x, y) && ts[i].header.value.layer == layer
  }

  /** The list a slot belongs on: the free list, or its position's bucket. */
  function Bucket(tile: Tile, lutSize: nat): (b: nat)
    requires lutSize > 0
  {
    if tile.header.None? then 0 else 1 + ComputeTileHash(tile.header.value.x, tile.header.value.y, lutSize)
  }

  /** Every slot is on exactly one list, its own, except that slot `but` is on none (`but` may be no slot). */
  ghost predicate SlotsOk(ts: seq<Tile>, lookup: seq<int>, nextFree: int, lists: seq<seq<nat>>, owner: seq<nat>,
                          but: int)
  {
    && |lookup| > 0 && Shared(TileNexts(ts), [nextFree] + lookup, lists, owner)
    && forall i :: 0 <= i < |ts| ==> owner[i] == if i == but then |lists| else Bucket(ts[i], |lookup|)
  }

  /** No two live tiles at one location. */
  predicate UniquePlaces(ts: seq<Tile>) {
    forall i, j :: 0 <= i < |ts| && 0 <= j < |ts| && i != j && ts[i].header.Some? && ts[j].header.Some? ==>
      !SamePlace(ts[i].header.value, ts[j].header.value)
  }

  /** The slots of a list that are at a position, in list order. */
  function SlotsAt(ts: seq<Tile>, list: seq<nat>, x: int, y: int): (found: seq<nat>)
    ensures forall i :: i in found <==> i in list && IsAt(ts, i, x, y)
  {
    if list == [] then []
    else if IsAt(ts, list[0], x, y) then [list[0]] + SlotsAt(ts, list[1..], x, y)
    else SlotsAt(ts, list[1..], x, y)
  }

  lemma {:induction false} SlotsAtSnoc(ts: seq<Tile>, list: seq<nat>, i: nat, x: int, y: int)
    ensures SlotsAt(ts, list + [i], x, y) == SlotsAt(ts, list, x, y) + if IsAt(ts, i, x, y) then [i] else []
  {
    if list != [] {
      SlotsAtSnoc(ts, list[1..], i, x, y);
      assert (list + [i])[1..] == list[1..] + [i];
    }
  }

  /** The bucket of a position holds every live tile there. */
  lemma BucketComplete(ts: seq<Tile>, lookup: seq<int>, nextFree: int, lists: seq<seq<nat>>, owner: seq<nat>, but: int,
                       x: int, y: int)
    requires SlotsOk(ts, lookup, nextFree, lists, owner, but)
    ensures |lists| == 1 + |lookup|
    ensures var list := lists[1 + ComputeTileHash(x, y, |lookup|)];
      forall i :: 0 <= i < |ts| && i != but && IsAt(ts, i, x, y) ==> i in list
  {
    var b := 1 + ComputeTileHash(x, y, |lookup|);
    assert ListOk(TileNexts(ts), ([nextFree] + lookup)[b], lists[b], owner, b);
  }

  /** At most the links between slots differ. */
  predicate OnlyNext(ts: seq<Tile>, ts': seq<Tile>) {
    |ts'| == |ts| && forall i :: 0 <= i < |ts| ==> ts'[i] == ts[i].(next := ts'[i].next)
  }

  lemma SetNext(ts: seq<Tile>, i: nat, next: int)
    requires i < |ts|
    ensures var ts' := ts[i := ts[i].(next := next)];
      OnlyNext(ts, ts') && TileNexts(ts') == TileNexts(ts)[i := next]
  {
  }

  /** Slot `t` is unlinked from position `k` of its list. */
  lemma SlotOff(ts: seq<Tile>, lookup: seq<int>, nextFree: int, lists: seq<seq<nat>>, owner: seq<nat>, t: nat, k: nat,
                ts': seq<Tile>, lookup': seq<int>, nextFree': int)
    requires SlotsOk(ts, lookup, nextFree, lists, owner, -1) && t < |ts| && |lists| == 1 + |lookup| == 1 + |lookup'|
    requires k < |lists[Bucket(ts[t], |lookup|)]| && lists[Bucket(ts[t], |lookup|)][k] == t && OnlyNext(ts, ts')
    requires var l, next, heads := Bucket(ts[t], |lookup|), TileNexts(ts), [nextFree] + lookup;
      if k == 0 then TileNexts(ts') == next && [nextFree'] + lookup' == heads[l := next[t]]
      else lists[l][k - 1] < |ts| && TileNexts(ts') == next[lists[l][k - 1] := next[t]]
           && [nextFree'] + lookup' == heads
    ensures var l := Bucket(ts[t], |lookup|);
      SlotsOk(ts', lookup', nextFree', lists[l := RemoveAt(lists[l], k)], owner[t := |lists|], t)
  {
    hide Shared, RemoveAt;
    var l := Bucket(ts[t], |lookup|);
    InBounds(TileNexts(ts), [nextFree] + lookup, lists, owner, l);
    Detach(TileNexts(ts), [nextFree] + lookup, lists, owner, l, k);
  }

  /** Slot `t`, on no list, is linked in front of the list its new content belongs on. */
  lemma SlotOn(ts: seq<Tile>, lookup: seq<int>, nextFree: int, lists: seq<seq<nat>>, owner: seq<nat>, t: nat,
               ts': seq<Tile>, lookup': seq<int>, nextFree': int)
    requires SlotsOk(ts, lookup, nextFree, lists, owner, t) && t < |ts| && |lists| == 1 + |lookup| == 1 + |lookup'|
    requires |ts'| == |ts| && forall i :: 0 <= i < |ts| && i != t ==> ts'[i].header == ts[i].header
    requires var l, next, heads := Bucket(ts'[t], |lookup|), TileNexts(ts), [nextFree] + lookup;
      TileNexts(ts') == next[t := heads[l]] && [nextFree'] + lookup' == heads[l := t]
    ensures var l := Bucket(ts'[t], |lookup|);
      SlotsOk(ts', lookup', nextFree', lists[l := [t] + lists[l]], owner[t := l], -1)
  {
    var l := Bucket(ts'[t], |lookup|);
    assert InsertAt(lists[l], 0, t) == [t] + lists[l];
    hide Shared, InsertAt;
    InBounds(TileNexts(ts), [nextFree] + lookup, lists, owner, l);
    Attach(TileNexts(ts), [nextFree] + lookup, lists, owner, l, 0, t);
  }

  /** Links and salts change without touching the slot lists. */
  lemma SlotsFrame(ts: seq<Tile>, ts': seq<Tile>, lookup: seq<int>, nextFree: int, lists: seq<seq<nat>>,
                   owner: seq<nat>, but: int)
    requires SlotsOk(ts, lookup, nextFree, lists, owner, but) && |ts'| == |ts|
    requires forall i :: 0 <= i < |ts| ==> ts'[i].header == ts[i].header && ts'[i].next == ts[i].next
    ensures SlotsOk(ts', lookup, nextFree, lists, owner, but)
  {
    assert TileNexts(ts') == TileNexts(ts);
  }

  // ----- Links -----

  /** The link leads to a polygon of a live tile under its current salt, at `h`'s position or next to it. */
  predicate LinkOk(ts: seq<Tile>, h: Header, l: Link) {
    && Live(ts, l.ref.it) && ts[l.ref.it].salt == l.ref.salt
    && l.ref.ip < |ts[l.ref.it].header.value.polys| && Near(h, ts[l.ref.it].header.value)
  }

  predicate AllOk(ts: seq<Tile>, h: Header, links: seq<Link>) {
    forall k :: 0 <= k < |links| ==> LinkOk(ts, h, links[k])
  }

  /** Every cell of a live tile's store is on exactly one list, and every link on a polygon's list is good. */
  ghost predicate TileLinksOk(ts: seq<Tile>, i: nat)
    requires i < |ts| && ts[i].header.Some?
  {
    var h, s := ts[i].header.value, ts[i].store;
    && StoreOk(s) && |s.firstLink| == |h.polys|
    && forall p :: 0 <= p < |s.firstLink| ==> AllOk(ts, h, LinksOf(s, p))
  }

  ghost predicate LinksOk(ts: seq<Tile>) {
    forall i :: 0 <= i < |ts| && ts[i].header.Some? ==> TileLinksOk(ts, i)
  }

  /** The same tiles in the same slots, though their links may differ. */
  predicate SameTiles(ts: seq<Tile>, ts': seq<Tile>) {
    && |ts'| == |ts|
    && forall i :: 0 <= i < |ts| ==>
      ts'[i].salt == ts[i].salt && ts'[i].header == ts[i].header && ts'[i].next == ts[i].next
  }

  /** What the floating-point tests say: whether two portal edges touch, and which polygon of a tile an end of an
      off-mesh connection (its start, or its landing point) is on, if any. */
  datatype Geometry = Geometry(
    touches: (Header, nat, nat, Header, nat, nat) -> bool,
    nearest: (Header, nat, bool, Header) -> Option<nat>)

  ghost predicate GeometryOk(g: Geometry) {
    forall h, c, landing, tile :: g.nearest(h, c, landing, tile).Some? ==>
      g.nearest(h, c, landing, tile).value < |tile.polys|
  }

  /** Polygon `i` of the target has an edge that faces `side` and touches edge `j` of polygon `p`. */
  predicate Connects(g: Geometry, h: Header, p: nat, j: nat, target: Header, side: nat, i: nat)
    requires i < |target.polys|
  {
    exists e :: 0 <= e < |target.polys[i].neis| && target.polys[i].neis[e] == DT_EXT_LINK + side &&
      g.touches(h, p, j, target, i, e)
  }

  /** The connecting polygons among the first `n`, ascending. */
  function ConnectingAmong(g: Geometry, h: Header, p: nat, j: nat, target: Header, side: nat, n: nat): (con: seq<nat>)
    requires n <= |target.polys|
    ensures forall k :: 0 <= k < |con| ==> con[k] < n && Connects(g, h, p, j, target, side, con[k])
  {
    if n == 0 then []
    else
      var con := ConnectingAmong(g, h, p, j, target, side, n - 1);
      if Connects(g, h, p, j, target, side, n - 1) then con + [n - 1] else con
  }

  /** The first `MAX_CON` connecting polygons. */
  function Connecting(g: Geometry, h: Header, p: nat, j: nat, target: Header, side: nat): (con: seq<nat>)
    ensures forall k :: 0 <= k < |con| ==> con[k] < |target.polys| && Connects(g, h, p, j, target, side, con[k])
  {
    Take(ConnectingAmong(g, h, p, j, target, side, |target.polys|), MAX_CON)
  }

  predicate IsInternal(nei: nat) {
    0 < nei < DT_EXT_LINK
  }

  /** The side byte of an off-mesh connection that lands on `side`; -1 stands for the same position. */
  function LandingSide(side: int): nat
    requires -1 <= side
  {
    if side == -1 then 0xff else OppositeTile(side)
  }

  function SideByte(side: int): nat
    requires -1 <= side
  {
    if side == -1 then 0xff else side
  }

  predicate SamePosition(a: Header, b: Header) {
    a.x == b.x && a.y == b.y
  }

  /** `b` lies on the given side of `a`; 0xff stands for the same position. */
  predicate LiesOn(a: Header, b: Header, side: nat) {
    if side == 0xff then SamePosition(a, b) else Toward(b.x - a.x, b.y - a.y, side)
  }

  /** `l` crosses an internal edge of polygon `p`. */
  predicate InnerDue(h: Header, p: nat, l: Link) {
    && p < |h.polys| && l.edge < |h.polys[p].neis| && l.side == 0xff
    && IsInternal(h.polys[p].neis[l.edge]) && l.ref.ip == h.polys[p].neis[l.edge] - 1
  }

  /** `l` crosses a portal edge of polygon `p` to one of the first polygons of `other` that the edge touches. */
  predicate PortalDue(g: Geometry, h: Header, p: nat, l: Link, other: Header) {
    && p < |h.polys| && l.edge < |h.polys[p].neis| && h.polys[p].neis[l.edge] >= DT_EXT_LINK
    && l.side == h.polys[p].neis[l.edge] % 0x100
    && l.ref.ip in Connecting(g, h, p, l.edge, other, OppositeTile(l.side))
  }

  /** `l` runs from an off-mesh connection, polygon `p`, to where it lands in `other`. */
  predicate LandingDue(g: Geometry, h: Header, p: nat, l: Link, other: Header) {
    && l.edge == 1
    && exists c ::
      && 0 <= c < |h.offMeshCons| && h.offMeshCons[c].poly == p && h.offMeshCons[c].side == l.side
      && g.nearest(h, c, true, other) == Some(l.ref.ip)
  }

  /** `l` runs from polygon `p` to a two-way connection of `other` that lands there from side `from`. */
  predicate ReturnDue(g: Geometry, h: Header, p: nat, l: Link, other: Header, from: nat) {
    && l.edge == 0xff
    && exists c ::
      && 0 <= c < |other.offMeshCons| && other.offMeshCons[c].poly == l.ref.ip && other.offMeshCons[c].side == from
      && other.offMeshCons[c].bidir && g.nearest(other, c, true, h) == Some(p)
  }

  /** `l` joins an off-mesh connection with the polygon it starts on. */
  predicate BaseDue(g: Geometry, h: Header, p: nat, l: Link) {
    && l.side == 0xff
    && exists c ::
      && 0 <= c < |h.offMeshCons|
      && ((l.edge == 0 && h.offMeshCons[c].poly == p && g.nearest(h, c, false, h) == Some(l.ref.ip))
          || (l.edge == 0xff && h.offMeshCons[c].poly == l.ref.ip && g.nearest(h, c, false, h) == Some(p)))
  }

  /** A link a new tile may bring: inside a tile, or across a portal or an off-mesh connection to the tile that lies
      on the link's side. */
  ghost predicate Due(g: Geometry, h: Header, p: nat, l: Link, other: Header, inside: bool) {
    || (inside && (InnerDue(h, p, l) || BaseDue(g, h, p, l)))
    || (PortalDue(g, h, p, l, other) && (SamePosition(h, other) || LiesOn(h, other, l.side)))
    || (LandingDue(g, h, p, l, other) && LiesOn(h, other, l.side))
    || (LiesOn(h, other, l.side) && exists from :: ReturnDue(g, h, p, l, other, from) && LiesOn(other, h, from))
  }

  /** What the connecting functions may add: links inside `tile`, links through portals of `tile` to `target`, links of
      off-mesh connections that run from `target` and land in `tile`, links of off-mesh connections to the polygons
      of `tile` they start from, and any due link from or to `tile`. */
  datatype Kind = Internal(tile: nat) | Portals(geo: Geometry, tile: nat, target: nat, side: int)
    | Landings(geo: Geometry, tile: nat, target: nat, side: int) | Bases(geo: Geometry, tile: nat)
    | Touching(geo: Geometry, tile: nat)

  /** Whether link `l` on polygon `p` of tile `i` is one that `kind` allows. */
  ghost predicate Wanted(ts: seq<Tile>, kind: Kind, i: nat, p: nat, l: Link)
    requires Live(ts, i) && Live(ts, l.ref.it)
  {
    var h, other := ts[i].header.value, ts[l.ref.it].header.value;
    match kind
    case Internal(tile) => i == tile == l.ref.it && InnerDue(h, p, l)
    case Portals(g, tile, target, side) =>
      i == tile && l.ref.it == target && PortalDue(g, h, p, l, other) && (side == -1 || side == l.side)
    case Landings(g, tile, target, side) =>
      && side >= -1
      && ((i == target && l.ref.it == tile && l.side == LandingSide(side) && LandingDue(g, h, p, l, other))
          || (i == tile && l.ref.it == target && l.side == SideByte(side)
              && ReturnDue(g, h, p, l, other, LandingSide(side))))
    case Bases(g, tile) => i == tile == l.ref.it && BaseDue(g, h, p, l)
    case Touching(g, tile) => (i == tile || l.ref.it == tile) && Due(g, h, p, l, other, i == l.ref.it)
  }

  /** `target` lies on the side of `tile` that the links are for. */
  predicate Placed(ts: seq<Tile>, kind: Kind) {
    kind.Portals? || kind.Landings? ==>
      && -1 <= kind.side < 8 && Live(ts, kind.tile) && Live(ts, kind.target)
      && LiesOn(ts[kind.tile].header.value, ts[kind.target].header.value, SideByte(kind.side))
  }

  /** `b` is `a` with links that `kind` allows put in front. */
  ghost predicate Grew(ts: seq<Tile>, kind: Kind, i: nat, p: nat, a: seq<Link>, b: seq<Link>)
    requires Live(ts, i)
  {
    && |a| <= |b| && b[|b| - |a|..] == a
    && forall k :: 0 <= k < |b| - |a| ==> Live(ts, b[k].ref.it) && Wanted(ts, kind, i, p, b[k])
  }

  /** The same tiles with links that `kind` allows put in front of the old ones, and no more free cells than before. */
  ghost predicate Grown(ts: seq<Tile>, ts': seq<Tile>, kind: Kind)
    requires LinksOk(ts) && LinksOk(ts')
  {
    && SameTiles(ts, ts')
    && (forall i :: Live(ts, i) ==> FreeLinks(ts', i) <= FreeLinks(ts, i))
    && forall i, p :: Live(ts, i) && 0 <= p < |ts[i].header.value.polys| ==>
      Grew(ts, kind, i, p, LinksIn(ts, i, p), LinksIn(ts', i, p))
  }

  /** How many link cells of tile `i` are free. */
  ghost function FreeLinks(ts: seq<Tile>, i: nat): nat
    requires LinksOk(ts) && Live(ts, i)
  {
    assert TileLinksOk(ts, i);
    FreeCount(ts[i].store)
  }

  /** The links of polygon `p` of tile `i`. */
  ghost function LinksIn(ts: seq<Tile>, i: nat, p: nat): seq<Link>
    requires LinksOk(ts) && Live(ts, i) && p < |ts[i].header.value.polys|
  {
    assert TileLinksOk(ts, i);
    LinksOf(ts[i].store, p)
  }

  /** Whether a link is good does not depend on other links. */
  lemma AllOkFrame(ts: seq<Tile>, ts': seq<Tile>, h: Header, links: seq<Link>)
    requires SameTiles(ts, ts') && AllOk(ts, h, links)
    ensures AllOk(ts', h, links)
  {
  }

  lemma TileLinksFrame(ts: seq<Tile>, ts': seq<Tile>, i: nat)
    requires SameTiles(ts, ts') && Live(ts, i) && ts'[i].store == ts[i].store && TileLinksOk(ts, i)
    ensures TileLinksOk(ts', i)
  {
    hide StoreOk, LinksOf, AllOk;
    assert ts'[i].header == ts[i].header;
    var s := ts[i].store;
    forall p | 0 <= p < |s.firstLink|
      ensures AllOk(ts', ts[i].header.value, LinksOf(s, p))
    {
      AllOkFrame(ts, ts', ts[i].header.value, LinksOf(s, p));
    }
  }

  function AddTo(ts: seq<Tile>, i: nat, p: nat, l: Link): seq<Tile>
    requires i < |ts| && p < |ts[i].store.firstLink| && -1 <= ts[i].store.free < |ts[i].store.cells|
  {
    ts[i := ts[i].(store := Add(ts[i].store, p, l))]
  }

  lemma AddOneOk(ts: seq<Tile>, h: Header, s: LinkStore, p: nat, l: Link, q: nat)
    requires StoreOk(s) && p < |s.firstLink| && q < |s.firstLink| && LinkOk(ts, h, l) && AllOk(ts, h, LinksOf(s, q))
    ensures -1 <= s.free < |s.cells| && StoreOk(Add(s, p, l)) && AllOk(ts, h, LinksOf(Add(s, p, l), q))
  {
    hide StoreOk, LinksOf, Add, LinkOk;
    AddFacts(s, p, l);
  }

  lemma AddTileOk(ts: seq<Tile>, i: nat, p: nat, l: Link)
    requires Live(ts, i) && TileLinksOk(ts, i) && p < |ts[i].store.firstLink| && LinkOk(ts, ts[i].header.value, l)
    ensures -1 <= ts[i].store.free < |ts[i].store.cells| && TileLinksOk(AddTo(ts, i, p, l), i)
  {
    hide StoreOk, LinksOf, Add, LinkOk, AllOk;
    AddFacts(ts[i].store, p, l);
    var ts', h, s := AddTo(ts, i, p, l), ts[i].header.value, ts[i].store;
    forall q | 0 <= q < |s.firstLink|
      ensures AllOk(ts', h, LinksOf(Add(s, p, l), q))
    {
      AddOneOk(ts, h, s, p, l, q);
      AllOkFrame(ts, ts', h, LinksOf(Add(s, p, l), q));
    }
  }

  /** Adding a good link keeps all links good. */
  lemma AddKeepsLinksOk(ts: seq<Tile>, i: nat, p: nat, l: Link)
    requires LinksOk(ts) && Live(ts, i) && p < |ts[i].header.value.polys| && LinkOk(ts, ts[i].header.value, l)
    ensures |ts[i].store.firstLink| == |ts[i].header.value.polys|
    ensures -1 <= ts[i].store.free < |ts[i].store.cells|
    ensures SameTiles(ts, AddTo(ts, i, p, l)) && LinksOk(AddTo(ts, i, p, l))
  {
    hide StoreOk, LinksOf, Add, LinkOk, AllOk;
    assert TileLinksOk(ts, i);
    hide TileLinksOk;
    AddTileOk(ts, i, p, l);
    var ts' := AddTo(ts, i, p, l);
    forall j | 0 <= j < |ts'| && ts'[j].header.Some? && j != i
      ensures TileLinksOk(ts', j)
    {
      TileLinksFrame(ts, ts', j);
    }
  }

  // ----- Growing -----

  lemma GrownRefl(ts: seq<Tile>, kind: Kind)
    requires LinksOk(ts)
    ensures Grown(ts, ts, kind)
  {
  }

  lemma GrewCons(ts: seq<Tile>, kind: Kind, i: nat, p: nat, a: seq<Link>, b: seq<Link>, l: Link)
    requires Live(ts, i) && Grew(ts, kind, i, p, a, b) && Live(ts, l.ref.it) && Wanted(ts, kind, i, p, l)
    ensures Grew(ts, kind, i, p, a, [l] + b)
  {
    hide Wanted;
    var c := [l] + b;
    assert c[|c| - |a|..] == b[|b| - |a|..];
  }

  lemma LinksInAdd(ts: seq<Tile>, i: nat, p: nat, l: Link, j: nat, q: nat)
    requires LinksOk(ts) && Live(ts, i) && p < |ts[i].header.value.polys| && LinkOk(ts, ts[i].header.value, l)
    requires Live(ts, j) && q < |ts[j].header.value.polys|
    ensures |ts[i].store.firstLink| == |ts[i].header.value.polys|
    ensures -1 <= ts[i].store.free < |ts[i].store.cells| && LinksOk(AddTo(ts, i, p, l))
    ensures LinksIn(AddTo(ts, i, p, l), j, q) ==
      if (j, q) == (i, p) && FreeCount(ts[i].store) > 0 then [l] + LinksIn(ts, j, q) else LinksIn(ts, j, q)
  {
    AddKeepsLinksOk(ts, i, p, l);
    assert TileLinksOk(ts, i) && TileLinksOk(ts, j);
    hide StoreOk, LinksOf, Add, LinkOk, AllOk;
    AddFacts(ts[i].store, p, l);
  }

  /** Tile `i` got link `l` in front of polygon `p`'s list, unless no cell was free. */
  ghost predicate PutIn(ts: seq<Tile>, ts': seq<Tile>, i: nat, p: nat, l: Link)
    requires LinksOk(ts) && LinksOk(ts') && SameTiles(ts, ts') && Live(ts, i)
  {
    var free := FreeLinks(ts, i);
    && FreeLinks(ts', i) == (if free > 0 then free - 1 else 0)
    && forall q :: 0 <= q < |ts[i].header.value.polys| ==>
      LinksIn(ts', i, q) == if q == p && free > 0 then [l] + LinksIn(ts, i, q) else LinksIn(ts, i, q)
  }

  lemma AddPutsIn(ts: seq<Tile>, i: nat, p: nat, l: Link)
    requires LinksOk(ts) && Live(ts, i) && p < |ts[i].header.value.polys| && LinkOk(ts, ts[i].header.value, l)
    ensures |ts[i].store.firstLink| == |ts[i].header.value.polys|
    ensures -1 <= ts[i].store.free < |ts[i].store.cells|
    ensures LinksOk(AddTo(ts, i, p, l)) && SameTiles(ts, AddTo(ts, i, p, l)) && PutIn(ts, AddTo(ts, i, p, l), i, p, l)
  {
    AddKeepsLinksOk(ts, i, p, l);
    var ts' := AddTo(ts, i, p, l);
    assert TileLinksOk(ts, i) && TileLinksOk(ts', i);
    hide StoreOk, LinkOk, AllOk, LinksOf, FreeCount;
    AddFacts(ts[i].store, p, l);
  }

  /** Whether a polygon has links can be read off its first link. */
  lemma FirstLinkIs(ts: seq<Tile>, t: nat, p: nat)
    requires LinksOk(ts) && Live(ts, t) && p < |ts[t].header.value.polys|
    ensures p < |ts[t].store.firstLink| && (ts[t].store.firstLink[p] == -1 <==> LinksIn(ts, t, p) == [])
  {
    assert TileLinksOk(ts, t);
    ListFacts(ts[t].store, 1 + p);
  }

  lemma FreeLinksAdd(ts: seq<Tile>, i: nat, p: nat, l: Link, j: nat)
    requires LinksOk(ts) && Live(ts, i) && p < |ts[i].header.value.polys| && LinkOk(ts, ts[i].header.value, l)
    requires Live(ts, j) && |ts[i].store.firstLink| == |ts[i].header.value.polys|
    requires -1 <= ts[i].store.free < |ts[i].store.cells| && LinksOk(AddTo(ts, i, p, l))
    ensures FreeLinks(AddTo(ts, i, p, l), j) <= FreeLinks(ts, j)
  {
    hide LinksOk, LinkOk;
    AddPutsIn(ts, i, p, l);
  }

  /** One more wanted link. */
  lemma GrowBy(ts0: seq<Tile>, ts: seq<Tile>, kind: Kind, i: nat, p: nat, l: Link)
    requires LinksOk(ts0) && LinksOk(ts) && Grown(ts0, ts, kind)
    requires Live(ts, i) && p < |ts[i].header.value.polys| && LinkOk(ts, ts[i].header.value, l)
    requires Live(ts0, i) && Live(ts0, l.ref.it) && Wanted(ts0, kind, i, p, l)
    ensures |ts[i].store.firstLink| == |ts[i].header.value.polys|
    ensures -1 <= ts[i].store.free < |ts[i].store.cells| && LinksOk(AddTo(ts, i, p, l))
    ensures Grown(ts0, AddTo(ts, i, p, l), kind)
  {
    AddKeepsLinksOk(ts, i, p, l);
    AddPutsIn(ts, i, p, l);
    hide LinksIn, FreeLinks, LinkOk, LinksOk, Wanted, Grew, Add;
    var ts' := AddTo(ts, i, p, l);
    forall j | Live(ts0, j)
      ensures FreeLinks(ts', j) <= FreeLinks(ts0, j)
    {
      FreeLinksAdd(ts, i, p, l, j);
    }
    forall j, q | Live(ts0, j) && 0 <= q < |ts0[j].header.value.polys|
      ensures Grew(ts0, kind, j, q, LinksIn(ts0, j, q), LinksIn(ts', j, q))
    {
      LinksInAdd(ts, i, p, l, j, q);
      if (j, q) == (i, p) && FreeCount(ts[i].store) > 0 {
        GrewCons(ts0, kind, j, q, LinksIn(ts0, j, q), LinksIn(ts, j, q), l);
      }
    }
  }

  predicate Involves(kind: Kind, tile: nat) {
    kind.tile == tile || (kind.Portals? && kind.target == tile) || (kind.Landings? && kind.target == tile)
  }

  ghost predicate SameGeometry(g: Geometry, kind: Kind) {
    kind.Internal? || kind.geo == g
  }

  /** What a connecting function allows is due, when the tiles lie as it was told. */
  lemma WantedIsDue(g: Geometry, ts: seq<Tile>, kind: Kind, tile: nat, i: nat, p: nat, l: Link)
    requires Live(ts, i) && Live(ts, l.ref.it) && Wanted(ts, kind, i, p, l)
    requires Involves(kind, tile) && SameGeometry(g, kind) && Placed(ts, kind)
    ensures Wanted(ts, Touching(g, tile), i, p, l)
  {
    hide InnerDue, PortalDue, LandingDue, ReturnDue, BaseDue;
    if kind.Landings? {
      var h, other := ts[kind.tile].header.value, ts[kind.target].header.value;
      assert LiesOn(other, h, LandingSide(kind.side));
    }
  }

  lemma GrewTouching(g: Geometry, ts: seq<Tile>, ts': seq<Tile>, kind: Kind, tile: nat, i: nat, p: nat,
                     a: seq<Link>, b: seq<Link>, c: seq<Link>)
    requires SameTiles(ts, ts') && Live(ts, i) && Live(ts', i)
    requires Involves(kind, tile) && SameGeometry(g, kind) && Placed(ts, kind)
    requires Grew(ts, Touching(g, tile), i, p, a, b) && Grew(ts', kind, i, p, b, c)
    ensures Grew(ts, Touching(g, tile), i, p, a, c)
  {
    hide Due, Placed;
    assert c[|c| - |a|..] == c[|c| - |b|..][|b| - |a|..];
    forall k | 0 <= k < |c| - |a|
      ensures Live(ts, c[k].ref.it) && Wanted(ts, Touching(g, tile), i, p, c[k])
    {
      if k < |c| - |b| {
        assert Live(ts', c[k].ref.it) && Wanted(ts', kind, i, p, c[k]);
        WantedIsDue(g, ts, kind, tile, i, p, c[k]);
      } else {
        assert c[k] == c[|c| - |b|..][k - (|c| - |b|)];
      }
    }
  }

  /** Whatever the connecting functions add for `tile` has `tile` at one end and is due. */
  lemma GrownTouching(g: Geometry, ts0: seq<Tile>, ts1: seq<Tile>, ts2: seq<Tile>, kind: Kind, tile: nat)
    requires LinksOk(ts0) && LinksOk(ts1) && LinksOk(ts2)
    requires Involves(kind, tile) && SameGeometry(g, kind) && Placed(ts0, kind)
    requires Grown(ts0, ts1, Touching(g, tile)) && Grown(ts1, ts2, kind)
    ensures Grown(ts0, ts2, Touching(g, tile))
  {
    hide LinksIn, FreeLinks, LinksOk, Grew, Wanted, Placed;
    forall j, q | Live(ts0, j) && 0 <= q < |ts0[j].header.value.polys|
      ensures Grew(ts0, Touching(g, tile), j, q, LinksIn(ts0, j, q), LinksIn(ts2, j, q))
    {
      assert Live(ts1, j);
      GrewTouching(g, ts0, ts1, kind, tile, j, q, LinksIn(ts0, j, q), LinksIn(ts1, j, q), LinksIn(ts2, j, q));
    }
  }

  // ----- A slot's tile comes and goes -----

  /** A tile without links in a slot that was free. */
  lemma NewTileLinksOk(ts: seq<Tile>, t: nat, tile: Tile, ts': seq<Tile>)
    requires LinksOk(ts) && t < |ts| && ts[t].header.None? && tile.header.Some? && ts' == ts[t := tile]
    requires StoreOk(tile.store) && |tile.store.firstLink| == |tile.header.value.polys|
    requires forall p :: 0 <= p < |tile.store.firstLink| ==> LinksOf(tile.store, p) == []
    ensures LinksOk(ts')
    ensures forall i, p :: Live(ts, i) && 0 <= p < |ts[i].header.value.polys| ==>
      LinksIn(ts', i, p) == LinksIn(ts, i, p)
    ensures forall p :: 0 <= p < |tile.header.value.polys| ==> LinksIn(ts', t, p) == []
  {
    hide StoreOk, LinksOf;
    forall i | 0 <= i < |ts'| && ts'[i].header.Some?
      ensures TileLinksOk(ts', i)
    {
      if i != t {
        assert TileLinksOk(ts, i);
        forall p | 0 <= p < |ts[i].store.firstLink|
          ensures AllOk(ts', ts[i].header.value, LinksOf(ts[i].store, p))
        {
          assert AllOk(ts, ts[i].header.value, LinksOf(ts[i].store, p));
        }
      }
    }
  }

  /** No link leads to slot `t`. */
  ghost predicate NoLinkTo(ts: seq<Tile>, t: nat)
    requires LinksOk(ts)
  {
    forall i, p, k :: Live(ts, i) && 0 <= p < |ts[i].header.value.polys| && 0 <= k < |LinksIn(ts, i, p)| ==>
      LinksIn(ts, i, p)[k].ref.it != t
  }

  /** Links never lead to a free slot. */
  lemma FreeSlotNotLinked(ts: seq<Tile>, t: nat)
    requires LinksOk(ts) && t < |ts| && ts[t].header.None?
    ensures NoLinkTo(ts, t)
  {
    forall i, p, k | Live(ts, i) && 0 <= p < |ts[i].header.value.polys| && 0 <= k < |LinksIn(ts, i, p)|
      ensures LinksIn(ts, i, p)[k].ref.it != t
    {
      assert TileLinksOk(ts, i);
      assert AllOk(ts, ts[i].header.value, LinksOf(ts[i].store, p));
    }
  }

  /** Tile `t` becomes a free slot once no other tile links to it. */
  lemma DeadTileLinksOk(ts: seq<Tile>, t: nat, tile: Tile, ts': seq<Tile>)
    requires LinksOk(ts) && Live(ts, t) && tile.header.None? && ts' == ts[t := tile]
    requires forall i, p, k ::
      Live(ts, i) && i != t && 0 <= p < |ts[i].header.value.polys| && 0 <= k < |LinksIn(ts, i, p)| ==>
      LinksIn(ts, i, p)[k].ref.it != t
    ensures LinksOk(ts')
    ensures forall i, p :: Live(ts', i) && 0 <= p < |ts'[i].header.value.polys| ==>
      LinksIn(ts', i, p) == LinksIn(ts, i, p)
  {
    hide StoreOk, LinksOf;
    forall i | 0 <= i < |ts'| && ts'[i].header.Some?
      ensures TileLinksOk(ts', i)
    {
      assert TileLinksOk(ts, i);
      forall p | 0 <= p < |ts[i].store.firstLink|
        ensures AllOk(ts', ts[i].header.value, LinksOf(ts[i].store, p))
      {
        var links := LinksIn(ts, i, p);
        assert AllOk(ts, ts[i].header.value, links);
        forall k | 0 <= k < |links|
          ensures LinkOk(ts', ts[i].header.value, links[k])
        {
          assert LinkOk(ts, ts[i].header.value, links[k]) && links[k].ref.it != t;
        }
      }
    }
  }

  /** The tiles of `ts0`, where those in `done` have lost their links to `t`. */
  ghost predicate Cut(ts0: seq<Tile>, ts: seq<Tile>, t: nat, done: set<nat>)
    requires LinksOk(ts0) && LinksOk(ts)
  {
    && SameTiles(ts0, ts)
    && forall i, p :: Live(ts0, i) && 0 <= p < |ts0[i].header.value.polys| ==>
      LinksIn(ts, i, p) == if i in done then Keep(LinksIn(ts0, i, p), t) else LinksIn(ts0, i, p)
  }

  ghost predicate NearTilesIn(ts: seq<Tile>, t: nat, done: set<nat>)
    requires Live(ts, t)
  {
    forall i :: Live(ts, i) && i != t && Near(ts[i].header.value, ts[t].header.value) ==> i in done
  }

  lemma CutStart(ts: seq<Tile>, t: nat)
    requires LinksOk(ts)
    ensures Cut(ts, ts, t, {})
  {
  }

  lemma KeepAllOk(ts: seq<Tile>, h: Header, links: seq<Link>, t: nat)
    requires AllOk(ts, h, links)
    ensures AllOk(ts, h, Keep(links, t))
  {
    hide LinkOk;
    var kept := Keep(links, t);
    forall k | 0 <= k < |kept|
      ensures LinkOk(ts, h, kept[k])
    {
      assert kept[k] in links;
    }
  }

  lemma CutTileOk(ts: seq<Tile>, j: nat, t: nat, s: LinkStore)
    requires Live(ts, j) && TileLinksOk(ts, j) && StoreOk(s) && |s.firstLink| == |ts[j].store.firstLink|
    requires forall p :: 0 <= p < |s.firstLink| ==> LinksOf(s, p) == Keep(LinksOf(ts[j].store, p), t)
    ensures TileLinksOk(ts[j := ts[j].(store := s)], j)
  {
    hide StoreOk, LinksOf, Keep, AllOk;
    var ts', h := ts[j := ts[j].(store := s)], ts[j].header.value;
    forall p | 0 <= p < |s.firstLink|
      ensures AllOk(ts', h, LinksOf(s, p))
    {
      KeepAllOk(ts, h, LinksOf(ts[j].store, p), t);
      AllOkFrame(ts, ts', h, LinksOf(s, p));
    }
  }

  /** unconnectLinks on tile `j`. */
  lemma CutOne(ts0: seq<Tile>, ts: seq<Tile>, t: nat, done: set<nat>, j: nat, s: LinkStore, ts': seq<Tile>)
    requires LinksOk(ts0) && LinksOk(ts) && Cut(ts0, ts, t, done) && Live(ts, j)
    requires StoreOk(ts[j].store) && StoreOk(s) && |s.firstLink| == |ts[j].store.firstLink|
    requires forall p :: 0 <= p < |s.firstLink| ==> LinksOf(s, p) == Keep(LinksOf(ts[j].store, p), t)
    requires ts' == ts[j := ts[j].(store := s)]
    ensures LinksOk(ts') && Cut(ts0, ts', t, done + {j})
  {
    hide StoreOk, LinksOf, Keep, AllOk;
    assert TileLinksOk(ts, j);
    hide TileLinksOk;
    CutTileOk(ts, j, t, s);
    forall i | 0 <= i < |ts'| && ts'[i].header.Some? && i != j
      ensures TileLinksOk(ts', i)
    {
      TileLinksFrame(ts, ts', i);
    }
  }

  /** Links to `t` come only from near tiles, so when all of those are done no other tile links to it. */
  lemma CutComplete(ts0: seq<Tile>, ts: seq<Tile>, t: nat, done: set<nat>)
    requires LinksOk(ts0) && LinksOk(ts) && Cut(ts0, ts, t, done) && Live(ts0, t) && NearTilesIn(ts0, t, done)
    ensures forall i, p :: Live(ts0, i) && i != t && 0 <= p < |ts0[i].header.value.polys| ==>
      LinksIn(ts, i, p) == Keep(LinksIn(ts0, i, p), t)
  {
    forall i, p | Live(ts0, i) && i != t && 0 <= p < |ts0[i].header.value.polys| && i !in done
      ensures LinksIn(ts, i, p) == Keep(LinksIn(ts0, i, p), t)
    {
      assert TileLinksOk(ts0, i);
      var links := LinksIn(ts0, i, p);
      assert AllOk(ts0, ts0[i].header.value, links);
      forall k | 0 <= k < |links|
        ensures links[k].ref.it != t
      {
        assert LinkOk(ts0, ts0[i].header.value, links[k]);
      }
    }
  }

  // ----- Adding a tile -----

  predicate FormatOk(h: Header) {
    h.magic == DT_NAVMESH_MAGIC && h.version == DT_NAVMESH_VERSION
  }

  /** Some live tile is at the location of `h`. */
  predicate Taken(ts: seq<Tile>, h: Header) {
    exists i :: 0 <= i < |ts| && IsIn(ts, i, h.x, h.y, h.layer)
  }

  /** There is a free slot; one that `lastRef` asks for must be free itself. */
  predicate CanAlloc(w: Widths, ts: seq<Tile>, lastRef: nat)
    requires WidthsOk(w)
  {
    if lastRef == 0 then exists i :: 0 <= i < |ts| && ts[i].header.None?
    else DecodePolyIdTile(w, lastRef) < |ts| && ts[DecodePolyIdTile(w, lastRef)].header.None?
  }

  function BaseRef(tile: Tile, t: nat): PolyRef {
    PolyRef(tile.salt, t, 0)
  }

  /** `ts'` is `ts` with a tile in the free slot `t`; other tiles only gained links to the new one. */
  ghost predicate TileAdded(g: Geometry, ts: seq<Tile>, ts': seq<Tile>, t: nat, header: Header)
    requires LinksOk(ts)
  {
    && |ts'| == |ts| && t < |ts| && ts[t].header.None? && ts'[t].header == Some(header) && LinksOk(ts')
    && (forall i :: 0 <= i < |ts| && i != t ==> ts'[i].header == ts[i].header && ts'[i].salt == ts[i].salt)
    && forall i, p :: Live(ts, i) && 0 <= p < |ts[i].header.value.polys| ==>
      Grew(ts', Touching(g, t), i, p, LinksIn(ts, i, p), LinksIn(ts', i, p))
  }

  /** Free slots may change their salts, and slots their links, without harm to links between polygons. */
  lemma SlotWritesKeepLinks(ts: seq<Tile>, ts': seq<Tile>)
    requires LinksOk(ts) && |ts'| == |ts|
    requires forall i :: 0 <= i < |ts| ==> ts'[i].header == ts[i].header && ts'[i].store == ts[i].store
    requires forall i :: Live(ts, i) ==> ts'[i].salt == ts[i].salt
    ensures LinksOk(ts')
    ensures forall i, p :: Live(ts, i) && 0 <= p < |ts[i].header.value.polys| ==>
      LinksIn(ts', i, p) == LinksIn(ts, i, p)
  {
    hide StoreOk, LinksOf;
    forall i | 0 <= i < |ts'| && ts'[i].header.Some?
      ensures TileLinksOk(ts', i)
    {
      assert TileLinksOk(ts, i);
      forall p | 0 <= p < |ts[i].store.firstLink|
        ensures AllOk(ts', ts[i].header.value, LinksOf(ts[i].store, p))
      {
        assert AllOk(ts, ts[i].header.value, LinksOf(ts[i].store, p));
      }
    }
  }

  lemma GrewFrame(g: Geometry, ts: seq<Tile>, ts': seq<Tile>, t: nat, i: nat, p: nat, a: seq<Link>, b: seq<Link>)
    requires SameTiles(ts, ts') && Live(ts, i) && Grew(ts, Touching(g, t), i, p, a, b)
    ensures Grew(ts', Touching(g, t), i, p, a, b)
  {
    forall k | 0 <= k < |b| - |a|
      ensures Live(ts', b[k].ref.it) && Wanted(ts', Touching(g, t), i, p, b[k])
    {
      assert Live(ts, b[k].ref.it) && Wanted(ts, Touching(g, t), i, p, b[k]);
    }
  }

  /** From taking the slot (`ts1`) over filling it (`ts2`) to linking the tile (`ts3`). */
  lemma StepsAddTile(g: Geometry, ts: seq<Tile>, ts1: seq<Tile>, ts2: seq<Tile>, ts3: seq<Tile>, t: nat, header: Header)
    requires LinksOk(ts) && LinksOk(ts1) && LinksOk(ts2) && LinksOk(ts3) && |ts3| == |ts2| == |ts1| == |ts| && t < |ts|
    requires ts[t].header.None? && ts2[t].header == Some(header)
    requires forall i :: 0 <= i < |ts| ==> ts1[i].header == ts[i].header && (i != t ==> ts1[i].salt == ts[i].salt)
    requires forall i :: 0 <= i < |ts| && i != t ==> ts2[i] == ts1[i]
    requires forall i, p :: Live(ts, i) && 0 <= p < |ts[i].header.value.polys| ==>
      LinksIn(ts1, i, p) == LinksIn(ts, i, p)
    requires forall i, p :: i != t && Live(ts2, i) && 0 <= p < |ts2[i].header.value.polys| ==>
      LinksIn(ts2, i, p) == LinksIn(ts1, i, p)
    requires SameTiles(ts2, ts3) && Grown(ts2, ts3, Touching(g, t))
    ensures TileAdded(g, ts, ts3, t, header)
  {
    hide LinksOk, LinksIn, Grew;
    forall i, p | Live(ts, i) && 0 <= p < |ts[i].header.value.polys|
      ensures Grew(ts3, Touching(g, t), i, p, LinksIn(ts, i, p), LinksIn(ts3, i, p))
    {
      assert Live(ts2, i) && LinksIn(ts2, i, p) == LinksIn(ts, i, p);
      GrewFrame(g, ts2, ts3, t, i, p, LinksIn(ts2, i, p), LinksIn(ts3, i, p));
    }
  }

  lemma AddKeepsPlaces(g: Geometry, ts: seq<Tile>, ts': seq<Tile>, t: nat, header: Header)
    requires UniquePlaces(ts) && LinksOk(ts) && TileAdded(g, ts, ts', t, header) && !Taken(ts, header)
    ensures UniquePlaces(ts')
  {
    hide LinksOk, LinksIn, Grew;
    forall i, j | 0 <= i < |ts'| && 0 <= j < |ts'| && i != j && ts'[i].header.Some? && ts'[j].header.Some?
      ensures !SamePlace(ts'[i].header.value, ts'[j].header.value)
    {
      assert i != t ==> !IsIn(ts, i, header.x, header.y, header.layer);
      assert j != t ==> !IsIn(ts, j, header.x, header.y, header.layer);
    }
  }

  // ----- Removing a tile -----

  /** The salt after a removal; it is never zero. */
  function NextSalt(w: Widths, salt: nat): (next: nat)
    requires WidthsOk(w)
    ensures 1 <= next < w.salts
  {
    if (salt + 1) % w.salts == 0 then 1 else (salt + 1) % w.salts
  }

  /** `ts'` is `ts` without the tile in slot `t`; other tiles lost exactly their links to it. */
  ghost predicate TileRemoved(ts: seq<Tile>, ts': seq<Tile>, t: nat)
    requires LinksOk(ts)
  {
    && |ts'| == |ts| && Live(ts, t) && ts'[t].header.None? && LinksOk(ts')
    && (forall i :: 0 <= i < |ts| && i != t ==> ts'[i].header == ts[i].header && ts'[i].salt == ts[i].salt)
    && forall i, p :: Live(ts', i) && 0 <= p < |ts'[i].header.value.polys| ==>
      LinksIn(ts', i, p) == Keep(LinksIn(ts, i, p), t)
  }

  /** The live tiles at a position. */
  function TilesAt(ts: seq<Tile>, x: int, y: int): set<int> {
    set i | 0 <= i < |ts| && IsAt(ts, i, x, y)
  }

  /** No position holds more tiles than removeTile looks at. */
  predicate FewAt(ts: seq<Tile>, x: int, y: int) {
    |TilesAt(ts, x, y)| <= MAX_NEIS
  }

  ghost predicate FewPerPosition(ts: seq<Tile>) {
    forall x, y :: FewAt(ts, x, y)
  }

  lemma FewFrame(ts: seq<Tile>, ts': seq<Tile>)
    requires |ts'| == |ts| && forall i :: 0 <= i < |ts| ==> ts'[i].header == ts[i].header
    requires FewPerPosition(ts)
    ensures FewPerPosition(ts')
  {
    forall x, y
      ensures FewAt(ts', x, y)
    {
      assert FewAt(ts, x, y) && TilesAt(ts', x, y) == TilesAt(ts, x, y);
    }
  }

  lemma {:induction false} SlotsAtDistinct(ts: seq<Tile>, list: seq<nat>, x: int, y: int)
    requires Distinct(list)
    ensures Distinct(SlotsAt(ts, list, x, y))
  {
    if list != [] {
      SlotsAtDistinct(ts, list[1..], x, y);
      assert list[0] !in list[1..];
    }
  }

  /** With few tiles per position, the first `MAX_NEIS` of a bucket at a position are all of them. */
  lemma FewAreAll(ts: seq<Tile>, list: seq<nat>, x: int, y: int)
    requires Distinct(list) && FewAt(ts, x, y)
    ensures |SlotsAt(ts, list, x, y)| <= MAX_NEIS
  {
    var found := SlotsAt(ts, list, x, y);
    SlotsAtDistinct(ts, list, x, y);
    DistinctCard(found);
    var ids: seq<int> := seq(|found|, k requires 0 <= k < |found| => found[k]);
    DistinctCard(ids);
    SubsetCard(Elements(ids), TilesAt(ts, x, y)) by {
      forall i | i in ids
        ensures i in TilesAt(ts, x, y)
      {
        assert i in found;
      }
    }
  }

  lemma {:induction false} SlotsAtFrame(ts: seq<Tile>, ts': seq<Tile>, list: seq<nat>, x: int, y: int)
    requires SameTiles(ts, ts')
    ensures SlotsAt(ts', list, x, y) == SlotsAt(ts, list, x, y)
  {
    if list != [] {
      SlotsAtFrame(ts, ts', list[1..], x, y);
    }
  }

  /** Every tile at the position, other than `t`, is in `done`. */
  ghost predicate PositionDone(ts: seq<Tile>, t: nat, done: set<nat>, x: int, y: int) {
    forall i :: 0 <= i < |ts| && i != t && IsAt(ts, i, x, y) ==> i in done
  }

  /** A tile's own position and the eight around it are all the near ones. */
  lemma NearDone(ts: seq<Tile>, t: nat, done: set<nat>)
    requires Live(ts, t)
    requires var h := ts[t].header.value;
      PositionDone(ts, t, done, h.x, h.y) &&
      forall i :: 0 <= i < 8 ==> PositionDone(ts, t, done, Neighbour(h.x, h.y, i).0, Neighbour(h.x, h.y, i).1)
    ensures NearTilesIn(ts, t, done)
  {
    forall i | Live(ts, i) && i != t && Near(ts[i].header.value, ts[t].header.value)
      ensures i in done
    {
      NearIsNeighbour(ts[t].header.value, ts[i].header.value);
    }
  }

  /** From disconnecting (`ts1`) to resetting the slot (`ts2`). */
  lemma StepsRemoveTile(ts: seq<Tile>, ts1: seq<Tile>, ts2: seq<Tile>, t: nat, done: set<nat>, tile: Tile)
    requires LinksOk(ts) && LinksOk(ts1) && Cut(ts, ts1, t, done) && Live(ts, t)
    requires NearTilesIn(ts, t, done)
    requires tile.header.None? && ts2 == ts1[t := tile]
    ensures TileRemoved(ts, ts2, t)
  {
    CutComplete(ts, ts1, t, done);
    hide LinksOk, LinksIn;
    DeadTileLinksOk(ts1, t, tile, ts2);
  }

  // ----- There and back -----

  lemma KeepAppendCons(l: Link, rest: seq<Link>, b: seq<Link>, t: nat)
    requires Keep(rest + b, t) == Keep(rest, t) + Keep(b, t)
    ensures Keep([l] + (rest + b), t) == Keep([l] + rest, t) + Keep(b, t)
  {
    hide Keep;
    KeepCons(l, rest, t);
    KeepCons(l, rest + b, t);
  }

  lemma {:induction false} KeepAppend(a: seq<Link>, b: seq<Link>, t: nat)
    ensures Keep(a + b, t) == Keep(a, t) + Keep(b, t)
  {
    hide Keep;
    if a == [] {
      assert a + b == b && Keep(a, t) == a;
    } else {
      var l, rest := a[0], a[1..];
      assert a == [l] + rest;
      KeepAppend(rest, b, t);
      KeepAppendCons(l, rest, b, t);
      assert [l] + rest + b == [l] + (rest + b);
    }
  }

  lemma {:induction false} KeepNone(a: seq<Link>, t: nat)
    requires forall k :: 0 <= k < |a| ==> a[k].ref.it == t
    ensures Keep(a, t) == []
  {
    if a != [] {
      KeepNone(a[1..], t);
    }
  }

  /** Removing a tile takes back exactly the links that adding it gave another tile. */
  lemma RemoveUndoesAdd(g: Geometry, ts: seq<Tile>, t: nat, i: nat, p: nat, a: seq<Link>, b: seq<Link>)
    requires Live(ts, i) && i != t && Grew(ts, Touching(g, t), i, p, a, b)
    requires forall k :: 0 <= k < |a| ==> a[k].ref.it != t
    ensures Keep(b, t) == a
  {
    var n := |b| - |a|;
    assert b == b[..n] + b[n..];
    KeepAppend(b[..n], b[n..], t);
    forall k | 0 <= k < n
      ensures b[..n][k].ref.it == t
    {
      assert Wanted(ts, Touching(g, t), i, p, b[k]);
    }
    KeepNone(b[..n], t);
  }

  /** The live tiles of `ts` are there with the same polygon links. */
  ghost predicate SameLinks(ts: seq<Tile>, ts': seq<Tile>)
    requires LinksOk(ts)
  {
    && |ts'| == |ts| && LinksOk(ts')
    && (forall i :: Live(ts, i) <==> Live(ts', i))
    && (forall i :: Live(ts, i) ==> ts'[i].header == ts[i].header && ts'[i].salt == ts[i].salt)
    && forall i, p :: Live(ts, i) && 0 <= p < |ts[i].header.value.polys| ==> LinksIn(ts', i, p) == LinksIn(ts, i, p)
  }

  lemma AddThenRemoveLinks(g: Geometry, ts: seq<Tile>, ts1: seq<Tile>, ts2: seq<Tile>, t: nat, header: Header)
    requires LinksOk(ts) && LinksOk(ts1) && TileAdded(g, ts, ts1, t, header) && TileRemoved(ts1, ts2, t)
    ensures SameLinks(ts, ts2)
  {
    FreeSlotNotLinked(ts, t);
    hide LinksOk, LinksIn, Keep, Grew;
    forall i, p | Live(ts, i) && 0 <= p < |ts[i].header.value.polys|
      ensures LinksIn(ts2, i, p) == LinksIn(ts, i, p)
    {
      assert Live(ts2, i);
      RemoveUndoesAdd(g, ts1, t, i, p, LinksIn(ts, i, p), LinksIn(ts1, i, p));
    }
  }

  lemma FewAfterAdd(g: Geometry, ts: seq<Tile>, ts': seq<Tile>, t: nat, header: Header)
    requires LinksOk(ts) && TileAdded(g, ts, ts', t, header)
    requires forall x, y :: |TilesAt(ts, x, y)| < MAX_NEIS
    ensures FewPerPosition(ts')
  {
    hide LinksOk, LinksIn, Grew;
    forall x, y
      ensures FewAt(ts', x, y)
    {
      SubsetCard(TilesAt(ts', x, y), TilesAt(ts, x, y) + {t});
    }
  }

  /** The salt of a slot after `n` removals. */
  function NthSalt(w: Widths, salt: nat, n: nat): nat
    requires WidthsOk(w)
  {
    if n == 0 then salt else NextSalt(w, NthSalt(w, salt, n - 1))
  }

  lemma Successor(x: nat, n: nat)
    requires n > 0
    ensures (x + 1) % n == if x % n == n - 1 then 0 else x % n + 1
  {
    var q, r := x / n, x % n;
    if r == n - 1 {
      QuotientIsUnique(n, (x + 1) / n, (x + 1) % n, q + 1, 0);
    } else {
      QuotientIsUnique(n, (x + 1) / n, (x + 1) % n, q, r + 1);
    }
  }

  lemma Wrapped(x: nat, m: nat)
    requires x < m
    ensures x % m == x && (x + m) % m == x
  {
    QuotientIsUnique(m, x / m, x % m, 0, x);
    QuotientIsUnique(m, (x + m) / m, (x + m) % m, 1, x);
  }

  lemma NotBack(x: nat, n: nat, m: nat)
    requires x < m && 0 < n < m
    ensures (x + n) % m != x
  {
    if x + n < m {
      Wrapped(x + n, m);
    } else {
      Wrapped(x + n - m, m);
    }
  }

  /** Salts go round: a reference that was retired is not handed out again before all other salts were. */
  lemma SaltsGoRound(w: Widths, salt: nat, n: nat)
    requires WidthsOk(w) && 1 <= salt < w.salts
    ensures 0 < n < w.salts - 1 ==> NthSalt(w, salt, n) != salt
    ensures NthSalt(w, salt, w.salts - 1) == salt
  {
    var m := w.salts - 1;
    NthSaltIs(w, salt, n);
    NthSaltIs(w, salt, m);
    Wrapped(salt - 1, m);
    hide NthSalt;
    if 0 < n < m {
      NotBack(salt - 1, n, m);
    }
  }

  lemma {:induction false} NthSaltIs(w: Widths, salt: nat, n: nat)
    requires WidthsOk(w) && 1 <= salt < w.salts
    ensures NthSalt(w, salt, n) == 1 + (salt - 1 + n) % (w.salts - 1)
  {
    var m := w.salts - 1;
    hide NextSalt;
    if n == 0 {
      Wrapped(salt - 1, m);
    } else {
      NthSaltIs(w, salt, n - 1);
      SaltStepIs(w, NthSalt(w, salt, n - 1), salt - 1 + n - 1);
    }
  }

  lemma SaltStepIs(w: Widths, salt: nat, x: nat)
    requires WidthsOk(w) && salt == 1 + x % (w.salts - 1)
    ensures NextSalt(w, salt) == 1 + (x + 1) % (w.salts - 1)
  {
    SaltStep(w, salt);
    Successor(x, w.salts - 1);
    hide NextSalt;
  }

  lemma SaltStep(w: Widths, salt: nat)
    requires WidthsOk(w) && 1 <= salt < w.salts
    ensures NextSalt(w, salt) == if salt == w.salts - 1 then 1 else salt + 1
  {
    if salt == w.salts - 1 {
      QuotientIsUnique(w.salts, (salt + 1) / w.salts, (salt + 1) % w.salts, 1, 0);
    } else {
      QuotientIsUnique(w.salts, (salt + 1) / w.salts, (salt + 1) % w.salts, 0, salt + 1);
    }
  }

  /** A salt is retired at once, unless there is only one to go round. */
  lemma SaltChanges(w: Widths, salt: nat)
    requires WidthsOk(w) && salt < w.salts
    ensures NextSalt(w, salt) == salt <==> w.salts == 2 && salt == 1
  {
  }
}
