/**
 Which links a tile is due, given the geometry: the other half of what the connecting functions promise. They never
 add a link that is not wanted (NavMeshModel); here it is said which links they do add, as long as the tiles have
 link cells, and that links added once stay while other links are added.
 */
module NavMeshLinking {
  import opened Basics
  import opened LinkStores
  import opened NavMeshModel

  /** Polygon `p` of tile `i` has link `l`, or the tile has run out of link cells. */
  ghost predicate Has(ts: seq<Tile>, i: nat, p: nat, l: Link) {
    && LinksOk(ts) && Live(ts, i) && p < |ts[i].header.value.polys|
    && (FreeLinks(ts, i) > 0 ==> l in LinksIn(ts, i, p))
  }

  ghost predicate HasMore(ts: seq<Tile>, ts': seq<Tile>) {
    forall i: nat, p: nat, l :: Has(ts, i, p, l) ==> Has(ts', i, p, l)
  }

  lemma HasMoreRefl(ts: seq<Tile>)
    ensures HasMore(ts, ts)
  {
  }

  lemma HasMoreTrans(a: seq<Tile>, b: seq<Tile>, c: seq<Tile>)
    requires HasMore(a, b) && HasMore(b, c)
    ensures HasMore(a, c)
  {
    hide Has;
  }

  lemma HasStays(ts: seq<Tile>, ts': seq<Tile>, i: nat, p: nat, l: Link)
    requires HasMore(ts, ts') && Has(ts, i, p, l)
    ensures Has(ts', i, p, l)
  {
  }

  /** Growing loses no link and frees no cell. */
  lemma GrownHasMore(ts: seq<Tile>, ts': seq<Tile>, kind: Kind)
    requires LinksOk(ts) && LinksOk(ts') && Grown(ts, ts', kind)
    ensures HasMore(ts, ts')
  {
    hide LinksOk, LinksIn, FreeLinks, Wanted;
    forall i: nat, p: nat, l | Has(ts, i, p, l)
      ensures Has(ts', i, p, l)
    {
      assert FreeLinks(ts', i) <= FreeLinks(ts, i);
      var a, b := LinksIn(ts, i, p), LinksIn(ts', i, p);
      assert Grew(ts, kind, i, p, a, b);
      if FreeLinks(ts', i) > 0 {
        var k :| 0 <= k < |a| && a[k] == l;
        assert b[|b| - |a|..][k] == l && b[|b| - |a| + k] == l;
      }
    }
  }

  /** A link just put in is there, unless no cell was free. */
  lemma PutInHas(ts: seq<Tile>, ts': seq<Tile>, i: nat, p: nat, l: Link)
    requires LinksOk(ts) && LinksOk(ts') && SameTiles(ts, ts') && Live(ts, i) && p < |ts[i].header.value.polys|
    requires PutIn(ts, ts', i, p, l)
    ensures Has(ts', i, p, l)
  {
    hide LinksOk;
  }

  lemma FreeLess(ts: seq<Tile>, ts': seq<Tile>, kind: Kind, t: nat)
    requires LinksOk(ts) && LinksOk(ts') && Grown(ts, ts', kind) && Live(ts, t)
    ensures FreeLinks(ts', t) <= FreeLinks(ts, t)
  {
  }

  // ----- Internal links -----

  /** The links of a polygon's internal edges from edge `j` on, in edge order. */
  function IntLinks(salt: nat, it: nat, neis: seq<nat>, j: nat): seq<Link>
    requires j <= |neis|
    decreases |neis| - j
  {
    if j == |neis| then []
    else if IsInternal(neis[j]) then
      [Link(PolyRef(salt, it, neis[j] - 1), j, 0xff)] + IntLinks(salt, it, neis, j + 1)
    else IntLinks(salt, it, neis, j + 1)
  }

  lemma IntLinksFrom(salt: nat, it: nat, neis: seq<nat>, j: nat, rest: seq<Link>)
    ensures IntLinks(salt, it, neis, |neis|) + rest == rest
    ensures j < |neis| && IsInternal(neis[j]) ==>
      IntLinks(salt, it, neis, j) + rest ==
        [Link(PolyRef(salt, it, neis[j] - 1), j, 0xff)] + (IntLinks(salt, it, neis, j + 1) + rest)
    ensures j < |neis| && IsInternal(neis[j]) ==> |IntLinks(salt, it, neis, j)| == 1 + |IntLinks(salt, it, neis, j + 1)|
    ensures j < |neis| && !IsInternal(neis[j]) ==> IntLinks(salt, it, neis, j) == IntLinks(salt, it, neis, j + 1)
  {
  }

  /** The internal links of a polygon; off-mesh connections have none. */
  function PolyLinks(salt: nat, it: nat, poly: Poly): seq<Link> {
    if poly.offMesh then [] else IntLinks(salt, it, poly.neis, 0)
  }

  /** How many internal links the polygons from `i` on want. */
  function LinkCount(salt: nat, it: nat, polys: seq<Poly>, i: nat): nat
    requires i <= |polys|
    decreases |polys| - i
  {
    if i == |polys| then 0 else |PolyLinks(salt, it, polys[i])| + LinkCount(salt, it, polys, i + 1)
  }

  /** With cells enough, the internal links of each polygon of `t` are the last ones on its list, in edge order. */
  ghost predicate InnerLinked(ts1: seq<Tile>, ts: seq<Tile>, t: nat)
    requires LinksOk(ts1) && LinksOk(ts) && SameTiles(ts1, ts) && Live(ts1, t)
  {
    var polys, salt := ts1[t].header.value.polys, ts1[t].salt;
    FreeLinks(ts1, t) >= LinkCount(salt, t, polys, 0) ==> forall p :: 0 <= p < |polys| ==>
      EndsWith(LinksIn(ts, t, p), PolyLinks(salt, t, polys[p]) + LinksIn(ts1, t, p))
  }

  /** For a tile that started without links. */
  lemma InnerIs(ts1: seq<Tile>, ts: seq<Tile>, t: nat)
    requires LinksOk(ts1) && LinksOk(ts) && SameTiles(ts1, ts) && Live(ts1, t) && InnerLinked(ts1, ts, t)
    requires forall p :: 0 <= p < |ts1[t].header.value.polys| ==> LinksIn(ts1, t, p) == []
    ensures var polys, salt := ts[t].header.value.polys, ts[t].salt;
      FreeLinks(ts1, t) >= LinkCount(salt, t, polys, 0) ==> forall p :: 0 <= p < |polys| ==>
        EndsWith(LinksIn(ts, t, p), PolyLinks(salt, t, polys[p]))
  {
    hide LinksOk, LinksIn, PolyLinks, FreeLinks;
    var polys, salt := ts[t].header.value.polys, ts[t].salt;
    forall p | 0 <= p < |polys|
      ensures PolyLinks(salt, t, polys[p]) + LinksIn(ts1, t, p) == PolyLinks(salt, t, polys[p])
    {
    }
  }

  predicate EndsWith(s: seq<Link>, end: seq<Link>) {
    |end| <= |s| && s[|s| - |end|..] == end
  }

  lemma InnerStart(ts1: seq<Tile>, ts: seq<Tile>, t: nat)
    requires LinksOk(ts1) && LinksOk(ts) && SameTiles(ts1, ts) && Live(ts1, t)
    requires var polys := ts1[t].header.value.polys;
      FreeLinks(ts1, t) >= LinkCount(ts1[t].salt, t, polys, 0) ==> forall p :: 0 <= p < |polys| ==>
        LinksIn(ts, t, p) == PolyLinks(ts1[t].salt, t, polys[p]) + LinksIn(ts1, t, p)
    ensures InnerLinked(ts1, ts, t)
  {
  }

  lemma EndsWithTrans(a: seq<Link>, b: seq<Link>, c: seq<Link>)
    requires EndsWith(b, a) && EndsWith(c, b)
    ensures EndsWith(c, a)
  {
    assert c[|c| - |a|..] == c[|c| - |b|..][|b| - |a|..];
  }

  lemma InnerStays(ts1: seq<Tile>, ts: seq<Tile>, ts': seq<Tile>, t: nat, kind: Kind)
    requires LinksOk(ts1) && LinksOk(ts) && LinksOk(ts') && SameTiles(ts1, ts) && SameTiles(ts, ts') && Live(ts1, t)
    requires InnerLinked(ts1, ts, t) && Grown(ts, ts', kind)
    ensures InnerLinked(ts1, ts', t)
  {
    hide LinksOk, LinksIn, FreeLinks, PolyLinks, Wanted, LinkCount;
    var polys, salt := ts1[t].header.value.polys, ts1[t].salt;
    if FreeLinks(ts1, t) >= LinkCount(salt, t, polys, 0) {
      forall p | 0 <= p < |polys|
        ensures EndsWith(LinksIn(ts', t, p), PolyLinks(salt, t, polys[p]) + LinksIn(ts1, t, p))
      {
        assert Grew(ts, kind, t, p, LinksIn(ts, t, p), LinksIn(ts', t, p));
        EndsWithTrans(PolyLinks(salt, t, polys[p]) + LinksIn(ts1, t, p), LinksIn(ts, t, p), LinksIn(ts', t, p));
      }
    }
  }

  // ----- Portals -----

  predicate PortalOn(nei: nat, side: int) {
    nei >= DT_EXT_LINK && (side == -1 || nei % 0x100 == side)
  }

  function PortalCon(g: Geometry, h: Header, p: nat, j: nat, target: Header): seq<nat>
    requires p < |h.polys| && j < |h.polys[p].neis|
  {
    Connecting(g, h, p, j, target, OppositeTile(h.polys[p].neis[j] % 0x100))
  }

  lemma PortalConIs(g: Geometry, h: Header, p: nat, j: nat, target: Header)
    requires p < |h.polys| && j < |h.polys[p].neis|
    ensures PortalCon(g, h, p, j, target) ==
      Take(ConnectingAmong(g, h, p, j, target, OppositeTile(h.polys[p].neis[j] % 0x100), |target.polys|), MAX_CON)
  {
  }

  /** A link through a portal is good and of the kind that is wanted. */
  lemma PortalLinkOk(g: Geometry, ts: seq<Tile>, t: nat, target: nat, side: int, p: nat, j: nat, k: nat)
    requires Live(ts, t) && Live(ts, target) && Near(ts[t].header.value, ts[target].header.value)
    requires p < |ts[t].header.value.polys| && j < |ts[t].header.value.polys[p].neis|
    requires PortalOn(ts[t].header.value.polys[p].neis[j], side)
    requires k < |PortalCon(g, ts[t].header.value, p, j, ts[target].header.value)|
    ensures var con, dir := PortalCon(g, ts[t].header.value, p, j, ts[target].header.value),
        ts[t].header.value.polys[p].neis[j] % 0x100;
      var link := Link(PolyRef(ts[target].salt, target, con[k]), j, dir);
      LinkOk(ts, ts[t].header.value, link) && Wanted(ts, Portals(g, t, target, side), t, p, link)
  {
    var con := PortalCon(g, ts[t].header.value, p, j, ts[target].header.value);
    assert con[k] < |ts[target].header.value.polys|;
  }

  /** The first `n` polygons that connect with a portal edge are linked. */
  ghost predicate EdgeLinked(g: Geometry, ts: seq<Tile>, t: nat, target: nat, p: nat, j: nat, n: nat)
    requires Live(ts, t) && Live(ts, target) && p < |ts[t].header.value.polys|
    requires j < |ts[t].header.value.polys[p].neis|
  {
    var con := PortalCon(g, ts[t].header.value, p, j, ts[target].header.value);
    forall k :: 0 <= k < n && k < |con| ==>
      Has(ts, t, p, Link(PolyRef(ts[target].salt, target, con[k]), j, ts[t].header.value.polys[p].neis[j] % 0x100))
  }

  /** The first `n` edges of a polygon are linked where they are portals on the given side. */
  ghost predicate EdgesLinked(g: Geometry, ts: seq<Tile>, t: nat, target: nat, side: int, p: nat, n: nat)
    requires Live(ts, t) && Live(ts, target) && p < |ts[t].header.value.polys|
  {
    var neis := ts[t].header.value.polys[p].neis;
    forall j :: 0 <= j < n && j < |neis| && PortalOn(neis[j], side) ==> EdgeLinked(g, ts, t, target, p, j, MAX_CON)
  }

  /** Every portal edge of the first `n` polygons of `t` on the given side is linked with what it touches in
      `target`, as far as link cells go. */
  ghost predicate PortalsLinked(g: Geometry, ts: seq<Tile>, t: nat, target: nat, side: int, n: nat)
    requires Live(ts, t) && Live(ts, target)
  {
    forall p :: 0 <= p < n && p < |ts[t].header.value.polys| ==>
      EdgesLinked(g, ts, t, target, side, p, |ts[t].header.value.polys[p].neis|)
  }

  lemma EdgeStays(g: Geometry, ts: seq<Tile>, ts': seq<Tile>, t: nat, target: nat, p: nat, j: nat, n: nat)
    requires SameTiles(ts, ts') && HasMore(ts, ts') && Live(ts, t) && Live(ts, target)
    requires p < |ts[t].header.value.polys| && j < |ts[t].header.value.polys[p].neis|
    requires EdgeLinked(g, ts, t, target, p, j, n)
    ensures EdgeLinked(g, ts', t, target, p, j, n)
  {
    hide Has;
  }

  lemma EdgesStay(g: Geometry, ts: seq<Tile>, ts': seq<Tile>, t: nat, target: nat, side: int, p: nat, n: nat)
    requires SameTiles(ts, ts') && HasMore(ts, ts') && Live(ts, t) && Live(ts, target)
    requires p < |ts[t].header.value.polys| && EdgesLinked(g, ts, t, target, side, p, n)
    ensures EdgesLinked(g, ts', t, target, side, p, n)
  {
    hide Has, HasMore, EdgeLinked;
    var neis := ts[t].header.value.polys[p].neis;
    forall j | 0 <= j < n && j < |neis| && PortalOn(neis[j], side)
      ensures EdgeLinked(g, ts', t, target, p, j, MAX_CON)
    {
      EdgeStays(g, ts, ts', t, target, p, j, MAX_CON);
    }
  }

  lemma PortalsStay(g: Geometry, ts: seq<Tile>, ts': seq<Tile>, t: nat, target: nat, side: int, n: nat)
    requires SameTiles(ts, ts') && HasMore(ts, ts') && Live(ts, t) && Live(ts, target)
    requires PortalsLinked(g, ts, t, target, side, n)
    ensures PortalsLinked(g, ts', t, target, side, n)
  {
    hide Has, HasMore, EdgesLinked;
    var polys := ts[t].header.value.polys;
    forall p | 0 <= p < n && p < |polys|
      ensures EdgesLinked(g, ts', t, target, side, p, |polys[p].neis|)
    {
      EdgesStay(g, ts, ts', t, target, side, p, |polys[p].neis|);
    }
  }

  // ----- Off-mesh connections -----

  /** Connection `c` of tile `t` is linked with the polygon it starts on, if there is one, both ways. */
  ghost predicate BaseLinked(g: Geometry, ts: seq<Tile>, t: nat, c: nat)
    requires Live(ts, t) && c < |ts[t].header.value.offMeshCons|
  {
    var h, salt := ts[t].header.value, ts[t].salt;
    var base := g.nearest(h, c, false, h);
    base.Some? ==>
      && Has(ts, t, h.offMeshCons[c].poly, Link(PolyRef(salt, t, base.value), 0, 0xff))
      && Has(ts, t, base.value, Link(PolyRef(salt, t, h.offMeshCons[c].poly), 0xff, 0xff))
  }

  /** The first `n` connections of `t` whose start is on a polygon are linked with it both ways. */
  ghost predicate BasesLinked(g: Geometry, ts: seq<Tile>, t: nat, n: nat)
    requires Live(ts, t)
  {
    forall c :: 0 <= c < n && c < |ts[t].header.value.offMeshCons| ==> BaseLinked(g, ts, t, c)
  }

  /** Connection `c` of `target` lands on a polygon of `t` from the given side. */
  predicate Lands(g: Geometry, h: Header, target: Header, c: nat, side: int) {
    && -1 <= side && c < |target.offMeshCons| && target.offMeshCons[c].side == LandingSide(side)
    && g.nearest(target, c, true, h).Some?
  }

  /** A landing connection is linked, and back if it runs both ways. */
  ghost predicate LandingLinked(g: Geometry, ts: seq<Tile>, t: nat, target: nat, c: nat, side: int)
    requires Live(ts, t) && Live(ts, target) && Lands(g, ts[t].header.value, ts[target].header.value, c, side)
  {
    var h, other := ts[t].header.value, ts[target].header.value;
    var ip, con := g.nearest(other, c, true, h).value, other.offMeshCons[c];
    && Has(ts, target, con.poly, Link(PolyRef(ts[t].salt, t, ip), 1, LandingSide(side)))
    && (con.bidir ==>
          Has(ts, t, ip, Link(PolyRef(ts[target].salt, target, con.poly), 0xff, if side == -1 then 0xff else side)))
  }

  /** The first `n` connections of `target` that land in `t` are linked, if in `ts0` their start was. */
  ghost predicate LandingsLinked(g: Geometry, ts0: seq<Tile>, ts: seq<Tile>, t: nat, target: nat, side: int, n: nat)
    requires LinksOk(ts0) && Live(ts0, target) && Live(ts, t) && Live(ts, target)
    requires ts0[target].header == ts[target].header
  {
    var h, other := ts[t].header.value, ts[target].header.value;
    forall c :: 0 <= c < n && Lands(g, h, other, c, side) && Started(ts0, target, c) ==>
      LandingLinked(g, ts, t, target, c, side)
  }

  /** Connection `c` of a tile has links. */
  ghost predicate Started(ts: seq<Tile>, target: nat, c: nat)
    requires LinksOk(ts) && Live(ts, target) && c < |ts[target].header.value.offMeshCons|
  {
    var h := ts[target].header.value;
    h.offMeshCons[c].poly < |h.polys| && LinksIn(ts, target, h.offMeshCons[c].poly) != []
  }

  lemma StillStarted(ts: seq<Tile>, ts': seq<Tile>, kind: Kind, t: nat, c: nat)
    requires LinksOk(ts) && LinksOk(ts') && Grown(ts, ts', kind) && Live(ts, t)
    requires c < |ts[t].header.value.offMeshCons|
    ensures Started(ts, t, c) ==> Started(ts', t, c)
  {
    hide LinksOk, LinksIn, FreeLinks;
    var h := ts[t].header.value;
    var p := h.offMeshCons[c].poly;
    if p < |h.polys| {
      assert Grew(ts, kind, t, p, LinksIn(ts, t, p), LinksIn(ts', t, p));
    }
  }

  /** Connections that had links earlier still have them. */
  lemma LandingsFrom(g: Geometry, ts0: seq<Tile>, ts1: seq<Tile>, ts: seq<Tile>, t: nat, target: nat, side: int, n: nat)
    requires LinksOk(ts0) && LinksOk(ts1) && Live(ts, t) && Live(ts, target) && SameTiles(ts1, ts)
    requires exists kind :: Grown(ts0, ts1, kind)
    requires LandingsLinked(g, ts1, ts, t, target, side, n)
    ensures SameTiles(ts0, ts) && LandingsLinked(g, ts0, ts, t, target, side, n)
  {
    var kind :| Grown(ts0, ts1, kind);
    hide LinksOk, LinksIn, LandingLinked, Grew, FreeLinks;
    forall c | 0 <= c < |ts0[target].header.value.offMeshCons|
      ensures Started(ts0, target, c) ==> Started(ts1, target, c)
    {
      StillStarted(ts0, ts1, kind, target, c);
    }
  }

  /** Connections of `t` itself that start on a polygon and land in `n` are linked, unless cells ran out. */
  ghost predicate OwnLandingsLinked(g: Geometry, ts: seq<Tile>, n: nat, t: nat, side: int)
    requires LinksOk(ts) && Live(ts, n) && Live(ts, t)
  {
    var h, other := ts[n].header.value, ts[t].header.value;
    FreeLinks(ts, t) > 0 ==> forall c ::
      0 <= c < |other.offMeshCons| && Lands(g, h, other, c, side) && g.nearest(other, c, false, other).Some? ==>
        LandingLinked(g, ts, n, t, c, side)
  }

  lemma BasesStay(g: Geometry, ts: seq<Tile>, ts': seq<Tile>, t: nat, n: nat)
    requires SameTiles(ts, ts') && HasMore(ts, ts') && Live(ts, t) && BasesLinked(g, ts, t, n)
    ensures BasesLinked(g, ts', t, n)
  {
    hide Has;
    forall c | 0 <= c < n && c < |ts'[t].header.value.offMeshCons|
      ensures BaseLinked(g, ts', t, c)
    {
      assert BaseLinked(g, ts, t, c);
    }
  }

  lemma LandingsStay(g: Geometry, ts0: seq<Tile>, ts: seq<Tile>, ts': seq<Tile>, t: nat, target: nat, side: int, n: nat)
    requires LinksOk(ts0) && SameTiles(ts0, ts) && SameTiles(ts, ts') && HasMore(ts, ts')
    requires Live(ts, t) && Live(ts, target) && LandingsLinked(g, ts0, ts, t, target, side, n)
    ensures LandingsLinked(g, ts0, ts', t, target, side, n)
  {
    hide Has, LinksIn, LinksOk;
  }

  lemma OwnLandingsStay(g: Geometry, ts: seq<Tile>, ts': seq<Tile>, n: nat, t: nat, side: int)
    requires LinksOk(ts) && LinksOk(ts') && SameTiles(ts, ts') && HasMore(ts, ts') && Live(ts, n) && Live(ts, t)
    requires FreeLinks(ts', t) <= FreeLinks(ts, t) && OwnLandingsLinked(g, ts, n, t, side)
    ensures OwnLandingsLinked(g, ts', n, t, side)
  {
    hide Has, LinksOk, FreeLinks;
  }

  /** A connection that got its base link has links, so its landing is linked too. */
  lemma StartedFromBase(g: Geometry, ts0: seq<Tile>, ts: seq<Tile>, n: nat, t: nat, side: int)
    requires LinksOk(ts0) && LinksOk(ts) && SameTiles(ts0, ts) && Live(ts, n) && Live(ts, t)
    requires FreeLinks(ts, t) <= FreeLinks(ts0, t)
    requires BasesLinked(g, ts0, t, |ts0[t].header.value.offMeshCons|)
    requires LandingsLinked(g, ts0, ts, n, t, side, |ts[t].header.value.offMeshCons|)
    ensures OwnLandingsLinked(g, ts, n, t, side)
  {
    hide LinksOk, FreeLinks, LinksIn, LandingLinked;
    var h, other := ts[n].header.value, ts[t].header.value;
    forall c | FreeLinks(ts, t) > 0 && 0 <= c < |other.offMeshCons| && Lands(g, h, other, c, side) &&
               g.nearest(other, c, false, other).Some?
      ensures LandingLinked(g, ts, n, t, c, side)
    {
      assert BaseLinked(g, ts0, t, c);
    }
  }

  // ----- Pairs of tiles -----

  /** The same tiles in all slots but `t`. */
  predicate OthersSame(ts0: seq<Tile>, ts: seq<Tile>, t: nat) {
    |ts| == |ts0| && forall i :: 0 <= i < |ts| && i != t ==> ts[i].header == ts0[i].header
  }

  /** Everything between tile `t` and tile `n`, which lies on its side `side`: portals both ways, connections of `n`
      that land in `t` and had links in `ts0`, and connections of `t` that land in `n`. */
  ghost predicate PairLinked(g: Geometry, ts0: seq<Tile>, ts: seq<Tile>, t: nat, n: nat, side: int, back: int)
    requires LinksOk(ts0) && LinksOk(ts) && Live(ts, t) && Live(ts, n) && Live(ts0, n) && ts0[n].header == ts[n].header
  {
    && PortalsLinked(g, ts, t, n, side, |ts[t].header.value.polys|)
    && PortalsLinked(g, ts, n, t, back, |ts[n].header.value.polys|)
    && LandingsLinked(g, ts0, ts, t, n, side, |ts[n].header.value.offMeshCons|)
    && OwnLandingsLinked(g, ts, n, t, back)
  }

  lemma PairStays(g: Geometry, ts0: seq<Tile>, ts: seq<Tile>, ts': seq<Tile>, t: nat, n: nat, side: int, back: int)
    requires LinksOk(ts0) && LinksOk(ts) && LinksOk(ts') && SameTiles(ts0, ts) && SameTiles(ts, ts')
    requires HasMore(ts, ts') && Live(ts, t) && Live(ts, n) && FreeLinks(ts', t) <= FreeLinks(ts, t)
    requires PairLinked(g, ts0, ts, t, n, side, back)
    ensures PairLinked(g, ts0, ts', t, n, side, back)
  {
    hide LinksOk, HasMore, FreeLinks, PortalsLinked, LandingsLinked, OwnLandingsLinked;
    PortalsStay(g, ts, ts', t, n, side, |ts[t].header.value.polys|);
    PortalsStay(g, ts, ts', n, t, back, |ts[n].header.value.polys|);
    LandingsStay(g, ts0, ts, ts', t, n, side, |ts[n].header.value.offMeshCons|);
    OwnLandingsStay(g, ts, ts', n, t, back);
  }

  /** The first `n` of the given tiles, other than `t`, are linked with `t`. */
  ghost predicate NeisLinked(g: Geometry, ts0: seq<Tile>, ts: seq<Tile>, t: nat, neis: seq<nat>, n: nat, side: int,
                             back: int)
    requires LinksOk(ts0) && LinksOk(ts) && OthersSame(ts0, ts, t) && Live(ts, t)
  {
    forall k :: 0 <= k < n && k < |neis| && neis[k] != t ==>
      Live(ts, neis[k]) && PairLinked(g, ts0, ts, t, neis[k], side, back)
  }

  lemma NeisStay(g: Geometry, ts0: seq<Tile>, ts: seq<Tile>, ts': seq<Tile>, t: nat, neis: seq<nat>, n: nat,
                 side: int, back: int)
    requires LinksOk(ts0) && LinksOk(ts) && LinksOk(ts') && SameTiles(ts0, ts) && Grown(ts, ts', Touching(g, t))
    requires Live(ts, t) && NeisLinked(g, ts0, ts, t, neis, n, side, back)
    ensures NeisLinked(g, ts0, ts', t, neis, n, side, back)
  {
    GrownHasMore(ts, ts', Touching(g, t));
    FreeLess(ts, ts', Touching(g, t), t);
    assert SameTiles(ts, ts');
    hide LinksOk, Grown, HasMore, FreeLinks, PairLinked;
    forall k | 0 <= k < n && k < |neis| && neis[k] != t
      ensures Live(ts', neis[k]) && PairLinked(g, ts0, ts', t, neis[k], side, back)
    {
      PairStays(g, ts0, ts, ts', t, neis[k], side, back);
    }
  }

  /** All tiles at a position, other than `t`, are linked with `t`. */
  ghost predicate PositionLinked(g: Geometry, ts0: seq<Tile>, ts: seq<Tile>, t: nat, x: int, y: int, side: int,
                                 back: int)
    requires LinksOk(ts0) && LinksOk(ts) && OthersSame(ts0, ts, t) && Live(ts, t)
  {
    forall n: nat :: n != t && IsAt(ts, n, x, y) ==> PairLinked(g, ts0, ts, t, n, side, back)
  }

  lemma PositionStays(g: Geometry, ts0: seq<Tile>, ts: seq<Tile>, ts': seq<Tile>, t: nat,
                      x: int, y: int, side: int, back: int)
    requires LinksOk(ts0) && LinksOk(ts) && LinksOk(ts') && SameTiles(ts0, ts) && SameTiles(ts, ts')
    requires HasMore(ts, ts') && Live(ts, t) && FreeLinks(ts', t) <= FreeLinks(ts, t)
    requires PositionLinked(g, ts0, ts, t, x, y, side, back)
    ensures PositionLinked(g, ts0, ts', t, x, y, side, back)
  {
    hide LinksOk, HasMore, FreeLinks, PairLinked;
    forall n: nat | n != t && IsAt(ts', n, x, y)
      ensures PairLinked(g, ts0, ts', t, n, side, back)
    {
      assert IsAt(ts, n, x, y);
      PairStays(g, ts0, ts, ts', t, n, side, back);
    }
  }

  /** The tiles at the first `n` of the eight positions around `t` are linked with it. */
  ghost predicate PositionsLinked(g: Geometry, ts0: seq<Tile>, ts: seq<Tile>, t: nat, n: nat)
    requires LinksOk(ts0) && LinksOk(ts) && OthersSame(ts0, ts, t) && Live(ts, t)
  {
    var h := ts[t].header.value;
    forall i :: 0 <= i < n ==>
      PositionLinked(g, ts0, ts, t, Neighbour(h.x, h.y, i).0, Neighbour(h.x, h.y, i).1, i, OppositeTile(i))
  }

  lemma PositionsNone(g: Geometry, ts0: seq<Tile>, ts: seq<Tile>, t: nat)
    requires LinksOk(ts0) && LinksOk(ts) && SameTiles(ts0, ts) && Live(ts, t)
    ensures PositionsLinked(g, ts0, ts, t, 0)
  {
  }

  /** One more position, after links were added. */
  lemma PositionsStay(g: Geometry, ts0: seq<Tile>, ts: seq<Tile>, ts': seq<Tile>, t: nat, n: nat)
    requires LinksOk(ts0) && LinksOk(ts) && LinksOk(ts') && SameTiles(ts0, ts) && SameTiles(ts, ts')
    requires HasMore(ts, ts') && Live(ts, t) && FreeLinks(ts', t) <= FreeLinks(ts, t)
    requires PositionsLinked(g, ts0, ts, t, n)
    requires var h := ts[t].header.value;
      PositionLinked(g, ts0, ts', t, Neighbour(h.x, h.y, n).0, Neighbour(h.x, h.y, n).1, n, OppositeTile(n))
    ensures PositionsLinked(g, ts0, ts', t, n + 1)
  {
    hide LinksOk, HasMore, FreeLinks, PositionLinked, Neighbour;
    var h := ts[t].header.value;
    forall i | 0 <= i < n
      ensures PositionLinked(g, ts0, ts', t, Neighbour(h.x, h.y, i).0, Neighbour(h.x, h.y, i).1, i, OppositeTile(i))
    {
      PositionStays(g, ts0, ts, ts', t, Neighbour(h.x, h.y, i).0, Neighbour(h.x, h.y, i).1, i, OppositeTile(i));
    }
  }

  /** `b` lies on the given side of `a`, and `a` on side `back` of `b`; -1 stands for the same position. */
  predicate Around(a: Header, b: Header, side: int, back: int) {
    -1 <= side < 8 && -1 <= back < 8 && LiesOn(a, b, SideByte(side)) && LiesOn(b, a, SideByte(back))
  }

  /** Tiles at the position of `t` (side -1) or at one of the eight around it lie as their side says. */
  lemma NearPosition(ts: seq<Tile>, t: nat, side: int)
    requires Live(ts, t) && -1 <= side < 8
    ensures var h := ts[t].header.value;
      var at := if side == -1 then (h.x, h.y) else Neighbour(h.x, h.y, side);
      var back := if side == -1 then -1 else OppositeTile(side) as int;
      -1 <= back < 8 && forall n :: IsAt(ts, n, at.0, at.1) ==> Around(h, ts[n].header.value, side, back)
  {
    if side != -1 {
      var h := ts[t].header.value;
      var (x, y) := Neighbour(h.x, h.y, side);
      NeighbourIsToward(h.x, h.y, side, x, y);
      NeighbourIsToward(x, y, OppositeTile(side), h.x, h.y);
    }
  }

  /** Growing keeps the links inside a tile. */
  lemma InsideStays(g: Geometry, ts1: seq<Tile>, ts: seq<Tile>, ts': seq<Tile>, t: nat)
    requires LinksOk(ts1) && LinksOk(ts) && LinksOk(ts') && SameTiles(ts1, ts) && Grown(ts, ts', Touching(g, t))
    requires Live(ts1, t) && InnerLinked(ts1, ts, t) && OwnLandingsLinked(g, ts, t, t, -1)
    ensures InnerLinked(ts1, ts', t) && OwnLandingsLinked(g, ts', t, t, -1)
  {
    assert SameTiles(ts, ts');
    hide LinksOk, InnerLinked, OwnLandingsLinked, Grown, HasMore, FreeLinks;
    InnerStays(ts1, ts, ts', t, Touching(g, t));
    GrownHasMore(ts, ts', Touching(g, t));
    FreeLess(ts, ts', Touching(g, t), t);
    OwnLandingsStay(g, ts, ts', t, t, -1);
  }

  /** The tile in slot `t` is linked inside and with all tiles at its position and around it. */
  ghost predicate TileLinked(g: Geometry, ts0: seq<Tile>, ts: seq<Tile>, t: nat)
    requires LinksOk(ts0) && LinksOk(ts) && OthersSame(ts0, ts, t) && Live(ts, t)
  {
    var h := ts[t].header.value;
    && BasesLinked(g, ts, t, |h.offMeshCons|) && OwnLandingsLinked(g, ts, t, t, -1)
    && PositionLinked(g, ts0, ts, t, h.x, h.y, -1, -1) && PositionsLinked(g, ts0, ts, t, 8)
  }

  /** All this holds as well measured against the state before the tile had its slot. */
  lemma LinkedSince(g: Geometry, ts0: seq<Tile>, ts1: seq<Tile>, ts: seq<Tile>, t: nat)
    requires LinksOk(ts0) && LinksOk(ts1) && LinksOk(ts) && SameTiles(ts1, ts) && OthersSame(ts0, ts1, t) && Live(ts, t)
    requires forall i, p :: i != t && Live(ts0, i) && 0 <= p < |ts0[i].header.value.polys| ==>
      LinksIn(ts1, i, p) == LinksIn(ts0, i, p)
    requires TileLinked(g, ts1, ts, t)
    ensures TileLinked(g, ts0, ts, t)
  {
    hide LinksOk, LinksIn, PortalsLinked, OwnLandingsLinked, BasesLinked, LandingLinked, Neighbour;
    var h := ts[t].header.value;
    PositionSince(g, ts0, ts1, ts, t, h.x, h.y, -1, -1);
    forall i | 0 <= i < 8
      ensures PositionLinked(g, ts0, ts, t, Neighbour(h.x, h.y, i).0, Neighbour(h.x, h.y, i).1, i, OppositeTile(i))
    {
      PositionSince(g, ts0, ts1, ts, t, Neighbour(h.x, h.y, i).0, Neighbour(h.x, h.y, i).1, i, OppositeTile(i));
    }
  }

  lemma PositionSince(g: Geometry, ts0: seq<Tile>, ts1: seq<Tile>, ts: seq<Tile>, t: nat,
                      x: int, y: int, side: int, back: int)
    requires LinksOk(ts0) && LinksOk(ts1) && LinksOk(ts) && SameTiles(ts1, ts) && OthersSame(ts0, ts1, t) && Live(ts, t)
    requires forall i, p :: i != t && Live(ts0, i) && 0 <= p < |ts0[i].header.value.polys| ==>
      LinksIn(ts1, i, p) == LinksIn(ts0, i, p)
    requires PositionLinked(g, ts1, ts, t, x, y, side, back)
    ensures PositionLinked(g, ts0, ts, t, x, y, side, back)
  {
    hide LinksOk, LinksIn, PortalsLinked, OwnLandingsLinked, LandingLinked;
    forall n: nat | n != t && IsAt(ts, n, x, y)
      ensures PairLinked(g, ts0, ts, t, n, side, back)
    {
      assert PairLinked(g, ts1, ts, t, n, side, back);
    }
  }

  // ----- Told by coordinates -----

  /** Edge `j` of polygon `p` is a portal on the given side. */
  predicate PortalEdge(h: Header, p: nat, j: nat, side: nat) {
    p < |h.polys| && j < |h.polys[p].neis| && h.polys[p].neis[j] == 0x8000 + side
  }

  /** Edge `j` of polygon `p` touches a portal of polygon `q` of `other` on the given side. */
  ghost predicate TouchesPoly(g: Geometry, h: Header, p: nat, j: nat, other: Header, side: nat, q: nat) {
    exists e: nat :: PortalEdge(other, q, e, side) && g.touches(h, p, j, other, q, e)
  }

  /** The polygons of `other` before `q` that edge `j` of polygon `p` touches as well. */
  ghost function Earlier(g: Geometry, h: Header, p: nat, j: nat, other: Header, side: nat, q: nat): set<nat> {
    set i: nat | i < q && TouchesPoly(g, h, p, j, other, side, i)
  }

  lemma TouchesConnects(g: Geometry, h: Header, p: nat, j: nat, other: Header, side: nat, q: nat)
    requires q < |other.polys|
    ensures TouchesPoly(g, h, p, j, other, side, q) <==> Connects(g, h, p, j, other, side, q)
  {
    if Connects(g, h, p, j, other, side, q) {
      var e :| 0 <= e < |other.polys[q].neis| && other.polys[q].neis[e] == DT_EXT_LINK + side &&
        g.touches(h, p, j, other, q, e);
      assert PortalEdge(other, q, e, side);
    }
  }

  lemma EarlierSnoc(g: Geometry, h: Header, p: nat, j: nat, other: Header, side: nat, n: nat)
    ensures Earlier(g, h, p, j, other, side, n + 1) ==
      Earlier(g, h, p, j, other, side, n) + if TouchesPoly(g, h, p, j, other, side, n) then {n} else {}
  {
    hide TouchesPoly;
  }

  lemma {:induction false} AmongEarlier(g: Geometry, h: Header, p: nat, j: nat, other: Header, side: nat, n: nat)
    requires n <= |other.polys|
    ensures |ConnectingAmong(g, h, p, j, other, side, n)| == |Earlier(g, h, p, j, other, side, n)|
  {
    if n == 0 {
      assert Earlier(g, h, p, j, other, side, n) == {};
    } else {
      AmongEarlier(g, h, p, j, other, side, n - 1);
      TouchesConnects(g, h, p, j, other, side, n - 1);
      EarlierSnoc(g, h, p, j, other, side, n - 1);
      hide TouchesPoly, Connects;
      assert n - 1 !in Earlier(g, h, p, j, other, side, n - 1);
      hide Earlier;
    }
  }

  lemma {:induction false} AmongAt(g: Geometry, h: Header, p: nat, j: nat, other: Header, side: nat, q: nat, n: nat)
    requires q < n <= |other.polys| && Connects(g, h, p, j, other, side, q)
    ensures var before, con := ConnectingAmong(g, h, p, j, other, side, q), ConnectingAmong(g, h, p, j, other, side, n);
      |before| < |con| && con[|before|] == q
    decreases n
  {
    if q < n - 1 {
      AmongAt(g, h, p, j, other, side, q, n - 1);
    }
  }

  predicate Ascends(con: seq<nat>) {
    forall i, k :: 0 <= i < k < |con| ==> con[i] < con[k]
  }

  lemma {:induction false} AmongAscends(g: Geometry, h: Header, p: nat, j: nat, other: Header, side: nat, n: nat)
    requires n <= |other.polys|
    ensures Ascends(ConnectingAmong(g, h, p, j, other, side, n))
  {
    hide Connects;
    if n > 0 {
      AmongAscends(g, h, p, j, other, side, n - 1);
      var con := ConnectingAmong(g, h, p, j, other, side, n - 1);
      assert Ascends(con) && Ascends(con + [n - 1]);
    }
  }

  /** A portal edge is linked with exactly the polygons it touches that have fewer than four of these before them. */
  lemma ConnectingIff(g: Geometry, h: Header, p: nat, j: nat, other: Header, side: nat, q: nat)
    ensures q in Connecting(g, h, p, j, other, side) <==>
      TouchesPoly(g, h, p, j, other, side, q) && |Earlier(g, h, p, j, other, side, q)| < 4
  {
    if q < |other.polys| && TouchesPoly(g, h, p, j, other, side, q) {
      TouchesConnects(g, h, p, j, other, side, q);
      AmongEarlier(g, h, p, j, other, side, q);
      AmongAt(g, h, p, j, other, side, q, |other.polys|);
      AmongAscends(g, h, p, j, other, side, |other.polys|);
      var con, k := ConnectingAmong(g, h, p, j, other, side, |other.polys|),
        |ConnectingAmong(g, h, p, j, other, side, q)|;
      hide ConnectingAmong, Earlier, Connects;
      if k < 4 {
        assert Take(con, MAX_CON)[k] == q;
      }
    } else if q in Connecting(g, h, p, j, other, side) {
      TouchesConnects(g, h, p, j, other, side, q);
      assert false;
    }
  }

  /** The portal edges of tile `t` on side `here` are linked with the polygons of tile `n` whose edges on side `there`
      they touch, the first four of them. */
  ghost predicate Joined(g: Geometry, ts: seq<Tile>, t: nat, n: nat, here: nat, there: nat)
    requires Live(ts, t) && Live(ts, n)
  {
    var h, other := ts[t].header.value, ts[n].header.value;
    forall p, j, q, e ::
      PortalEdge(h, p, j, here) && PortalEdge(other, q, e, there) && g.touches(h, p, j, other, q, e) &&
      |Earlier(g, h, p, j, other, there, q)| < 4 ==>
        Has(ts, t, p, Link(PolyRef(ts[n].salt, n, q), j, here))
  }

  /** Connection `c` of tile `from` is on the given side and lands in `to`. */
  predicate LandsFrom(g: Geometry, from: Header, to: Header, c: nat, side: nat) {
    c < |from.offMeshCons| && from.offMeshCons[c].side == side && g.nearest(from, c, true, to).Some?
  }

  /** Connection `c` of tile `n`, on its side `there`, is linked with the polygon of tile `t` it lands on, and back
      if it runs both ways. */
  ghost predicate Crosses(g: Geometry, ts: seq<Tile>, t: nat, n: nat, c: nat, here: nat, there: nat)
    requires Live(ts, t) && Live(ts, n) && LandsFrom(g, ts[n].header.value, ts[t].header.value, c, there)
  {
    var con := ts[n].header.value.offMeshCons[c];
    var ip := g.nearest(ts[n].header.value, c, true, ts[t].header.value).value;
    && Has(ts, n, con.poly, Link(PolyRef(ts[t].salt, t, ip), 1, there))
    && (con.bidir ==> Has(ts, t, ip, Link(PolyRef(ts[n].salt, n, con.poly), 0xff, here)))
  }

  /** Connections of `n` on side `there` that land in `t` and had links in `ts0`, and connections of `t` on side `here`
      that land in `n` and start on a polygon, while `t` has link cells. */
  ghost predicate Crossed(g: Geometry, ts0: seq<Tile>, ts: seq<Tile>, t: nat, n: nat, here: nat, there: nat)
    requires LinksOk(ts0) && LinksOk(ts) && Live(ts, t) && Live(ts, n) && Live(ts0, n) && ts0[n].header == ts[n].header
  {
    var h, other := ts[t].header.value, ts[n].header.value;
    && (forall c: nat :: LandsFrom(g, other, h, c, there) && Started(ts0, n, c) ==>
         Crosses(g, ts, t, n, c, here, there))
    && (FreeLinks(ts, t) > 0 ==> forall c: nat :: LandsFrom(g, h, other, c, here) && g.nearest(h, c, false, h).Some? ==>
         Crosses(g, ts, n, t, c, there, here))
  }

  /** Sides that face each other: those of tiles side by side, and opposite ones of two layers. */
  predicate Facing(h: Header, other: Header, here: nat, there: nat) {
    || (Toward(other.x - h.x, other.y - h.y, here) && Toward(h.x - other.x, h.y - other.y, there))
    || (SamePosition(h, other) && here < 8 && there < 8 && (here - there == 4 || there - here == 4))
  }

  /** `other` lies on side `here` of `h` and `h` on side `there` of `other`. */
  predicate LieOn(h: Header, other: Header, here: nat, there: nat) {
    LiesOn(h, other, here) && LiesOn(other, h, there)
  }

  /** Tile `t` is linked with the tiles around it and the layers at its position, both ways: each portal with those
      that face it and touch, each connection with what it lands on. */
  ghost predicate LinkedAround(g: Geometry, ts0: seq<Tile>, ts: seq<Tile>, t: nat)
    requires LinksOk(ts0) && LinksOk(ts) && OthersSame(ts0, ts, t) && Live(ts, t)
  {
    && (forall n: nat, here, there ::
          n != t && Live(ts, n) && Facing(ts[t].header.value, ts[n].header.value, here, there) ==>
            Joined(g, ts, t, n, here, there) && Joined(g, ts, n, t, there, here))
    && forall n: nat, here, there ::
         n != t && Live(ts, n) && LieOn(ts[t].header.value, ts[n].header.value, here, there) ==>
           Crossed(g, ts0, ts, t, n, here, there)
  }

  lemma PortalsJoin(g: Geometry, ts: seq<Tile>, t: nat, n: nat, side: int, here: nat, there: nat)
    requires Live(ts, t) && Live(ts, n) && PortalsLinked(g, ts, t, n, side, |ts[t].header.value.polys|)
    requires here < 8 && there == OppositeTile(here) && (side == -1 || side == here)
    ensures Joined(g, ts, t, n, here, there)
  {
    hide Has, Earlier, Connecting, PortalsLinked, EdgesLinked;
    var h, other := ts[t].header.value, ts[n].header.value;
    forall p, j, q, e |
      PortalEdge(h, p, j, here) && PortalEdge(other, q, e, there) && g.touches(h, p, j, other, q, e) &&
      |Earlier(g, h, p, j, other, there, q)| < 4
      ensures Has(ts, t, p, Link(PolyRef(ts[n].salt, n, q), j, here))
    {
      ConnectingIff(g, h, p, j, other, there, q);
      EdgeOfPortals(g, ts, t, n, side, p, j);
    }
  }

  lemma EdgeOfPortals(g: Geometry, ts: seq<Tile>, t: nat, n: nat, side: int, p: nat, j: nat)
    requires Live(ts, t) && Live(ts, n) && PortalsLinked(g, ts, t, n, side, |ts[t].header.value.polys|)
    requires p < |ts[t].header.value.polys| && j < |ts[t].header.value.polys[p].neis|
    requires PortalOn(ts[t].header.value.polys[p].neis[j], side)
    ensures forall q :: q in PortalCon(g, ts[t].header.value, p, j, ts[n].header.value) ==>
      Has(ts, t, p, Link(PolyRef(ts[n].salt, n, q), j, ts[t].header.value.polys[p].neis[j] % 0x100))
  {
    hide Has, ConnectingAmong;
    assert EdgesLinked(g, ts, t, n, side, p, |ts[t].header.value.polys[p].neis|);
    assert EdgeLinked(g, ts, t, n, p, j, MAX_CON);
    var con := PortalCon(g, ts[t].header.value, p, j, ts[n].header.value);
    forall q | q in con
      ensures Has(ts, t, p, Link(PolyRef(ts[n].salt, n, q), j, ts[t].header.value.polys[p].neis[j] % 0x100))
    {
      var k :| 0 <= k < |con| && con[k] == q;
    }
  }

  /** The side on which a tile was linked, told by how the tiles lie. */
  lemma PairAt(g: Geometry, ts0: seq<Tile>, ts: seq<Tile>, t: nat, n: nat) returns (side: int, back: int)
    requires LinksOk(ts0) && LinksOk(ts) && OthersSame(ts0, ts, t) && Live(ts, t) && Live(ts, n) && n != t
    requires Near(ts[t].header.value, ts[n].header.value) && TileLinked(g, ts0, ts, t)
    ensures Around(ts[t].header.value, ts[n].header.value, side, back) && PairLinked(g, ts0, ts, t, n, side, back)
    ensures side >= 0 ==> back == OppositeTile(side)
    ensures side == -1 ==> back == -1
  {
    hide LinksOk, PairLinked, BasesLinked, OwnLandingsLinked, Neighbour, Toward;
    var h, other := ts[t].header.value, ts[n].header.value;
    if SamePosition(h, other) {
      side, back := -1, -1;
      assert IsAt(ts, n, h.x, h.y);
    } else {
      NearIsNeighbour(h, other);
      side :| 0 <= side < 8 && Neighbour(h.x, h.y, side) == (other.x, other.y);
      back := OppositeTile(side);
      NeighbourIsToward(h.x, h.y, side, other.x, other.y);
      NeighbourIsToward(other.x, other.y, back, h.x, h.y);
      assert PositionLinked(g, ts0, ts, t, Neighbour(h.x, h.y, side).0, Neighbour(h.x, h.y, side).1, side,
                            OppositeTile(side));
      assert IsAt(ts, n, other.x, other.y);
    }
  }

  lemma PairJoins(g: Geometry, ts0: seq<Tile>, ts: seq<Tile>, t: nat, n: nat, here: nat, there: nat)
    requires LinksOk(ts0) && LinksOk(ts) && OthersSame(ts0, ts, t) && Live(ts, t) && Live(ts, n) && n != t
    requires TileLinked(g, ts0, ts, t) && Facing(ts[t].header.value, ts[n].header.value, here, there)
    ensures Joined(g, ts, t, n, here, there) && Joined(g, ts, n, t, there, here)
  {
    hide LinksOk, TileLinked, PortalsLinked, LandingsLinked, OwnLandingsLinked, Joined;
    var side, back := PairAt(g, ts0, ts, t, n);
    PortalsJoin(g, ts, t, n, side, here, there);
    PortalsJoin(g, ts, n, t, back, there, here);
  }

  lemma PairCrosses(g: Geometry, ts0: seq<Tile>, ts: seq<Tile>, t: nat, n: nat, here: nat, there: nat)
    requires LinksOk(ts0) && LinksOk(ts) && OthersSame(ts0, ts, t) && Live(ts, t) && Live(ts, n) && n != t
    requires TileLinked(g, ts0, ts, t) && LieOn(ts[t].header.value, ts[n].header.value, here, there)
    ensures Crossed(g, ts0, ts, t, n, here, there)
  {
    hide LinksOk, TileLinked, PortalsLinked, Has, Started, FreeLinks;
    var side, back := PairAt(g, ts0, ts, t, n);
    var h, other := ts[t].header.value, ts[n].header.value;
    assert here == SideByte(side) && there == LandingSide(side) && there == SideByte(back) && here == LandingSide(back);
    forall c: nat | LandsFrom(g, other, h, c, there) && Started(ts0, n, c)
      ensures Crosses(g, ts, t, n, c, here, there)
    {
      assert Lands(g, h, other, c, side) && LandingLinked(g, ts, t, n, c, side);
    }
    forall c: nat | FreeLinks(ts, t) > 0 && LandsFrom(g, h, other, c, here) && g.nearest(h, c, false, h).Some?
      ensures Crosses(g, ts, n, t, c, there, here)
    {
      assert Lands(g, other, h, c, back) && LandingLinked(g, ts, n, t, c, back);
    }
  }

  /** A tile linked at the eight neighbour positions is linked with whatever lies around it. */
  lemma LinkedIsAround(g: Geometry, ts0: seq<Tile>, ts: seq<Tile>, t: nat)
    requires LinksOk(ts0) && LinksOk(ts) && OthersSame(ts0, ts, t) && Live(ts, t)
    requires TileLinked(g, ts0, ts, t)
    ensures LinkedAround(g, ts0, ts, t)
  {
    hide LinksOk, TileLinked, Joined, Crossed, Facing, LieOn;
    forall n: nat, here, there |
      n != t && Live(ts, n) && Facing(ts[t].header.value, ts[n].header.value, here, there)
      ensures Joined(g, ts, t, n, here, there) && Joined(g, ts, n, t, there, here)
    {
      PairJoins(g, ts0, ts, t, n, here, there);
    }
    forall n: nat, here, there |
      n != t && Live(ts, n) && LieOn(ts[t].header.value, ts[n].header.value, here, there)
      ensures Crossed(g, ts0, ts, t, n, here, there)
    {
      PairCrosses(g, ts0, ts, t, n, here, there);
    }
  }
}
