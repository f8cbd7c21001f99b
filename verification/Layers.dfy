/** rcBuildHeightfieldLayers from the region samples of the columns to compact layer ids. */
module Layers {
  import opened Basics
  import opened LayersModel

  const MAX_STACK := 64
  const NO_REGION := 0xff

  /** A span of a column: its region, its height, and the regions of the spans it is connected to. */
  datatype Sample = Sample(region: nat, y: nat, neis: seq<nat>)

  /** Different regions of `n`. */
  predicate ListOk(l: seq<nat>, n: nat) {
    Distinct(l) && forall k :: 0 <= k < |l| ==> l[k] < n
  }

  predicate ListsOk(rs: seq<Region>) {
    forall a :: 0 <= a < |rs| ==> ListOk(rs[a].layers, |rs|)
  }

  method AddUnique(a: seq<nat>, anMax: nat, v: nat) returns (r: seq<nat>, ok: bool)
    ensures ok ==> forall x :: x in r <==> x in a || x == v
    ensures Distinct(a) ==> Distinct(r)
    ensures !ok ==> r == a && v !in a && |a| >= anMax
    ensures |a| <= |r| <= Max(|a|, anMax)
  {
    if v in a {
      return a, true;
    }
    if |a| >= anMax {
      return a, false;
    }
    r, ok := a + [v], true;
  }

  /** Add a region to an overlap list; among at most 63 regions there is always room. */
  method AddLayer(a: seq<nat>, v: nat, ghost n: nat) returns (r: seq<nat>, ok: bool)
    requires ListOk(a, n) && v < n
    ensures ok ==> forall x :: x in r <==> x in a || x == v
    ensures ListOk(r, n) && (n <= RC_MAX_LAYERS ==> ok)
  {
    r, ok := AddUnique(a, RC_MAX_LAYERS, v);
    if ok {
      forall k | 0 <= k < |r|
        ensures r[k] < n
      {
        assert r[k] in r;
      }
    } else {
      DistinctBound(a + [v], n);
    }
  }

  /** Add all of `b`; false if there is no room. */
  method AddAll(a: seq<nat>, b: seq<nat>, ghost n: nat) returns (r: seq<nat>, ok: bool)
    requires ListOk(a, n) && ListOk(b, n)
    ensures ok ==> forall x :: x in r <==> x in a || x in b
    ensures ListOk(r, n) && (n <= RC_MAX_LAYERS ==> ok)
  {
    r, ok := a, true;
    for k := 0 to |b|
      invariant ListOk(r, n) && forall x :: x in r <==> x in a || x in b[..k]
    {
      r, ok := AddLayer(r, b[k], n);
      if !ok {
        return;
      }
    }
  }

  // ----- Overlaps -----

  /** The regions of a column's spans, without spans that have none. */
  function Assigned(col: seq<Sample>): (l: seq<nat>)
  {
    if col == [] then []
    else
      var l := Assigned(col[..|col| - 1]);
      if col[|col| - 1].region == NO_REGION then l else l + [col[|col| - 1].region]
  }

  /** The regions whose overlaps a column records: at most the first 63. */
  function Recorded(col: seq<Sample>): seq<nat> {
    Take(Assigned(col), RC_MAX_LAYERS)
  }

  /** Two regions are recorded together in one of the first `n` columns. */
  predicate Together(columns: seq<seq<Sample>>, n: nat, r: nat, s: nat) {
    exists c :: 0 <= c < n && c < |columns| && r in Recorded(columns[c]) && s in Recorded(columns[c])
  }

  /** Some pair of places of `l` before `(i, j)` has the two regions. */
  predicate Paired(l: seq<nat>, i: nat, j: nat, r: nat, s: nat) {
    exists a, b ::
      0 <= a < b < |l| && (a < i || (a == i && b < j)) && ((l[a] == r && l[b] == s) || (l[a] == s && l[b] == r))
  }

  lemma PairedNext(l: seq<nat>, i: nat, j: nat, r: nat, s: nat)
    requires i < j < |l|
    ensures Paired(l, i, j + 1, r, s) <==> Paired(l, i, j, r, s) || (l[i] == r && l[j] == s) || (l[i] == s && l[j] == r)
  {
    if Paired(l, i, j + 1, r, s) && !Paired(l, i, j, r, s) {
      var a, b :| 0 <= a < b < |l| && (a < i || (a == i && b < j + 1)) &&
        ((l[a] == r && l[b] == s) || (l[a] == s && l[b] == r));
      assert a == i && b == j;
    }
    if Paired(l, i, j, r, s) {
      var a, b :| 0 <= a < b < |l| && (a < i || (a == i && b < j)) &&
        ((l[a] == r && l[b] == s) || (l[a] == s && l[b] == r));
      assert a < i || (a == i && b < j + 1);
    }
  }

  lemma PairedRow(l: seq<nat>, i: nat, r: nat, s: nat)
    requires i < |l|
    ensures Paired(l, i, |l|, r, s) <==> Paired(l, i + 1, i + 2, r, s)
  {
    if Paired(l, i, |l|, r, s) {
      var a, b :| 0 <= a < b < |l| && (a < i || (a == i && b < |l|)) &&
        ((l[a] == r && l[b] == s) || (l[a] == s && l[b] == r));
      assert a < i + 1;
    }
    if Paired(l, i + 1, i + 2, r, s) {
      var a, b :| 0 <= a < b < |l| && (a < i + 1 || (a == i + 1 && b < i + 2)) &&
        ((l[a] == r && l[b] == s) || (l[a] == s && l[b] == r));
      assert a < i || (a == i && b < |l|);
    }
  }

  lemma PairedAll(l: seq<nat>, n: nat, r: nat, s: nat)
    requires r != s && n >= |l|
    ensures Paired(l, n, n + 1, r, s) <==> r in l && s in l
  {
    if r in l && s in l {
      var a :| 0 <= a < |l| && l[a] == r;
      var b :| 0 <= b < |l| && l[b] == s;
      assert a < n && b < n && a != b;
    }
  }

  /** Only the overlaps of the regions differ. */
  ghost predicate OnlyLayers(rs: seq<Region>, rs': seq<Region>) {
    |rs'| == |rs| && forall r :: 0 <= r < |rs| ==> rs'[r] == rs[r].(layers := rs'[r].layers)
  }

  /** The two regions have each other added to their overlaps. */
  ghost predicate PairAdded(rs: seq<Region>, rs': seq<Region>, r: nat, s: nat) {
    && |rs'| == |rs|
    && forall u: nat :: u < |rs| ==> forall v: nat ::
      v in rs'[u].layers <==> v in rs[u].layers || (u == r && v == s) || (u == s && v == r)
  }

  /** Record that two regions overlap. */
  method AddPair(regs: array<Region>, r: nat, s: nat) returns (ok: bool)
    requires r < regs.Length && s < regs.Length && r != s && ListsOk(regs[..])
    modifies regs
    ensures OnlyLayers(old(regs[..]), regs[..]) && ListsOk(regs[..])
    ensures ok ==> PairAdded(old(regs[..]), regs[..], r, s)
    ensures regs.Length <= RC_MAX_LAYERS ==> ok
  {
    hide ListOk;
    assert ListOk(regs[..][r].layers, regs.Length) && ListOk(regs[..][s].layers, regs.Length);
    var layers;
    layers, ok := AddLayer(regs[r].layers, s, regs.Length);
    regs[r] := regs[r].(layers := layers);
    if ok {
      layers, ok := AddLayer(regs[s].layers, r, regs.Length);
      regs[s] := regs[s].(layers := layers);
    }
  }

  /** Every region of `l` has all others added to its overlaps. */
  ghost predicate Overlaid(rs: seq<Region>, rs': seq<Region>, l: seq<nat>) {
    |rs'| == |rs| && forall r: nat :: r < |rs| ==> RowOverlaid(rs[r].layers, rs'[r].layers, l, r)
  }

  ghost predicate RowOverlaid(a: seq<nat>, b: seq<nat>, l: seq<nat>, r: nat) {
    forall s: nat :: s in b <==> s in a || (r != s && r in l && s in l)
  }

  /** The same for the pairs of places before `(i, j)`. */
  ghost predicate PartlyOverlaid(rs: seq<Region>, rs': seq<Region>, l: seq<nat>, i: nat, j: nat) {
    |rs'| == |rs| && forall r: nat :: r < |rs| ==> RowPaired(rs[r].layers, rs'[r].layers, l, i, j, r)
  }

  ghost predicate RowPaired(a: seq<nat>, b: seq<nat>, l: seq<nat>, i: nat, j: nat, r: nat) {
    forall s: nat :: s in b <==> s in a || (r != s && Paired(l, i, j, r, s))
  }

  lemma OverlayStart(rs: seq<Region>, l: seq<nat>)
    ensures PartlyOverlaid(rs, rs, l, 0, 1)
  {
  }

  lemma OverlayNext(rs: seq<Region>, rs1: seq<Region>, rs2: seq<Region>, l: seq<nat>, i: nat, j: nat)
    requires PartlyOverlaid(rs, rs1, l, i, j) && i < j < |l|
    requires if l[i] != l[j] then PairAdded(rs1, rs2, l[i], l[j]) else rs2 == rs1
    ensures PartlyOverlaid(rs, rs2, l, i, j + 1)
  {
    hide Paired;
    forall r: nat | r < |rs|
      ensures RowPaired(rs[r].layers, rs2[r].layers, l, i, j + 1, r)
    {
      assert RowPaired(rs[r].layers, rs1[r].layers, l, i, j, r);
      forall s: nat {
        PairedNext(l, i, j, r, s);
      }
    }
  }

  lemma OverlayRow(rs: seq<Region>, rs': seq<Region>, l: seq<nat>, i: nat)
    requires PartlyOverlaid(rs, rs', l, i, |l|) && i < |l|
    ensures PartlyOverlaid(rs, rs', l, i + 1, i + 2)
  {
    hide Paired;
    forall r: nat | r < |rs|
      ensures RowPaired(rs[r].layers, rs'[r].layers, l, i + 1, i + 2, r)
    {
      assert RowPaired(rs[r].layers, rs'[r].layers, l, i, |l|, r);
      forall s: nat {
        PairedRow(l, i, r, s);
      }
    }
  }

  lemma OverlayAll(rs: seq<Region>, rs': seq<Region>, l: seq<nat>)
    requires PartlyOverlaid(rs, rs', l, |l|, |l| + 1)
    ensures Overlaid(rs, rs', l)
  {
    hide Paired;
    forall r: nat | r < |rs|
      ensures RowOverlaid(rs[r].layers, rs'[r].layers, l, r)
    {
      assert RowPaired(rs[r].layers, rs'[r].layers, l, |l|, |l| + 1, r);
      forall s: nat
        ensures s in rs'[r].layers <==> s in rs[r].layers || (r != s && r in l && s in l)
      {
        if r != s {
          PairedAll(l, |l|, r, s);
        }
      }
    }
  }

  /** The overlapping regions of one column. */
  method UpdateOverlaps(l: seq<nat>, regs: array<Region>) returns (ok: bool)
    requires ListsOk(regs[..]) && forall k :: 0 <= k < |l| ==> l[k] < regs.Length
    modifies regs
    ensures OnlyLayers(old(regs[..]), regs[..]) && ListsOk(regs[..]) && (regs.Length <= RC_MAX_LAYERS ==> ok)
    ensures ok ==> Overlaid(old(regs[..]), regs[..], l)
  {
    hide PartlyOverlaid, PairAdded, Overlaid, ListsOk;
    ghost var rs := regs[..];
    ok := true;
    OverlayStart(rs, l);
    for i := 0 to |l|
      invariant ListsOk(regs[..]) && OnlyLayers(rs, regs[..]) && PartlyOverlaid(rs, regs[..], l, i, i + 1)
    {
      for j := i + 1 to |l|
        invariant ListsOk(regs[..]) && OnlyLayers(rs, regs[..]) && PartlyOverlaid(rs, regs[..], l, i, j)
      {
        ghost var before := regs[..];
        if l[i] != l[j] {
          ok := AddPair(regs, l[i], l[j]);
          if !ok {
            return;
          }
        }
        OverlayNext(rs, before, regs[..], l, i, j);
      }
      OverlayRow(rs, regs[..], l, i);
    }
    OverlayAll(rs, regs[..], l);
  }

  predicate SampleOk(s: Sample, nregs: nat) {
    && (s.region == NO_REGION || s.region < nregs)
    && forall k :: 0 <= k < |s.neis| ==> s.neis[k] == NO_REGION || s.neis[k] < nregs
  }

  predicate ColumnOk(col: seq<Sample>, nregs: nat) {
    forall k :: 0 <= k < |col| ==> SampleOk(col[k], nregs)
  }

  predicate NeisOk(rs: seq<Region>) {
    forall r :: 0 <= r < |rs| ==> forall k :: 0 <= k < |rs[r].neis| ==> rs[r].neis[k] < |rs|
  }

  /** The sample's height is within that of its region. */
  predicate HeightOk(rs: seq<Region>, s: Sample) {
    s.region < |rs| ==> rs[s.region].ymin <= s.y <= rs[s.region].ymax
  }

  predicate HeightsOk(rs: seq<Region>, col: seq<Sample>) {
    forall k :: 0 <= k < |col| ==> HeightOk(rs, col[k])
  }

  /** Only heights, which grow apart, and neighbours differ. */
  predicate Widened(rs: seq<Region>, rs': seq<Region>) {
    && |rs'| == |rs|
    && forall r :: 0 <= r < |rs| ==>
      && rs'[r].layers == rs[r].layers && rs'[r].layerId == rs[r].layerId && rs'[r].base == rs[r].base
      && rs'[r].ymin <= rs[r].ymin && rs[r].ymax <= rs'[r].ymax
  }

  lemma AssignedNext(col: seq<Sample>, i: nat)
    requires i < |col|
    ensures Assigned(col[..i + 1]) ==
      if col[i].region == NO_REGION then Assigned(col[..i]) else Assigned(col[..i]) + [col[i].region]
  {
    assert col[..i + 1][..i] == col[..i];
  }

  // ----- What the samples say of a region -----

  /** The sample is connected to another region `x`. */
  predicate Adjoins(s: Sample, x: nat) {
    x in s.neis && x != NO_REGION && x != s.region
  }

  /** A region's heights are the least and the greatest of its samples, as far as 16 bits hold them. */
  ghost predicate HeightsExact(read: seq<Sample>, r: Region, id: nat) {
    && (forall s :: s in read && s.region == id ==> r.ymin <= s.y <= r.ymax)
    && (r.ymin == 0xffff || exists s :: s in read && s.region == id && s.y == r.ymin)
    && (r.ymax == 0 || exists s :: s in read && s.region == id && s.y == r.ymax)
  }

  /** A region's neighbours are the other regions its samples are connected to, all of them while there is room. */
  ghost predicate NeisExact(read: seq<Sample>, r: Region, id: nat) {
    && |r.neis| <= RC_MAX_NEIS
    && (forall x :: x in r.neis ==> exists s :: s in read && s.region == id && Adjoins(s, x))
    && (|r.neis| < RC_MAX_NEIS ==> forall s, x :: s in read && s.region == id && Adjoins(s, x) ==> x in r.neis)
  }

  ghost predicate RegionExact(read: seq<Sample>, r: Region, id: nat) {
    HeightsExact(read, r, id) && NeisExact(read, r, id)
  }

  ghost predicate RegionsExact(read: seq<Sample>, rs: seq<Region>) {
    forall id: nat :: id < |rs| ==> RegionExact(read, rs[id], id)
  }

  function AllSamples(columns: seq<seq<Sample>>, n: nat): seq<Sample>
    requires n <= |columns|
  {
    if n == 0 then [] else AllSamples(columns, n - 1) + columns[n - 1]
  }

  /** The connections of `s` from `dir` on are still to be read. */
  ghost predicate NeisPartly(read: seq<Sample>, s: Sample, dir: nat, neis: seq<nat>)
    requires dir <= |s.neis|
  {
    && |neis| <= RC_MAX_NEIS
    && (forall x :: x in neis ==>
          || (exists t :: t in read && t.region == s.region && Adjoins(t, x))
          || (x in s.neis[..dir] && Adjoins(s, x)))
    && (|neis| < RC_MAX_NEIS ==> forall t, x :: t in read && t.region == s.region && Adjoins(t, x) ==> x in neis)
    && (|neis| < RC_MAX_NEIS ==> forall x :: x in s.neis[..dir] && Adjoins(s, x) ==> x in neis)
  }

  lemma NeisStart(read: seq<Sample>, s: Sample, r: Region)
    requires NeisExact(read, r, s.region)
    ensures NeisPartly(read, s, 0, r.neis)
  {
  }

  lemma NeisEnd(read: seq<Sample>, s: Sample, neis: seq<nat>, r: Region)
    requires NeisPartly(read, s, |s.neis|, neis) && r.neis == neis
    ensures NeisExact(read + [s], r, s.region)
  {
    assert s in read + [s] && s.neis[..|s.neis|] == s.neis;
    hide Adjoins;
    forall x | x in neis
      ensures exists t :: t in read + [s] && t.region == s.region && Adjoins(t, x)
    {
      if x !in s.neis || !Adjoins(s, x) {
        var t :| t in read && t.region == s.region && Adjoins(t, x);
        assert t in read + [s];
      }
    }
  }

  lemma NeisNext(read: seq<Sample>, s: Sample, dir: nat, neis: seq<nat>, neis': seq<nat>)
    requires dir < |s.neis| && NeisPartly(read, s, dir, neis) && |neis| <= |neis'| <= RC_MAX_NEIS
    requires if !Adjoins(s, s.neis[dir]) then neis' == neis
             else (neis' == neis && |neis| >= RC_MAX_NEIS) || forall x :: x in neis' <==> x in neis || x == s.neis[dir]
    ensures NeisPartly(read, s, dir + 1, neis')
  {
    assert s.neis[..dir + 1] == s.neis[..dir] + [s.neis[dir]];
  }

  method AddNeis(s: Sample, neis0: seq<nat>, nregs: nat, ghost read: seq<Sample>) returns (neis: seq<nat>)
    requires SampleOk(s, nregs) && forall k :: 0 <= k < |neis0| ==> neis0[k] < nregs
    requires NeisPartly(read, s, 0, neis0)
    ensures forall k :: 0 <= k < |neis| ==> neis[k] < nregs
    ensures NeisPartly(read, s, |s.neis|, neis)
  {
    hide NeisPartly;
    neis := neis0;
    NeisRoom(read, s, 0, neis);
    for dir := 0 to |s.neis|
      invariant forall k :: 0 <= k < |neis| ==> neis[k] < nregs
      invariant |neis| <= RC_MAX_NEIS && NeisPartly(read, s, dir, neis)
    {
      ghost var before := neis;
      if s.neis[dir] != NO_REGION && s.neis[dir] != s.region {
        var more, ok := AddUnique(neis, RC_MAX_NEIS, s.neis[dir]);
        if ok {
          assert forall k :: 0 <= k < |more| ==> more[k] in more;
          neis := more;
        }
      }
      NeisNext(read, s, dir, before, neis);
    }
  }

  lemma NeisRoom(read: seq<Sample>, s: Sample, dir: nat, neis: seq<nat>)
    requires dir <= |s.neis| && NeisPartly(read, s, dir, neis)
    ensures |neis| <= RC_MAX_NEIS
  {
  }

  lemma HeightsRead(read: seq<Sample>, s: Sample, r: Region, r': Region)
    requires HeightsExact(read, r, s.region) && r'.ymin == Min(r.ymin, s.y) && r'.ymax == Max(r.ymax, s.y)
    ensures HeightsExact(read + [s], r', s.region)
  {
    assert s in read + [s];
    if r'.ymin != 0xffff && r'.ymin != s.y {
      var t :| t in read && t.region == s.region && t.y == r.ymin;
      assert t in read + [s];
    }
    if r'.ymax != 0 && r'.ymax != s.y {
      var t :| t in read && t.region == s.region && t.y == r.ymax;
      assert t in read + [s];
    }
  }

  /** A sample says nothing of other regions. */
  lemma OtherExact(read: seq<Sample>, s: Sample, r: Region, id: nat)
    requires RegionExact(read, r, id) && s.region != id
    ensures RegionExact(read + [s], r, id)
  {
    hide Adjoins;
    forall x | x in r.neis
      ensures exists t :: t in read + [s] && t.region == id && Adjoins(t, x)
    {
      var t :| t in read && t.region == id && Adjoins(t, x);
      assert t in read + [s];
    }
    if r.ymin != 0xffff {
      var t :| t in read && t.region == id && t.y == r.ymin;
      assert t in read + [s];
    }
    if r.ymax != 0 {
      var t :| t in read && t.region == id && t.y == r.ymax;
      assert t in read + [s];
    }
  }

  /** One sample: heights and neighbours of its region. */
  method ReadSample(s: Sample, regs: array<Region>, ghost read: seq<Sample>)
    requires s.region != NO_REGION && s.region < regs.Length <= NO_REGION && SampleOk(s, regs.Length)
    requires NeisOk(regs[..]) && RegionsExact(read, regs[..])
    modifies regs
    ensures Widened(old(regs[..]), regs[..]) && NeisOk(regs[..]) && HeightOk(regs[..], s)
    ensures RegionsExact(read + [s], regs[..])
  {
    hide RegionExact;
    ghost var rs := regs[..];
    var r := regs[s.region];
    assert RegionExact(read, rs[s.region], s.region);
    assert forall k :: 0 <= k < |r.neis| ==> regs[..][s.region].neis[k] < regs.Length;
    ExactParts(read, r, s.region);
    NeisStart(read, s, r);
    var neis := AddNeis(s, r.neis, regs.Length, read);
    regs[s.region] := r.(ymin := Min(r.ymin, s.y), ymax := Max(r.ymax, s.y), neis := neis);
    HeightsRead(read, s, r, regs[s.region]);
    NeisEnd(read, s, neis, regs[s.region]);
    ExactWhole(read + [s], regs[s.region], s.region);
    forall id: nat | id < regs.Length
      ensures RegionExact(read + [s], regs[..][id], id)
    {
      if id != s.region {
        assert RegionExact(read, rs[id], id);
        OtherExact(read, s, rs[id], id);
      }
    }
  }

  lemma ExactParts(read: seq<Sample>, r: Region, id: nat)
    requires RegionExact(read, r, id)
    ensures HeightsExact(read, r, id) && NeisExact(read, r, id)
  {
  }

  lemma ExactWhole(read: seq<Sample>, r: Region, id: nat)
    requires HeightsExact(read, r, id) && NeisExact(read, r, id)
    ensures RegionExact(read, r, id)
  {
  }

  /** A sample without a region says nothing. */
  lemma NoRegionExact(read: seq<Sample>, s: Sample, rs: seq<Region>)
    requires RegionsExact(read, rs) && s.region == NO_REGION && |rs| <= NO_REGION
    ensures RegionsExact(read + [s], rs)
  {
    hide RegionExact;
    forall id: nat | id < |rs|
      ensures RegionExact(read + [s], rs[id], id)
    {
      OtherExact(read, s, rs[id], id);
    }
  }

  lemma ExactFrame(read: seq<Sample>, rs: seq<Region>, rs': seq<Region>)
    requires RegionsExact(read, rs) && OnlyLayers(rs, rs')
    ensures RegionsExact(read, rs')
  {
    forall id: nat | id < |rs'|
      ensures RegionExact(read, rs'[id], id)
    {
      assert RegionExact(read, rs[id], id);
    }
  }

  lemma NothingRead(rs: seq<Region>)
    requires forall r :: 0 <= r < |rs| ==> rs[r] == Region([], [], 0xffff, 0, NO_LAYER, false)
    ensures RegionsExact([], rs)
  {
  }

  method ReadColumn(col: seq<Sample>, regs: array<Region>, ghost read: seq<Sample>) returns (lregs: seq<nat>)
    requires regs.Length <= NO_REGION && ColumnOk(col, regs.Length) && NeisOk(regs[..])
    requires RegionsExact(read, regs[..])
    modifies regs
    ensures lregs == Recorded(col) && forall k :: 0 <= k < |lregs| ==> lregs[k] < regs.Length
    ensures Widened(old(regs[..]), regs[..]) && NeisOk(regs[..])
    ensures HeightsOk(regs[..], col) && RegionsExact(read + col, regs[..])
  {
    hide HeightsOk, HeightOk, Widened, NeisOk, Assigned, RegionsExact;
    ghost var rs := regs[..];
    lregs := [];
    WidenedRefl(rs);
    AssignedNone();
    assert col[..0] == [] && read + [] == read;
    NoHeights(rs);
    for i := 0 to |col|
      invariant lregs == Take(Assigned(col[..i]), RC_MAX_LAYERS)
      invariant forall k :: 0 <= k < |lregs| ==> lregs[k] < regs.Length
      invariant Widened(rs, regs[..]) && NeisOk(regs[..])
      invariant HeightsOk(regs[..], col[..i]) && RegionsExact(read + col[..i], regs[..])
    {
      AssignedNext(col, i);
      assert read + col[..i + 1] == read + col[..i] + [col[i]];
      assert SampleOk(col[i], regs.Length);
      if col[i].region != NO_REGION {
        ghost var before := regs[..];
        ReadSample(col[i], regs, read + col[..i]);
        HeightsStay(before, regs[..]);
        WidenedTrans(rs, before, regs[..]);
        if |lregs| < RC_MAX_LAYERS {
          lregs := lregs + [col[i].region];
        }
      } else {
        NoRegionExact(read + col[..i], col[i], regs[..]);
      }
      HeightsNext(regs[..], col, i);
    }
    assert col[..|col|] == col;
  }

  lemma HeightsNext(rs: seq<Region>, col: seq<Sample>, i: nat)
    requires i < |col| && |rs| <= NO_REGION && HeightsOk(rs, col[..i])
    requires HeightOk(rs, col[i]) || col[i].region == NO_REGION
    ensures HeightsOk(rs, col[..i + 1])
  {
    assert forall k :: 0 <= k < i ==> col[..i + 1][k] == col[..i][k];
  }

  lemma NoHeights(rs: seq<Region>)
    ensures HeightsOk(rs, [])
  {
  }

  lemma AssignedNone()
    ensures Assigned([]) == []
  {
  }

  lemma WidenedRefl(rs: seq<Region>)
    ensures Widened(rs, rs)
  {
  }

  lemma WidenedTrans(a: seq<Region>, b: seq<Region>, c: seq<Region>)
    requires Widened(a, b) && Widened(b, c)
    ensures Widened(a, c)
  {
  }

  lemma ListsStay(rs: seq<Region>, rs': seq<Region>)
    requires ListsOk(rs) && Widened(rs, rs')
    ensures ListsOk(rs')
  {
    hide ListOk;
  }

  lemma HeightsStay(rs: seq<Region>, rs': seq<Region>)
    requires Widened(rs, rs')
    ensures forall col :: HeightsOk(rs, col) ==> HeightsOk(rs', col)
  {
  }

  /** The overlaps of every region are the other regions recorded together with it. */
  ghost predicate OverlapsAre(columns: seq<seq<Sample>>, n: nat, rs: seq<Region>) {
    forall r: nat :: r < |rs| ==> RowIs(columns, n, rs[r].layers, r)
  }

  ghost predicate RowIs(columns: seq<seq<Sample>>, n: nat, layers: seq<nat>, r: nat) {
    forall s: nat :: s in layers <==> r != s && Together(columns, n, r, s)
  }

  lemma TogetherStep(columns: seq<seq<Sample>>, n: nat, r: nat, s: nat)
    requires n < |columns|
    ensures Together(columns, n + 1, r, s) <==>
      Together(columns, n, r, s) || (r in Recorded(columns[n]) && s in Recorded(columns[n]))
  {
    hide Recorded;
    if Together(columns, n, r, s) {
      var c :| 0 <= c < n && c < |columns| && r in Recorded(columns[c]) && s in Recorded(columns[c]);
      assert c < n + 1;
    }
  }

  lemma TogetherNext(columns: seq<seq<Sample>>, n: nat, rs: seq<Region>, rs1: seq<Region>, rs2: seq<Region>)
    requires n < |columns| && OverlapsAre(columns, n, rs) && Widened(rs, rs1)
    requires Overlaid(rs1, rs2, Recorded(columns[n]))
    ensures OverlapsAre(columns, n + 1, rs2)
  {
    hide Recorded, Together;
    forall r: nat | r < |rs|
      ensures RowIs(columns, n + 1, rs2[r].layers, r)
    {
      assert RowIs(columns, n, rs[r].layers, r) && RowOverlaid(rs1[r].layers, rs2[r].layers, Recorded(columns[n]), r);
      forall s: nat {
        TogetherStep(columns, n, r, s);
      }
    }
  }

  /** The first pass over the columns: regions, their heights and neighbours, and which of them share a column. */
  method FindOverlaps(columns: seq<seq<Sample>>, regs: array<Region>) returns (ok: bool)
    requires regs.Length <= NO_REGION && forall c :: 0 <= c < |columns| ==> ColumnOk(columns[c], regs.Length)
    modifies regs
    ensures ok ==> OverlapsAre(columns, |columns|, regs[..]) && NeisOk(regs[..]) && Unassigned(regs[..])
    ensures ListsOk(regs[..]) && (regs.Length <= RC_MAX_LAYERS ==> ok)
    ensures ok ==> forall c :: 0 <= c < |columns| ==> HeightsOk(regs[..], columns[c])
    ensures ok ==> RegionsExact(AllSamples(columns, |columns|), regs[..])
  {
    hide RegionsExact;
    for i := 0 to regs.Length
      invariant forall r :: 0 <= r < i ==> regs[r] == Region([], [], 0xffff, 0, NO_LAYER, false)
    {
      regs[i] := Region([], [], 0xffff, 0, NO_LAYER, false);
    }
    ok := true;
    NothingRead(regs[..]);
    for c := 0 to |columns|
      invariant RegionsExact(AllSamples(columns, c), regs[..])
      invariant OverlapsAre(columns, c, regs[..]) && NeisOk(regs[..]) && Unassigned(regs[..]) && ListsOk(regs[..])
      invariant forall d :: 0 <= d < c ==> HeightsOk(regs[..], columns[d])
    {
      ghost var rs := regs[..];
      var lregs := ReadColumn(columns[c], regs, AllSamples(columns, c));
      ghost var rs1 := regs[..];
      HeightsStay(rs, rs1);
      ListsStay(rs, rs1);
      ok := UpdateOverlaps(lregs, regs);
      if !ok {
        return;
      }
      TogetherNext(columns, c, rs, rs1, regs[..]);
      ExactFrame(AllSamples(columns, c + 1), rs1, regs[..]);
    }
  }

  /** Recorded overlaps run both ways. */
  lemma OverlapsSymmetric(columns: seq<seq<Sample>>, rs: seq<Region>)
    requires OverlapsAre(columns, |columns|, rs)
    requires forall c :: 0 <= c < |columns| ==> ColumnOk(columns[c], |rs|)
    ensures OverlapsOk(rs)
  {
    forall c | 0 <= c < |columns|
      ensures forall x :: x in Recorded(columns[c]) ==> x < |rs|
    {
      AssignedBelow(columns[c], |rs|);
    }
    hide Recorded;
  }

  lemma {:induction false} AssignedBelow(col: seq<Sample>, n: nat)
    requires ColumnOk(col, n)
    ensures forall k :: 0 <= k < |Assigned(col)| ==> Assigned(col)[k] < n
  {
    if col != [] {
      AssignedBelow(col[..|col| - 1], n);
      assert SampleOk(col[|col| - 1], n);
    }
  }

  // ----- Layers by search -----

  /** Regions in layers have ids up to `id`. */
  predicate IdsUpTo(rs: seq<Region>, id: nat) {
    forall a :: 0 <= a < |rs| && rs[a].layerId != NO_LAYER ==> rs[a].layerId <= id
  }

  /** Regions never leave layers altogether. */
  predicate StillIn(rs: seq<Region>, rs': seq<Region>) {
    |rs'| == |rs| && forall a :: 0 <= a < |rs| && rs[a].layerId != NO_LAYER ==> rs'[a].layerId != NO_LAYER
  }

  lemma JoinedIds(rs: seq<Region>, i: nat, n: nat, rs': seq<Region>, id: nat)
    requires CanJoin(rs, i, n) && Joined(rs, i, n, rs') && IdsUpTo(rs, id) && rs[i].layerId == id
    ensures IdsUpTo(rs', id) && StillIn(rs, rs') && rs'[i].base && rs'[i].layerId == id
    ensures rs'[n].layerId != NO_LAYER
  {
  }

  lemma Sizes(rs0: seq<Region>, rs: seq<Region>, own: seq<nat>)
    requires LayersInv(rs0, rs, own)
    ensures |own| == |rs| == |rs0|
  {
  }

  /** Region `n` is in a layer, or cannot join that of `i`. */
  predicate Settled(rs: seq<Region>, i: nat, n: nat) {
    i < |rs| && n < |rs| && (rs[n].layerId != NO_LAYER || n in rs[i].layers ||
      Max(rs[i].ymax, rs[n].ymax) - Min(rs[i].ymin, rs[n].ymin) >= 255)
  }

  ghost predicate SettledStay(rs: seq<Region>, rs': seq<Region>, i: nat) {
    forall n: nat :: Settled(rs, i, n) ==> Settled(rs', i, n)
  }

  lemma JoinedSettled(rs: seq<Region>, i: nat, n: nat, rs': seq<Region>)
    requires CanJoin(rs, i, n) && Joined(rs, i, n, rs')
    ensures Settled(rs', i, n) && SettledStay(rs, rs', i)
  {
  }

  /** Regions that were in layers stay as they are, but for base `i`; those that come into one come into that of `i`
      and are among `stack`. */
  ghost predicate Spread(rs: seq<Region>, rs': seq<Region>, i: nat, stack: seq<nat>) {
    && |rs'| == |rs| && i < |rs| && rs'[i].layerId == rs[i].layerId
    && (forall a :: 0 <= a < |rs| && rs[a].layerId != NO_LAYER && a != i ==> rs'[a] == rs[a])
    && forall a :: 0 <= a < |rs| && rs[a].layerId == NO_LAYER && rs'[a].layerId != NO_LAYER ==>
      a in stack && rs'[a].layerId == rs[i].layerId
  }

  function Ids(n: nat): (ids: seq<nat>)
    ensures forall k: nat :: k < n ==> k in ids
  {
    if n == 0 then [] else Ids(n - 1) + [n - 1]
  }

  lemma SpreadTrans(rs: seq<Region>, rs1: seq<Region>, rs2: seq<Region>, i: nat, s1: seq<nat>, s2: seq<nat>,
                    s: seq<nat>)
    requires Spread(rs, rs1, i, s1) && Spread(rs1, rs2, i, s2) && rs[i].layerId != NO_LAYER
    requires forall x :: x in s1 || x in s2 ==> x in s
    ensures Spread(rs, rs2, i, s)
  {
  }

  lemma SpreadNone(rs: seq<Region>, i: nat, s: seq<nat>)
    requires i < |rs|
    ensures Spread(rs, rs, i, s)
  {
  }

  /** A neighbour joins the layer of the root region, unless it is in a layer, overlaps it or is too far up or down. */
  method TryJoin(regs: array<Region>, i: nat, nei: nat, ghost rs0: seq<Region>, ghost own: seq<nat>)
    returns (joined: bool, ok: bool, ghost own': seq<nat>)
    requires OverlapsOk(rs0) && LayersInv(rs0, regs[..], own) && nei < regs.Length && i < regs.Length
    requires regs[i].base && regs[i].layerId != NO_LAYER && IdsUpTo(regs[..], regs[i].layerId) && ListsOk(regs[..])
    requires AllHeightsFrom(rs0, regs[..], own)
    modifies regs
    ensures regs.Length <= RC_MAX_LAYERS ==> ok
    ensures ok ==> LayersInv(rs0, regs[..], own') && IdsUpTo(regs[..], regs[i].layerId) && ListsOk(regs[..])
    ensures ok ==> regs[i].base && regs[i].layerId == old(regs[i].layerId) && StillIn(old(regs[..]), regs[..])
    ensures ok && !joined ==> regs[..] == old(regs[..])
    ensures ok ==> Settled(regs[..], i, nei) && SettledStay(old(regs[..]), regs[..], i)
    ensures ok && joined ==> old(regs[nei].layerId) == NO_LAYER && regs[nei].layerId != NO_LAYER
    ensures !ok ==> joined
    ensures ok ==> AllHeightsFrom(rs0, regs[..], own') && Spread(old(regs[..]), regs[..], i, [nei])
  {
    hide LayersInv, OverlapsOk, ListOk, AllHeightsFrom;
    joined, ok, own' := false, true, own;
    var root, regn := regs[i], regs[nei];
    if regn.layerId != NO_LAYER || nei in root.layers {
      return;
    }
    if Max(root.ymax, regn.ymax) - Min(root.ymin, regn.ymin) >= 255 {
      return;
    }
    ghost var rs := regs[..];
    assert ListOk(rs[i].layers, |rs|) && ListOk(rs[nei].layers, |rs|);
    joined := true;
    regs[nei] := regn.(layerId := root.layerId);
    var layers;
    layers, ok := AddAll(root.layers, regn.layers, regs.Length);
    regs[i] := root.(layers := layers);
    if !ok {
      return;
    }
    regs[i] := regs[i].(ymin := Min(root.ymin, regn.ymin), ymax := Max(root.ymax, regn.ymax));
    assert CanJoin(rs, i, nei) && Joined(rs, i, nei, regs[..]);
    Sizes(rs0, rs, own);
    JoinKeeps(rs0, rs, own, i, nei, regs[..]);
    JoinHeights(rs0, rs, own, i, nei, regs[..]);
    JoinedIds(rs, i, nei, regs[..], root.layerId);
    JoinedSettled(rs, i, nei, regs[..]);
    own' := own[nei := i];
  }

  /** The regions without a layer. */
  ghost function Open(rs: seq<Region>): set<nat> {
    set a: nat | a < |rs| && rs[a].layerId == NO_LAYER
  }

  lemma NeisKept(rs0: seq<Region>, rs: seq<Region>, own: seq<nat>, a: nat)
    requires LayersInv(rs0, rs, own) && NeisOk(rs0) && a < |rs|
    ensures |rs0| == |rs| && rs[a].neis == rs0[a].neis && forall k :: 0 <= k < |rs[a].neis| ==> rs[a].neis[k] < |rs|
  {
    assert Kept(rs0, rs, a);
  }

  /** The neighbours of one region: those that join go on the stack as long as there is room. */
  method ExpandRegion(regs: array<Region>, i: nat, r: nat, stack0: seq<nat>, ghost rs0: seq<Region>,
                      ghost own: seq<nat>)
    returns (stack: seq<nat>, ok: bool, ghost own': seq<nat>)
    requires OverlapsOk(rs0) && NeisOk(rs0) && LayersInv(rs0, regs[..], own) && i < regs.Length && r < regs.Length
    requires regs[i].base && regs[i].layerId != NO_LAYER && IdsUpTo(regs[..], regs[i].layerId)
    requires ListsOk(regs[..]) && forall k :: 0 <= k < |stack0| ==> stack0[k] < regs.Length
    requires AllHeightsFrom(rs0, regs[..], own)
    modifies regs
    ensures regs.Length <= RC_MAX_LAYERS ==> ok
    ensures ok ==> AllHeightsFrom(rs0, regs[..], own') && stack0 <= stack
    ensures ok ==> Spread(old(regs[..]), regs[..], i, stack) && SettledStay(old(regs[..]), regs[..], i)
    ensures ok ==> |stack| + |Open(regs[..])| <= |stack0| + |Open(old(regs[..]))|
    ensures ok ==> LayersInv(rs0, regs[..], own') && IdsUpTo(regs[..], regs[i].layerId) && ListsOk(regs[..])
    ensures ok ==> regs[i].base && regs[i].layerId == old(regs[i].layerId) && StillIn(old(regs[..]), regs[..])
    ensures ok ==> forall k :: 0 <= k < |stack| ==> stack[k] < regs.Length
    ensures ok ==> Open(regs[..]) < Open(old(regs[..])) || (Open(regs[..]) == Open(old(regs[..])) && stack == stack0)
    ensures ok && |stack| < MAX_STACK ==> forall k :: 0 <= k < |rs0[r].neis| ==> Settled(regs[..], i, rs0[r].neis[k])
  {
    hide LayersInv, OverlapsOk, ListsOk, Settled, AllHeightsFrom, Spread;
    NeisKept(rs0, regs[..], own, r);
    stack, ok, own' := stack0, true, own;
    var neis := regs[r].neis;
    ghost var rs := regs[..];
    SpreadNone(rs, i, stack);
    for j := 0 to |neis|
      invariant AllHeightsFrom(rs0, regs[..], own') && stack0 <= stack
      invariant Spread(rs, regs[..], i, stack) && SettledStay(rs, regs[..], i)
      invariant |stack| + |Open(regs[..])| <= |stack0| + |Open(rs)|
      invariant LayersInv(rs0, regs[..], own') && IdsUpTo(regs[..], regs[i].layerId) && ListsOk(regs[..])
      invariant regs[i].base && regs[i].layerId == rs[i].layerId && StillIn(rs, regs[..])
      invariant forall k :: 0 <= k < |stack| ==> stack[k] < regs.Length
      invariant Open(regs[..]) < Open(rs) || (Open(regs[..]) == Open(rs) && stack == stack0)
      invariant |stack| < MAX_STACK ==> forall k :: 0 <= k < j ==> Settled(regs[..], i, neis[k])
    {
      if |stack| < MAX_STACK {
        ghost var before := regs[..];
        var joined;
        joined, ok, own' := TryJoin(regs, i, neis[j], rs0, own');
        if !ok {
          return;
        }
        ghost var stack1 := stack;
        if joined {
          assert neis[j] in Open(before) && neis[j] !in Open(regs[..]) && Open(regs[..]) <= Open(before);
          SubsetCard(Open(regs[..]) + {neis[j]}, Open(before));
          stack := stack + [neis[j]];
          SpreadTrans(rs, before, regs[..], i, stack1, [neis[j]], stack);
        }
      }
    }
  }

  /** Breadth-first search from the root region `i`. */
  method SearchLayer(regs: array<Region>, i: nat, layerId: nat, ghost rs0: seq<Region>, ghost own: seq<nat>)
    returns (ok: bool, ghost own': seq<nat>)
    requires OverlapsOk(rs0) && NeisOk(rs0) && LayersInv(rs0, regs[..], own) && i < regs.Length && layerId < NO_LAYER
    requires regs[i].layerId == NO_LAYER && ListsOk(regs[..])
    requires forall a :: 0 <= a < regs.Length ==> regs[a].layerId < layerId || regs[a].layerId == NO_LAYER
    requires AllHeightsFrom(rs0, regs[..], own)
    modifies regs
    ensures regs.Length <= RC_MAX_LAYERS ==> ok
    ensures ok ==> AllHeightsFrom(rs0, regs[..], own')
    ensures ok && regs.Length <= MAX_STACK ==> Explored(rs0, regs[..], i, layerId, [])
    ensures ok ==> regs[i].base && regs[i].layerId == layerId && LaterLayer(old(regs[..]), regs[..], layerId)
    ensures ok ==> LayersInv(rs0, regs[..], own') && IdsUpTo(regs[..], layerId) && StillIn(old(regs[..]), regs[..])
    ensures ok ==> ListsOk(regs[..])
    ensures ok ==> regs[i].layerId != NO_LAYER
  {
    hide LayersInv, OverlapsOk, ListOk, AllHeightsFrom;
    ghost var rs := regs[..];
    regs[i] := regs[i].(layerId := layerId, base := true);
    Sizes(rs0, rs, own);
    RootKeeps(rs0, rs, own, i, layerId, regs[..]);
    RootHeights(rs0, rs, own, i, layerId, regs[..]);
    own' := own[i := i];
    ok := true;
    var stack: seq<nat> := [i];
    ghost var rs1 := regs[..];
    OpenBut(rs1, i);
    SpreadNone(rs1, i, Ids(regs.Length));
    hide Spread, Explored, SettledStay, Open;
    while stack != []
      invariant AllHeightsFrom(rs0, regs[..], own') && Spread(rs1, regs[..], i, Ids(regs.Length))
      invariant |stack| + |Open(regs[..])| <= regs.Length
      invariant regs.Length <= MAX_STACK ==> Explored(rs0, regs[..], i, layerId, stack)
      invariant LayersInv(rs0, regs[..], own') && IdsUpTo(regs[..], layerId) && StillIn(rs, regs[..])
      invariant ListsOk(regs[..])
      invariant regs[i].base && regs[i].layerId == layerId
      invariant forall k :: 0 <= k < |stack| ==> stack[k] < regs.Length
      decreases Open(regs[..]), |stack|
    {
      var r := stack[0];
      ghost var before, waiting := regs[..], stack;
      stack := stack[1..];
      stack, ok, own' := ExpandRegion(regs, i, r, stack, rs0, own');
      if !ok {
        return;
      }
      SpreadMore(rs1, before, regs[..], i, stack);
      OpenSome(regs[..]);
      if regs.Length <= MAX_STACK {
        ExploredNext(rs0, before, regs[..], i, layerId, waiting, stack);
      }
    }
    LaterIs(rs, rs1, regs[..], i, layerId);
  }

  /** What is in the layer of `i` and not among `stack` has all its neighbours looked at. */
  ghost predicate Explored(rs0: seq<Region>, rs: seq<Region>, i: nat, id: nat, stack: seq<nat>) {
    |rs| == |rs0| && forall a: nat, n: nat ::
      a < |rs| && rs[a].layerId == id && a !in stack && n in rs0[a].neis ==> Settled(rs, i, n)
  }

  lemma ExploredNext(rs0: seq<Region>, rs: seq<Region>, rs': seq<Region>, i: nat, id: nat, stack: seq<nat>,
                     stack': seq<nat>)
    requires stack != [] && stack[1..] <= stack' && id != NO_LAYER && stack[0] < |rs| && i < |rs|
    requires Explored(rs0, rs, i, id, stack) && Spread(rs, rs', i, stack') && SettledStay(rs, rs', i)
    requires forall k :: 0 <= k < |rs0[stack[0]].neis| ==> Settled(rs', i, rs0[stack[0]].neis[k])
    ensures Explored(rs0, rs', i, id, stack')
  {
    hide Settled;
    forall a: nat, n: nat | a < |rs'| && rs'[a].layerId == id && a !in stack' && n in rs0[a].neis
      ensures Settled(rs', i, n)
    {
      assert rs[a].layerId == id;
      if a in stack {
        assert stack == [stack[0]] + stack[1..];
        assert a == stack[0];
      }
    }
  }

  lemma SpreadMore(rs: seq<Region>, rs1: seq<Region>, rs2: seq<Region>, i: nat, stack: seq<nat>)
    requires Spread(rs, rs1, i, Ids(|rs|)) && Spread(rs1, rs2, i, stack) && rs[i].layerId != NO_LAYER
    ensures Spread(rs, rs2, i, Ids(|rs|))
  {
  }

  lemma OpenBut(rs: seq<Region>, i: nat)
    requires i < |rs| && rs[i].layerId != NO_LAYER
    ensures 1 + |Open(rs)| <= |rs|
  {
    SubsetCard(Open(rs) + {i}, Below(|rs|));
  }

  lemma OpenSome(rs: seq<Region>)
    ensures |Open(rs)| >= 0
  {
  }

  /** Regions in layers stay as they are; others may have come into layer `id`. */
  ghost predicate LaterLayer(rs: seq<Region>, rs': seq<Region>, id: nat) {
    && |rs'| == |rs|
    && (forall a :: 0 <= a < |rs| && rs[a].layerId != NO_LAYER ==> rs'[a] == rs[a])
    && forall a :: 0 <= a < |rs| && rs[a].layerId == NO_LAYER ==> rs'[a].layerId == NO_LAYER || rs'[a].layerId == id
  }

  lemma LaterIs(rs: seq<Region>, rs1: seq<Region>, rs2: seq<Region>, i: nat, id: nat)
    requires i < |rs| && rs[i].layerId == NO_LAYER && id != NO_LAYER
    requires rs1 == rs[i := rs[i].(layerId := id, base := true)]
    requires Spread(rs1, rs2, i, Ids(|rs|))
    ensures LaterLayer(rs, rs2, id)
  {
  }

  /** A finished layer stays fenced in, and the next one is. */
  lemma FencedNext(rs0: seq<Region>, rs: seq<Region>, rs': seq<Region>, own: seq<nat>, own': seq<nat>, i: nat, id: nat)
    requires LayersInv(rs0, rs, own) && LayersInv(rs0, rs', own') && AllFenced(rs0, rs, id) && LaterLayer(rs, rs', id)
    requires IdsUpTo(rs', id) && id < NO_LAYER && i < |rs'| && rs'[i].base && rs'[i].layerId == id
    requires forall a :: 0 <= a < |rs| ==> rs[a].layerId < id || rs[a].layerId == NO_LAYER
    requires Explored(rs0, rs', i, id, [])
    ensures AllFenced(rs0, rs', id + 1)
  {
    hide Sourced, Apart, Owned, Kept;
    forall a: nat, b: nat, n: nat |
      Grouped(rs', a, b) && rs'[b].base && rs'[a].layerId < id + 1 && n in rs0[a].neis
      ensures Fenced(rs', b, n, rs'[a].layerId)
    {
      if rs'[a].layerId == id {
        assert b == i && Settled(rs', i, n);
      } else {
        assert Grouped(rs, a, b) && Fenced(rs, b, n, rs[a].layerId);
        assert rs'[a] == rs[a] && rs'[b] == rs[b];
        FencedLater(rs0, rs, rs', own', b, n, rs[a].layerId);
      }
    }
  }

  lemma FencedLater(rs0: seq<Region>, rs: seq<Region>, rs': seq<Region>, own': seq<nat>, b: nat, n: nat, id: nat)
    requires |rs| == |rs0| == |rs'| == |own'| && n < |rs| && b < |rs| && rs'[b] == rs[b] && id < NO_LAYER
    requires Fenced(rs, b, n, id) && Kept(rs0, rs, n) && Owned(rs0, rs', own', n) && Kept(rs0, rs', n)
    requires rs[n].layerId != NO_LAYER ==> rs'[n] == rs[n]
    ensures Fenced(rs', b, n, id)
  {
  }

  method SearchLayers(regs: array<Region>) returns (ok: bool, ghost own: seq<nat>)
    requires regs.Length <= NO_REGION && Unassigned(regs[..]) && OverlapsOk(regs[..]) && NeisOk(regs[..])
    requires ListsOk(regs[..])
    modifies regs
    ensures regs.Length <= RC_MAX_LAYERS ==> ok
    ensures ok ==> LayersInv(old(regs[..]), regs[..], own) && ListsOk(regs[..])
    ensures ok ==> forall a :: 0 <= a < regs.Length ==> regs[a].layerId < NO_LAYER
    ensures ok ==> AllHeightsFrom(old(regs[..]), regs[..], own)
    ensures ok && regs.Length <= MAX_STACK ==> AllFenced(old(regs[..]), regs[..], NO_LAYER)
  {
    hide LayersInv, OverlapsOk, NeisOk, ListsOk, AllHeightsFrom, AllFenced, LaterLayer, Explored;
    ghost var rs0 := regs[..];
    Start(rs0);
    own := seq(|rs0|, _ => |rs0|);
    FencedStart(rs0, own);
    var layerId := 0;
    ok := true;
    for i := 0 to regs.Length
      invariant AllHeightsFrom(rs0, regs[..], own)
      invariant regs.Length <= MAX_STACK ==> AllFenced(rs0, regs[..], layerId)
      invariant LayersInv(rs0, regs[..], own) && layerId <= i && ListsOk(regs[..])
      invariant forall a :: 0 <= a < regs.Length ==> regs[a].layerId < layerId || regs[a].layerId == NO_LAYER
      invariant forall a :: 0 <= a < i ==> regs[a].layerId != NO_LAYER
    {
      if regs[i].layerId == NO_LAYER {
        ghost var rs, own0 := regs[..], own;
        ok, own := SearchLayer(regs, i, layerId, rs0, own);
        if !ok {
          return;
        }
        if regs.Length <= MAX_STACK {
          FencedNext(rs0, rs, regs[..], own0, own, i, layerId);
        }
        layerId := layerId + 1;
      }
    }
    if regs.Length <= MAX_STACK {
      FencedEnd(rs0, regs[..], layerId);
    }
  }

  lemma FencedStart(rs: seq<Region>, own: seq<nat>)
    requires Unassigned(rs) && |own| == |rs|
    ensures AllHeightsFrom(rs, rs, own) && AllFenced(rs, rs, 0)
  {
  }

  /** No region is in a layer beyond the last. */
  lemma FencedEnd(rs0: seq<Region>, rs: seq<Region>, id: nat)
    requires AllFenced(rs0, rs, id) && forall a :: 0 <= a < |rs| ==> rs[a].layerId < id
    ensures AllFenced(rs0, rs, NO_LAYER)
  {
  }

  // ----- Merging layers -----

  function Wrap16(x: nat): nat {
    x % 0x10000
  }

  predicate OverlapRange(amin: nat, amax: nat, bmin: nat, bmax: nat) {
    amin <= bmax && amax >= bmin
  }

  function MergeHeight(walkableHeight: nat): (h: nat)
    ensures walkableHeight < 0x4000 ==> h == 4 * walkableHeight
  {
    Wrap16(Wrap16(walkableHeight) * 4)
  }

  predicate InRange(h: nat, min: nat, max: nat) {
    min <= h <= max
  }

  /** Two ranges overlap exactly if they have a height in common. */
  lemma OverlapRangeIff(amin: nat, amax: nat, bmin: nat, bmax: nat)
    requires amin <= amax && bmin <= bmax
    ensures OverlapRange(amin, amax, bmin, bmax) <==>
      exists h :: InRange(h, amin, amax) && InRange(h, bmin, bmax)
  {
    if OverlapRange(amin, amax, bmin, bmax) {
      assert InRange(Max(amin, bmin), amin, amax) && InRange(Max(amin, bmin), bmin, bmax);
    }
  }

  /** The height ranges, stretched upwards by `mergeHeight` in 16 bits, meet. */
  predicate Close(r: Region, s: Region, mergeHeight: nat) {
    OverlapRange(r.ymin, Wrap16(r.ymax + mergeHeight), s.ymin, Wrap16(s.ymax + mergeHeight))
  }

  /** The wrapped test agrees with the test on whole numbers exactly if, where the latter holds, no bound wraps below
      the other range; it never finds ranges close that are not. */
  lemma CloseIff(r: Region, s: Region, mergeHeight: nat)
    requires r.ymax < 0x10000 && s.ymax < 0x10000 && mergeHeight < 0x10000
    ensures
      var rTop, sTop := r.ymax + mergeHeight, s.ymax + mergeHeight;
      var plain := OverlapRange(r.ymin, rTop, s.ymin, sTop);
      && (Close(r, s, mergeHeight) ==> plain)
      && (Close(r, s, mergeHeight) == plain <==>
            !plain || ((sTop < 0x10000 || r.ymin <= sTop - 0x10000) && (rTop < 0x10000 || s.ymin <= rTop - 0x10000)))
  {
  }

  /** With a great walkable height a region within the 13 bits of span heights is not even close to itself. */
  lemma WrappedNotClose(r: Region, walkableHeight: nat)
    requires r.ymin == 8000 && r.ymax == 8100 && walkableHeight == 15000
    ensures !Close(r, r, MergeHeight(walkableHeight))
    ensures var top := r.ymax + 4 * walkableHeight; OverlapRange(r.ymin, top, r.ymin, top)
  {
  }

  /** Whether some region of the layer of `j` overlaps that of `i`. */
  method OverlapsLayer(regs: array<Region>, i: nat, j: nat) returns (overlap: bool)
    requires i < regs.Length && j < regs.Length && regs[j].layerId != NO_LAYER
    ensures overlap <==> exists k: nat :: Grouped(regs[..], k, j) && k in regs[i].layers
  {
    for k := 0 to regs.Length
      invariant forall m: nat :: m < k && Grouped(regs[..], m, j) ==> m !in regs[i].layers
    {
      if regs[k].layerId == regs[j].layerId && k in regs[i].layers {
        assert Grouped(regs[..], k, j);
        return true;
      }
    }
    overlap := false;
  }

  /** The first base region whose layer is close to that of `i` and may be merged into it; -1 if there is none. */
  method FindMerge(regs: array<Region>, i: nat, mergeHeight: nat) returns (j: int)
    requires i < regs.Length && regs[i].base
    requires forall a :: 0 <= a < regs.Length ==> regs[a].layerId != NO_LAYER
    ensures -1 <= j < regs.Length
    ensures j == -1 ==> forall k: nat :: k < regs.Length && Close(regs[i], regs[k], mergeHeight) ==>
      !CanMerge(regs[..], i, k)
    ensures j != -1 ==> CanMerge(regs[..], i, j) && Close(regs[i], regs[j], mergeHeight)
  {
    hide Close;
    j := 0;
    while j < regs.Length
      invariant 0 <= j <= regs.Length
      invariant forall k: nat :: k < j && Close(regs[i], regs[k], mergeHeight) ==> !CanMerge(regs[..], i, k)
    {
      if i != j && regs[j].base && Close(regs[i], regs[j], mergeHeight) &&
        Max(regs[i].ymax, regs[j].ymax) - Min(regs[i].ymin, regs[j].ymin) < 255 {
        var overlap := OverlapsLayer(regs, i, j);
        if !overlap {
          return;
        }
      }
      j := j + 1;
    }
    j := -1;
  }

  /** `Merged` with only the first `n` regions looked at. */
  ghost predicate PartlyMerged(rs: seq<Region>, i: nat, j: nat, n: nat, rs': seq<Region>)
    requires i < |rs| && j < |rs|
  {
    && |rs'| == |rs|
    && (forall a :: 0 <= a < n && a < |rs| && rs[a].layerId == rs[j].layerId ==>
          rs'[a] == rs[a].(layerId := rs[i].layerId, base := false))
    && (forall a :: 0 <= a < |rs| && (n <= a || rs[a].layerId != rs[j].layerId) && a != i ==> rs'[a] == rs[a])
    && rs'[i].layerId == rs[i].layerId && rs'[i].base == rs[i].base && rs'[i].neis == rs[i].neis
    && (forall x :: x in rs'[i].layers ==> x in rs[i].layers || MergedFrom(rs, j, x))
    && (forall x :: x in rs[i].layers ==> x in rs'[i].layers)
    && (forall k: nat :: k < n && Grouped(rs, k, j) ==> Includes(rs'[i], rs[k]))
    && Min(rs[i].ymin, rs[j].ymin) <= rs'[i].ymin <= rs[i].ymin
    && rs[i].ymax <= rs'[i].ymax <= Max(rs[i].ymax, rs[j].ymax)
  }

  /** The region at `n` belongs to the merged layer. */
  lemma MergeNext(rs: seq<Region>, i: nat, j: nat, n: nat, rs1: seq<Region>, rs2: seq<Region>)
    requires i < |rs| && n < |rs| && CanMerge(rs, i, j) && rs[i].layerId != rs[j].layerId && rs[j].layerId != NO_LAYER
    requires PartlyMerged(rs, i, j, n, rs1) && rs[n].layerId == rs[j].layerId
    requires rs[j].ymin <= rs[n].ymin && rs[n].ymax <= rs[j].ymax
    requires |rs2| == |rs| && rs2[n] == rs1[n].(layerId := rs1[i].layerId, base := false)
    requires TookIn(rs1[i], rs1[n], rs2[i]) && forall a :: 0 <= a < |rs| && a != i && a != n ==> rs2[a] == rs1[a]
    ensures PartlyMerged(rs, i, j, n + 1, rs2)
  {
    assert Grouped(rs, n, j) && rs1[n] == rs[n];
    forall x | x in rs2[i].layers
      ensures x in rs[i].layers || MergedFrom(rs, j, x)
    {
      if x in rs1[n].layers {
        assert MergedFrom(rs, j, x);
      }
    }
  }

  /** Merge the layer of `j` into that of `i`. */
  method MergeLayer(regs: array<Region>, i: nat, j: nat, ghost rs0: seq<Region>, ghost own: seq<nat>) returns (ok: bool)
    requires LayersInv(rs0, regs[..], own) && i < regs.Length && CanMerge(regs[..], i, j)
    requires ListsOk(regs[..]) && forall a :: 0 <= a < regs.Length ==> regs[a].layerId != NO_LAYER
    modifies regs
    ensures regs.Length <= RC_MAX_LAYERS ==> ok
    ensures ok ==> Merged(old(regs[..]), i, j, regs[..]) && ListsOk(regs[..])
  {
    ghost var rs := regs[..];
    assert Owned(rs0, rs, own, i) && Owned(rs0, rs, own, j);
    hide LayersInv, PartlyMerged, CanMerge, ListOk;
    var newId, oldId := regs[i].layerId, regs[j].layerId;
    ok := true;
    NothingMerged(rs, i, j);
    for n := 0 to regs.Length
      invariant PartlyMerged(rs, i, j, n, regs[..]) && ListsOk(regs[..])
    {
      PartFacts(rs, i, j, n, regs[..]);
      if regs[n].layerId == oldId {
        GroupHeights(rs0, rs, own, n, j);
        ghost var before := regs[..];
        var r := regs[n];
        assert ListOk(before[n].layers, |before|) && ListOk(before[i].layers, |before|);
        regs[n] := r.(base := false, layerId := newId);
        var layers;
        layers, ok := AddAll(regs[i].layers, r.layers, regs.Length);
        if !ok {
          return;
        }
        regs[i] := regs[i].(layers := layers, ymin := Min(regs[i].ymin, r.ymin), ymax := Max(regs[i].ymax, r.ymax));
        MergeNext(rs, i, j, n, before, regs[..]);
      } else {
        MergeSkip(rs, i, j, n, regs[..]);
      }
    }
    AllMerged(rs, i, j, regs[..]);
  }

  lemma NothingMerged(rs: seq<Region>, i: nat, j: nat)
    requires i < |rs| && j < |rs|
    ensures PartlyMerged(rs, i, j, 0, rs)
  {
  }

  lemma MergeSkip(rs: seq<Region>, i: nat, j: nat, n: nat, rs': seq<Region>)
    requires i < |rs| && j < |rs| && n < |rs| && PartlyMerged(rs, i, j, n, rs') && rs[n].layerId != rs[j].layerId
    ensures PartlyMerged(rs, i, j, n + 1, rs')
  {
  }

  lemma PartFacts(rs: seq<Region>, i: nat, j: nat, n: nat, rs': seq<Region>)
    requires i < |rs| && j < |rs| && n < |rs| && PartlyMerged(rs, i, j, n, rs') && rs[i].layerId != rs[j].layerId
    ensures |rs'| == |rs| && rs'[n].layerId == rs[n].layerId && rs'[i].layerId == rs[i].layerId
  {
  }

  lemma AllMerged(rs: seq<Region>, i: nat, j: nat, rs': seq<Region>)
    requires i < |rs| && j < |rs| && PartlyMerged(rs, i, j, |rs|, rs')
    ensures Merged(rs, i, j, rs')
  {
  }

  lemma GroupHeights(rs0: seq<Region>, rs: seq<Region>, own: seq<nat>, a: nat, b: nat)
    requires LayersInv(rs0, rs, own) && Grouped(rs, a, b) && rs[b].base
    ensures rs[b].ymin <= rs[a].ymin && rs[a].ymax <= rs[b].ymax
  {
    SameLayerSameBase(rs0, rs, own, a, b);
    assert Owned(rs0, rs, own, a) && Owned(rs0, rs, own, b);
  }

  ghost function Bases(rs: seq<Region>): set<nat> {
    set a: nat | a < |rs| && rs[a].base
  }

  lemma MergedFacts(rs: seq<Region>, i: nat, j: nat, rs': seq<Region>)
    requires CanMerge(rs, i, j) && Merged(rs, i, j, rs') && rs[i].layerId != rs[j].layerId
    requires forall a :: 0 <= a < |rs| ==> rs[a].layerId < NO_LAYER
    ensures Bases(rs') < Bases(rs) && rs'[i].base
    ensures forall a :: 0 <= a < |rs'| ==> rs'[a].layerId < NO_LAYER
  {
    assert j in Bases(rs) && j !in Bases(rs');
    forall a | a in Bases(rs')
      ensures a in Bases(rs)
    {
      if a != i && rs[a].layerId != rs[j].layerId {
        assert rs'[a] == rs[a];
      }
    }
  }

  lemma DifferentLayers(rs0: seq<Region>, rs: seq<Region>, own: seq<nat>, i: nat, j: nat)
    requires LayersInv(rs0, rs, own) && CanMerge(rs, i, j)
    ensures rs[i].layerId != rs[j].layerId
  {
  }

  /** No layer is left that is close to that of `i` and may be merged into it. */
  ghost predicate NothingToMerge(rs: seq<Region>, i: nat, mergeHeight: nat) {
    i < |rs| && forall k: nat :: k < |rs| && Close(rs[i], rs[k], mergeHeight) ==> !CanMerge(rs, i, k)
  }

  /** What merging into the layer of `i` does: other regions stay as they are or go over to it, whole layers at a
      time. */
  ghost predicate Absorbed(rs: seq<Region>, rs': seq<Region>, i: nat) {
    && |rs'| == |rs| && i < |rs| && rs'[i].base == rs[i].base && rs'[i].layerId == rs[i].layerId
    && (forall a :: 0 <= a < |rs| && a != i ==>
          rs'[a] == rs[a] || (!rs'[a].base && rs'[a].layerId == rs[i].layerId))
    && forall a: nat, k: nat :: Grouped(rs, a, k) ==> Grouped(rs', a, k)
  }

  lemma MergedAbsorbs(rs: seq<Region>, i: nat, j: nat, rs': seq<Region>)
    requires CanMerge(rs, i, j) && Merged(rs, i, j, rs') && rs[i].layerId != rs[j].layerId
    requires forall a :: 0 <= a < |rs| ==> rs[a].layerId < NO_LAYER
    ensures Absorbed(rs, rs', i)
  {
  }

  lemma NothingAbsorbed(rs: seq<Region>, i: nat)
    requires i < |rs|
    ensures Absorbed(rs, rs, i)
  {
  }

  lemma AbsorbedMore(rs: seq<Region>, rs1: seq<Region>, rs2: seq<Region>, i: nat)
    requires Absorbed(rs, rs1, i) && Absorbed(rs1, rs2, i)
    ensures Absorbed(rs, rs2, i)
  {
  }

  ghost predicate MayMerge(rs: seq<Region>, b: nat, a: nat, mergeHeight: nat) {
    a < |rs| && b < |rs| && Close(rs[b], rs[a], mergeHeight) && CanMerge(rs, b, a)
  }

  /** Of the first `n` regions no two are bases of layers that may be merged. */
  ghost predicate NonePending(rs: seq<Region>, n: nat, mergeHeight: nat) {
    forall a: nat, b: nat :: a < b < n ==> !MayMerge(rs, b, a, mergeHeight)
  }

  lemma NextNotPending(rs: seq<Region>, rs': seq<Region>, i: nat, mergeHeight: nat)
    requires NonePending(rs, i, mergeHeight) && Absorbed(rs, rs', i)
    requires !rs'[i].base || NothingToMerge(rs', i, mergeHeight)
    ensures NonePending(rs', i + 1, mergeHeight)
  {
    hide Close;
    forall a: nat, b: nat | a < b < i && MayMerge(rs', b, a, mergeHeight)
      ensures MayMerge(rs, b, a, mergeHeight)
    {
      assert rs'[a] == rs[a] && rs'[b] == rs[b];
    }
  }

  /** Merge layers that do not overlap and are close in height into that of `i`, until none is left. */
  method MergeInto(regs: array<Region>, i: nat, mergeHeight: nat, ghost rs0: seq<Region>, ghost own: seq<nat>)
    returns (ok: bool, ghost own': seq<nat>)
    requires OverlapsOk(rs0) && LayersInv(rs0, regs[..], own) && i < regs.Length && regs[i].base && ListsOk(regs[..])
    requires forall a :: 0 <= a < regs.Length ==> regs[a].layerId < NO_LAYER
    requires AllHeightsFrom(rs0, regs[..], own)
    modifies regs
    ensures ok ==> AllHeightsFrom(rs0, regs[..], own')
    ensures ok && AllDivided(rs0, old(regs[..]), own) ==> AllDivided(rs0, regs[..], own')
    ensures regs.Length <= RC_MAX_LAYERS ==> ok
    ensures ok ==> LayersInv(rs0, regs[..], own') && ListsOk(regs[..])
    ensures ok ==> NothingToMerge(regs[..], i, mergeHeight) && Absorbed(old(regs[..]), regs[..], i)
    ensures ok ==> forall a :: 0 <= a < regs.Length ==> regs[a].layerId < NO_LAYER
  {
    hide LayersInv, OverlapsOk, CanMerge, Merged, Close, ListsOk, Absorbed, AllHeightsFrom, AllDivided;
    own', ok := own, true;
    ghost var start := regs[..];
    NothingAbsorbed(start, i);
    var done := false;
    while !done
      invariant LayersInv(rs0, regs[..], own') && regs[i].base && ListsOk(regs[..]) && Absorbed(start, regs[..], i)
      invariant done ==> NothingToMerge(regs[..], i, mergeHeight)
      invariant AllHeightsFrom(rs0, regs[..], own')
      invariant AllDivided(rs0, start, own) ==> AllDivided(rs0, regs[..], own')
      invariant forall a :: 0 <= a < regs.Length ==> regs[a].layerId < NO_LAYER
      decreases Bases(regs[..]), !done
    {
      var j := FindMerge(regs, i, mergeHeight);
      if j == -1 {
        done := true;
      } else {
        ghost var rs := regs[..];
        DifferentLayers(rs0, rs, own', i, j);
        ok := MergeLayer(regs, i, j, rs0, own');
        if !ok {
          return;
        }
        MergedFacts(rs, i, j, regs[..]);
        MergedAbsorbs(rs, i, j, regs[..]);
        AbsorbedMore(start, rs, regs[..], i);
        MergeKeeps(rs0, rs, own', i, j, regs[..]);
        MergeHeights(rs0, rs, own', i, j, regs[..]);
        if AllDivided(rs0, rs, own') {
          MergeKeepsDivided(rs0, rs, own', i, j, regs[..]);
        }
        own' := OwnMerged(own', i, j);
      }
    }
  }

  /** Merge into each layer in turn. In the end no two layers may be merged: those looked at before do not change any
      more, unless they go over to another layer as a whole. */
  method MergeLayers(regs: array<Region>, walkableHeight: nat, ghost rs0: seq<Region>, ghost own: seq<nat>)
    returns (ok: bool, ghost own': seq<nat>)
    requires OverlapsOk(rs0) && LayersInv(rs0, regs[..], own) && ListsOk(regs[..])
    requires forall a :: 0 <= a < regs.Length ==> regs[a].layerId < NO_LAYER
    requires AllHeightsFrom(rs0, regs[..], own)
    modifies regs
    ensures ok ==> AllHeightsFrom(rs0, regs[..], own')
    ensures ok && AllDivided(rs0, old(regs[..]), own) ==> AllDivided(rs0, regs[..], own')
    ensures regs.Length <= RC_MAX_LAYERS ==> ok
    ensures ok ==> LayersInv(rs0, regs[..], own')
    ensures ok ==> forall a :: 0 <= a < regs.Length ==> regs[a].layerId < NO_LAYER
    ensures ok ==> NonePending(regs[..], regs.Length, MergeHeight(walkableHeight))
  {
    hide LayersInv, OverlapsOk, ListsOk, Absorbed, MayMerge, AllHeightsFrom, AllDivided;
    var mergeHeight := MergeHeight(walkableHeight);
    own', ok := own, true;
    for i := 0 to regs.Length
      invariant AllHeightsFrom(rs0, regs[..], own')
      invariant AllDivided(rs0, old(regs[..]), own) ==> AllDivided(rs0, regs[..], own')
      invariant LayersInv(rs0, regs[..], own') && ListsOk(regs[..]) && NonePending(regs[..], i, mergeHeight)
      invariant forall a :: 0 <= a < regs.Length ==> regs[a].layerId < NO_LAYER
    {
      ghost var rs := regs[..];
      if regs[i].base {
        ok, own' := MergeInto(regs, i, mergeHeight, rs0, own');
        if !ok {
          return;
        }
      } else {
        NothingAbsorbed(rs, i);
      }
      NextNotPending(rs, regs[..], i, mergeHeight);
    }
  }

  // ----- Compact ids -----

  /** Some region has the id. */
  predicate Used(rs: seq<Region>, id: int) {
    exists a :: 0 <= a < |rs| && rs[a].layerId == id
  }

  /** How many ids below `id` are used. */
  function Rank(rs: seq<Region>, id: nat): nat {
    if id == 0 then 0 else Rank(rs, id - 1) + if Used(rs, id - 1) then 1 else 0
  }

  lemma {:induction false} RankGrows(rs: seq<Region>, u: nat, v: nat)
    requires u <= v
    ensures Rank(rs, u) <= Rank(rs, v)
    ensures u < v && Used(rs, u) ==> Rank(rs, u) < Rank(rs, v)
  {
    if u < v {
      RankGrows(rs, u, v - 1);
    }
  }

  /** Every number below the rank of `id` is the rank of a used id. */
  lemma {:induction false} RankOnto(rs: seq<Region>, id: nat, k: nat) returns (u: nat)
    requires k < Rank(rs, id)
    ensures u < id && Used(rs, u) && Rank(rs, u) == k
  {
    if Used(rs, id - 1) && Rank(rs, id - 1) == k {
      u := id - 1;
    } else {
      u := RankOnto(rs, id - 1, k);
    }
  }

  /** The remap table: a used id's rank, else the null id. */
  method BuildRemap(regs: array<Region>) returns (remap: seq<nat>, layerId: nat)
    requires forall a :: 0 <= a < regs.Length ==> regs[a].layerId < NO_LAYER
    ensures |remap| == 256 && layerId == Rank(regs[..], 256)
    ensures forall id :: 0 <= id < 256 && Used(regs[..], id) ==> remap[id] == Rank(regs[..], id)
  {
    ghost var rs := regs[..];
    remap := seq(256, _ => 0);
    for i := 0 to regs.Length
      invariant |remap| == 256
      invariant forall id :: 0 <= id < 256 ==>
        remap[id] == if exists a :: 0 <= a < i && rs[a].layerId == id then 1 else 0
    {
      remap := remap[regs[i].layerId := 1];
    }
    layerId := 0;
    for i := 0 to 256
      invariant |remap| == 256 && layerId == Rank(rs, i)
      invariant forall id :: 0 <= id < i && Used(rs, id) ==> remap[id] == Rank(rs, id)
      invariant forall id :: i <= id < 256 ==> remap[id] == if Used(rs, id) then 1 else 0
    {
      if remap[i] != 0 {
        remap, layerId := remap[i := layerId], layerId + 1;
      } else {
        remap := remap[i := NO_LAYER];
      }
    }
  }

  /** Ids become consecutive, keep their order, and stay apart or together as they were. */
  method CompactIds(regs: array<Region>) returns (nlayers: nat)
    requires forall a :: 0 <= a < regs.Length ==> regs[a].layerId < NO_LAYER
    modifies regs
    ensures forall a :: 0 <= a < regs.Length ==> regs[a] == old(regs[a]).(layerId := regs[a].layerId)
    ensures forall a, b :: 0 <= a < regs.Length && 0 <= b < regs.Length ==>
      (regs[a].layerId < regs[b].layerId <==> old(regs[a].layerId) < old(regs[b].layerId))
    ensures forall a :: 0 <= a < regs.Length ==> regs[a].layerId < nlayers
    ensures forall k: nat :: k < nlayers ==> Used(regs[..], k)
  {
    ghost var rs := regs[..];
    var remap;
    remap, nlayers := BuildRemap(regs);
    for i := 0 to regs.Length
      invariant forall a :: 0 <= a < regs.Length ==>
        regs[a] == if a < i then rs[a].(layerId := Rank(rs, rs[a].layerId)) else rs[a]
    {
      assert Used(rs, rs[i].layerId);
      regs[i] := regs[i].(layerId := remap[regs[i].layerId]);
    }
    forall a, b | 0 <= a < regs.Length && 0 <= b < regs.Length
      ensures regs[a].layerId < regs[b].layerId <==> rs[a].layerId < rs[b].layerId
    {
      assert Used(rs, rs[a].layerId) && Used(rs, rs[b].layerId);
      if rs[a].layerId <= rs[b].layerId {
        RankGrows(rs, rs[a].layerId, rs[b].layerId);
      } else {
        RankGrows(rs, rs[b].layerId, rs[a].layerId);
      }
    }
    forall a | 0 <= a < regs.Length
      ensures regs[a].layerId < nlayers
    {
      assert Used(rs, rs[a].layerId);
      RankGrows(rs, rs[a].layerId, 256);
    }
    forall k: nat | k < nlayers
      ensures Used(regs[..], k)
    {
      var u := RankOnto(rs, 256, k);
      var a :| 0 <= a < |rs| && rs[a].layerId == u;
      assert regs[..][a].layerId == k;
    }
  }

  // ----- The whole -----

  predicate SameLayer(rs: seq<Region>, a: nat, b: nat) {
    a < |rs| && b < |rs| && rs[a].layerId == rs[b].layerId
  }

  predicate IsBaseOf(rs: seq<Region>, a: nat, id: nat) {
    a < |rs| && rs[a].base && rs[a].layerId == id
  }

  ghost predicate HasBase(rs: seq<Region>, id: nat) {
    exists a: nat :: IsBaseOf(rs, a, id)
  }

  /** Samples of two regions of one layer differ by less than 255 in height, as do those of each of the two. */
  predicate SpanOk(s: Sample, t: Sample, a: nat, b: nat) {
    a != b && (s.region == a || s.region == b) && (t.region == a || t.region == b) ==> s.y - t.y < 255
  }

  /** The layers: every id below `nlayers` has exactly one base region, no two regions that are recorded together are in
      the same layer, and the heights of a layer of several regions are less than 255 apart. */
  ghost predicate LayersAre(columns: seq<seq<Sample>>, rs: seq<Region>, nlayers: nat) {
    && (forall a :: 0 <= a < |rs| ==> rs[a].layerId < nlayers)
    && (forall id: nat :: id < nlayers ==> HasBase(rs, id))
    && (forall a: nat, b: nat, id: nat :: IsBaseOf(rs, a, id) && IsBaseOf(rs, b, id) ==> a == b)
    && (forall a: nat, b: nat :: SameLayer(rs, a, b) && a != b ==> !Together(columns, |columns|, a, b))
    && forall a: nat, b: nat :: SameLayer(rs, a, b) ==> HeightsTogether(columns, a, b)
  }

  ghost predicate HeightsTogether(columns: seq<seq<Sample>>, a: nat, b: nat) {
    forall c, d :: 0 <= c < |columns| && 0 <= d < |columns| ==>
      forall k, m :: 0 <= k < |columns[c]| && 0 <= m < |columns[d]| ==> SpanOk(columns[c][k], columns[d][m], a, b)
  }

  lemma HeightsAre(columns: seq<seq<Sample>>, rs0: seq<Region>, rs: seq<Region>, own: seq<nat>, a: nat, b: nat)
    requires LayersInv(rs0, rs, own) && Grouped(rs, a, b) && forall c :: 0 <= c < |columns| ==>
      HeightsOk(rs0, columns[c])
    ensures HeightsTogether(columns, a, b)
  {
    PartitionOk(rs0, rs, own, a, b);
    PartitionOk(rs0, rs, own, b, a);
    hide LayersInv;
    forall c, d | 0 <= c < |columns| && 0 <= d < |columns|
      ensures forall k, m :: 0 <= k < |columns[c]| && 0 <= m < |columns[d]| ==>
        SpanOk(columns[c][k], columns[d][m], a, b)
    {
      assert HeightsOk(rs0, columns[c]) && HeightsOk(rs0, columns[d]);
      forall k, m | 0 <= k < |columns[c]| && 0 <= m < |columns[d]|
        ensures SpanOk(columns[c][k], columns[d][m], a, b)
      {
        assert HeightOk(rs0, columns[c][k]) && HeightOk(rs0, columns[d][m]);
      }
    }
  }

  lemma Conclude(columns: seq<seq<Sample>>, rs0: seq<Region>, rs: seq<Region>, own: seq<nat>,
                 rs': seq<Region>, nlayers: nat)
    requires OverlapsAre(columns, |columns|, rs0) && forall c :: 0 <= c < |columns| ==> HeightsOk(rs0, columns[c])
    requires LayersInv(rs0, rs, own) && |rs'| == |rs| && forall a :: 0 <= a < |rs| ==> rs[a].layerId < NO_LAYER
    requires forall a :: 0 <= a < |rs| ==> rs'[a].base == rs[a].base && rs'[a].layerId < nlayers
    requires forall a, b :: 0 <= a < |rs| && 0 <= b < |rs| ==>
      (rs'[a].layerId < rs'[b].layerId <==> rs[a].layerId < rs[b].layerId)
    requires forall k: nat :: k < nlayers ==> Used(rs', k)
    ensures LayersAre(columns, rs', nlayers)
  {
    hide LayersInv, Together, HeightsTogether;
    Sizes(rs0, rs, own);
    forall a: nat, b: nat | SameLayer(rs', a, b)
      ensures Grouped(rs, a, b)
    {
      assert !(rs[a].layerId < rs[b].layerId) && !(rs[b].layerId < rs[a].layerId);
    }
    forall a: nat, b: nat | SameLayer(rs', a, b)
      ensures a != b ==> !Together(columns, |columns|, a, b)
      ensures HeightsTogether(columns, a, b)
      ensures rs'[a].base && rs'[b].base ==> a == b
    {
      PartitionOk(rs0, rs, own, a, b);
      HeightsAre(columns, rs0, rs, own, a, b);
      assert RowIs(columns, |columns|, rs0[a].layers, a);
    }
    forall id: nat | id < nlayers
      ensures HasBase(rs', id)
    {
      assert Used(rs', id);
      var a: nat :| a < |rs'| && rs'[a].layerId == id;
      assert Grouped(rs, a, a);
      PartitionOk(rs0, rs, own, a, a);
      var c: nat :| c < |rs| && rs[c].base && Grouped(rs, c, a);
      assert IsBaseOf(rs', c, id);
    }
  }

  /** Some region of the layer of `b` and some region of that of `a` are recorded together in a column. */
  predicate LayersMeet(columns: seq<seq<Sample>>, rs: seq<Region>, b: nat, a: nat) {
    exists c, k :: 0 <= c < |rs| && 0 <= k < |rs| &&
      SameLayer(rs, c, b) && SameLayer(rs, k, a) && Together(columns, |columns|, c, k)
  }

  /** Layers are as few as merging two of them can make: any two that are close in height and together span less than
      255 have regions that share a column. */
  ghost predicate NoneToMerge(columns: seq<seq<Sample>>, rs: seq<Region>, mergeHeight: nat) {
    forall a: nat, b: nat :: a < b < |rs| && rs[a].base && rs[b].base && Close(rs[b], rs[a], mergeHeight) &&
                             Max(rs[b].ymax, rs[a].ymax) - Min(rs[b].ymin, rs[a].ymin) < 255 ==>
      LayersMeet(columns, rs, b, a)
  }

  lemma OverlapMeans(columns: seq<seq<Sample>>, rs0: seq<Region>, rs: seq<Region>, own: seq<nat>, b: nat, k: nat)
    returns (c: nat)
    requires OverlapsAre(columns, |columns|, rs0) && LayersInv(rs0, rs, own)
    requires b < |rs| && rs[b].base && rs[b].layerId != NO_LAYER && k in rs[b].layers
    ensures c < |rs| && Grouped(rs, c, b) && Together(columns, |columns|, c, k)
  {
    hide Together, Kept, Apart;
    assert Sourced(rs0, rs, own, b) && Owned(rs0, rs, own, b);
    c :| 0 <= c < |own| && own[c] == own[b] && k in rs0[c].layers;
    assert Owned(rs0, rs, own, c);
    assert RowIs(columns, |columns|, rs0[c].layers, c);
  }

  lemma ConcludeMerged(columns: seq<seq<Sample>>, rs0: seq<Region>, rs: seq<Region>, own: seq<nat>,
                       rs': seq<Region>, mergeHeight: nat)
    requires OverlapsAre(columns, |columns|, rs0) && LayersInv(rs0, rs, own) && |rs'| == |rs|
    requires NonePending(rs, |rs|, mergeHeight) && forall a :: 0 <= a < |rs| ==> rs[a].layerId < NO_LAYER
    requires forall a :: 0 <= a < |rs| ==> rs'[a] == rs[a].(layerId := rs'[a].layerId)
    requires forall a, b :: 0 <= a < |rs| && 0 <= b < |rs| ==>
      (rs'[a].layerId < rs'[b].layerId <==> rs[a].layerId < rs[b].layerId)
    ensures NoneToMerge(columns, rs', mergeHeight)
  {
    hide LayersInv, Together, OverlapsAre;
    forall a: nat, b: nat | a < b < |rs'| && rs'[a].base && rs'[b].base && Close(rs'[b], rs'[a], mergeHeight) &&
                            Max(rs'[b].ymax, rs'[a].ymax) - Min(rs'[b].ymin, rs'[a].ymin) < 255
      ensures LayersMeet(columns, rs', b, a)
    {
      assert Close(rs[b], rs[a], mergeHeight);
      hide Close;
      assert !MayMerge(rs, b, a, mergeHeight);
      var k: nat :| Grouped(rs, k, a) && k in rs[b].layers;
      var c := OverlapMeans(columns, rs0, rs, own, b, k);
      assert !(rs[c].layerId < rs[b].layerId) && !(rs[b].layerId < rs[c].layerId);
      assert !(rs[k].layerId < rs[a].layerId) && !(rs[a].layerId < rs[k].layerId);
      assert SameLayer(rs', c, b) && SameLayer(rs', k, a);
    }
  }

  /** The heights of a layer's base are the least and the greatest of the samples of the layer, as far as 16 bits hold
      them. */
  ghost predicate LayerHeights(samples: seq<Sample>, rs: seq<Region>, b: nat)
    requires b < |rs|
  {
    && (forall s :: s in samples && SameLayer(rs, s.region, b) ==> rs[b].ymin <= s.y <= rs[b].ymax)
    && (rs[b].ymin == 0xffff || exists s :: s in samples && SameLayer(rs, s.region, b) && s.y == rs[b].ymin)
    && (rs[b].ymax == 0 || exists s :: s in samples && SameLayer(rs, s.region, b) && s.y == rs[b].ymax)
  }

  /** Base regions have their layer's heights, and every region the neighbours its samples show. */
  ghost predicate RegionsTold(samples: seq<Sample>, rs: seq<Region>) {
    forall r: nat :: r < |rs| ==> NeisExact(samples, rs[r], r) && (rs[r].base ==> LayerHeights(samples, rs, r))
  }

  /** The layers of `a` and `n` are too tall together. */
  ghost predicate LayersTall(rs: seq<Region>, a: nat, n: nat) {
    a < |rs| && n < |rs| && exists b: nat, c: nat ::
      IsBaseOf(rs, b, rs[a].layerId) && IsBaseOf(rs, c, rs[n].layerId) && TooTall(rs[b], rs[c])
  }

  /** Regions that are neighbours of each other are in one layer, unless regions of their layers share a column or the
      two layers are too tall together. */
  ghost predicate NeighboursTogether(columns: seq<seq<Sample>>, rs: seq<Region>) {
    forall a: nat, n: nat :: Neighbours(rs, a, n) ==>
      SameLayer(rs, a, n) || LayersMeet(columns, rs, a, n) || LayersTall(rs, a, n)
  }

  lemma ConcludeNeighbours(columns: seq<seq<Sample>>, rs0: seq<Region>, rs: seq<Region>, own: seq<nat>,
                           rs': seq<Region>)
    requires OverlapsAre(columns, |columns|, rs0) && LayersInv(rs0, rs, own) && AllDivided(rs0, rs, own)
    requires |rs'| == |rs| && forall a :: 0 <= a < |rs| ==> rs[a].layerId < NO_LAYER
    requires forall a :: 0 <= a < |rs| ==> rs'[a] == rs[a].(layerId := rs'[a].layerId)
    requires forall a, b :: 0 <= a < |rs| && 0 <= b < |rs| ==>
      (rs'[a].layerId < rs'[b].layerId <==> rs[a].layerId < rs[b].layerId)
    ensures NeighboursTogether(columns, rs')
  {
    hide Together;
    forall a: nat, n: nat | Neighbours(rs', a, n) && !SameLayer(rs', a, n)
      ensures LayersMeet(columns, rs', a, n) || LayersTall(rs', a, n)
    {
      NeighbourKept(rs0, rs, own, a);
      NeighbourKept(rs0, rs, own, n);
      assert Neighbours(rs0, a, n) && Divided(rs0, rs, own, a, n);
      hide LayersInv;
      if TooTall(rs[own[a]], rs[own[n]]) {
        assert IsBaseOf(rs', own[a], rs'[a].layerId) && IsBaseOf(rs', own[n], rs'[n].layerId);
      } else {
        var x: nat, y: nat :| x < |own| && y < |own| && own[x] == own[a] && own[y] == own[n] && y in rs0[x].layers;
        NeighbourKept(rs0, rs, own, x);
        NeighbourKept(rs0, rs, own, y);
        assert RowIs(columns, |columns|, rs0[x].layers, x);
        assert SameLayer(rs', x, a) && SameLayer(rs', y, n);
      }
    }
  }

  lemma NeighbourKept(rs0: seq<Region>, rs: seq<Region>, own: seq<nat>, a: nat)
    requires LayersInv(rs0, rs, own) && a < |rs| && rs[a].layerId < NO_LAYER
    ensures |own| == |rs0| == |rs| && rs[a].neis == rs0[a].neis
    ensures own[a] < |rs| && rs[own[a]].base && rs[own[a]].layerId == rs[a].layerId
  {
    assert Kept(rs0, rs, a) && Owned(rs0, rs, own, a);
  }

  lemma ConcludeTold(samples: seq<Sample>, rs0: seq<Region>, rs: seq<Region>, own: seq<nat>, rs': seq<Region>)
    requires LayersInv(rs0, rs, own) && AllHeightsFrom(rs0, rs, own) && RegionsExact(samples, rs0)
    requires |rs'| == |rs| && forall a :: 0 <= a < |rs| ==> rs[a].layerId < NO_LAYER
    requires forall a :: 0 <= a < |rs| ==> rs'[a] == rs[a].(layerId := rs'[a].layerId)
    requires forall a, b :: 0 <= a < |rs| && 0 <= b < |rs| ==>
      (rs'[a].layerId < rs'[b].layerId <==> rs[a].layerId < rs[b].layerId)
    ensures RegionsTold(samples, rs')
  {
    assert |rs0| == |rs| == |own|;
    hide LayersInv, AllHeightsFrom, Adjoins, RegionExact;
    forall r: nat | r < |rs'|
      ensures NeisExact(samples, rs'[r], r) && (rs'[r].base ==> LayerHeights(samples, rs', r))
    {
      assert RegionExact(samples, rs0[r], r);
      ExactParts(samples, rs0[r], r);
      NeighbourKept(rs0, rs, own, r);
      if rs'[r].base {
        ConcludeHeights(samples, rs0, rs, own, rs', r);
      }
    }
  }

  lemma ConcludeHeights(samples: seq<Sample>, rs0: seq<Region>, rs: seq<Region>, own: seq<nat>, rs': seq<Region>,
                        b: nat)
    requires LayersInv(rs0, rs, own) && AllHeightsFrom(rs0, rs, own) && RegionsExact(samples, rs0)
    requires |rs'| == |rs| && b < |rs| && rs[b].base && forall a :: 0 <= a < |rs| ==> rs[a].layerId < NO_LAYER
    requires forall a :: 0 <= a < |rs| ==> rs'[a] == rs[a].(layerId := rs'[a].layerId)
    requires forall a, b :: 0 <= a < |rs| && 0 <= b < |rs| ==>
      (rs'[a].layerId < rs'[b].layerId <==> rs[a].layerId < rs[b].layerId)
    ensures LayerHeights(samples, rs', b)
  {
    assert HeightsFrom(rs0, rs, own, b) && Owned(rs0, rs, own, b) && Kept(rs0, rs, b);
    assert rs'[b].ymin == rs[b].ymin && rs'[b].ymax == rs[b].ymax;
    assert |own| == |rs0| == |rs|;
    forall a | 0 <= a < |rs|
      ensures own[a] == b ==> SameLayer(rs', a, b)
    {
      NeighbourKept(rs0, rs, own, a);
    }
    forall s | s in samples && SameLayer(rs', s.region, b)
      ensures rs[b].ymin <= s.y <= rs[b].ymax
    {
      ExactHeights(samples, rs0, s.region);
      MemberHeights(rs0, rs, own, s.region, b);
    }
    hide LayersInv, AllHeightsFrom, Kept, Owned, RegionsExact;
    var x: nat :| x < |own| && own[x] == b && rs0[x].ymin == rs[b].ymin;
    var y: nat :| y < |own| && own[y] == b && rs0[y].ymax == rs[b].ymax;
    ExactHeights(samples, rs0, x);
    ExactHeights(samples, rs0, y);
  }

  lemma ExactHeights(samples: seq<Sample>, rs: seq<Region>, id: nat)
    requires RegionsExact(samples, rs) && id < |rs|
    ensures HeightsExact(samples, rs[id], id)
  {
    assert RegionExact(samples, rs[id], id);
  }

  lemma MemberHeights(rs0: seq<Region>, rs: seq<Region>, own: seq<nat>, a: nat, b: nat)
    requires LayersInv(rs0, rs, own) && a < |rs| && b < |rs| && rs[b].base && Grouped(rs, a, b)
    ensures rs[b].ymin <= rs0[a].ymin && rs0[a].ymax <= rs[b].ymax
  {
    SameLayerSameBase(rs0, rs, own, a, b);
    assert Owned(rs0, rs, own, a) && Owned(rs0, rs, own, b);
  }

  /** rcBuildHeightfieldLayers, from the columns of samples to the layer of every region. It can fail only when overlap
      lists overflow, which takes more than 63 regions. */
  method BuildLayers(columns: seq<seq<Sample>>, regs: array<Region>, walkableHeight: nat) returns (ok: bool,
                     nlayers: nat)
    requires regs.Length <= NO_REGION && forall c :: 0 <= c < |columns| ==> ColumnOk(columns[c], regs.Length)
    modifies regs
    ensures ok ==> LayersAre(columns, regs[..], nlayers)
    ensures ok ==> NoneToMerge(columns, regs[..], MergeHeight(walkableHeight))
    ensures ok ==> RegionsTold(AllSamples(columns, |columns|), regs[..])
    ensures ok && regs.Length <= MAX_STACK ==> NeighboursTogether(columns, regs[..])
    ensures regs.Length <= RC_MAX_LAYERS ==> ok
  {
    hide LayersInv, LayersAre, OverlapsOk, OverlapsAre, HeightsOk, ColumnOk, ListsOk, NonePending, NoneToMerge;
    hide RegionsExact, AllHeightsFrom, AllFenced, AllDivided, NeighboursTogether, RegionsTold;
    nlayers := 0;
    ok := FindOverlaps(columns, regs);
    if !ok {
      return;
    }
    ghost var rs0, own := regs[..], [];
    OverlapsSymmetric(columns, rs0);
    ok, own := SearchLayers(regs);
    if !ok {
      return;
    }
    if regs.Length <= MAX_STACK {
      FencedAllDivides(rs0, regs[..], own);
    }
    ok, own := MergeLayers(regs, walkableHeight, rs0, own);
    if !ok {
      return;
    }
    ghost var rs := regs[..];
    nlayers := CompactIds(regs);
    Conclude(columns, rs0, rs, own, regs[..], nlayers);
    ConcludeMerged(columns, rs0, rs, own, regs[..], MergeHeight(walkableHeight));
    ConcludeTold(AllSamples(columns, |columns|), rs0, rs, own, regs[..]);
    if regs.Length <= MAX_STACK {
      ConcludeNeighbours(columns, rs0, rs, own, regs[..]);
    }
  }
}
