/** Grouping height-field regions into layers without overlaps, as values: what every step keeps. */
module LayersModel {
  import opened Basics

  const RC_MAX_LAYERS := 63
  const RC_MAX_NEIS := 16
  const NO_LAYER := 0xff

  /** `layers` are the regions it overlaps; a base region also collects those of the regions grouped with it. */
  datatype Region = Region(layers: seq<nat>, neis: seq<nat>, ymin: nat, ymax: nat, layerId: nat, base: bool)

  /** Overlaps are recorded both ways, and no region overlaps itself. */
  ghost predicate OverlapsOk(rs: seq<Region>) {
    && (forall a, b :: 0 <= a < |rs| && b in rs[a].layers ==> b < |rs| && b != a)
    && forall a, b :: 0 <= a < |rs| && 0 <= b < |rs| && b in rs[a].layers ==> a in rs[b].layers
  }

  /** No region is in a layer yet. */
  predicate Unassigned(rs: seq<Region>) {
    forall a :: 0 <= a < |rs| ==> rs[a].layerId == NO_LAYER && !rs[a].base
  }

  /** Two regions are in the same layer. */
  predicate Grouped(rs: seq<Region>, a: nat, b: nat) {
    a < |rs| && b < |rs| && rs[a].layerId == rs[b].layerId != NO_LAYER
  }

  // ----- The invariant; own[a] is the base region of the layer of `a`, or no region -----

  /** A region loses no overlaps, and nothing changes before it is in a layer. */
  predicate Kept(rs0: seq<Region>, rs: seq<Region>, a: nat)
    requires a < |rs| == |rs0|
  {
    && rs[a].neis == rs0[a].neis && (forall k :: 0 <= k < |rs0[a].layers| ==> rs0[a].layers[k] in rs[a].layers)
    && (rs[a].layerId == NO_LAYER ==> rs[a] == rs0[a])
  }

  /** The region's base is a base region of the same layer, with the region's overlaps and heights. */
  ghost predicate Owned(rs0: seq<Region>, rs: seq<Region>, own: seq<nat>, a: nat)
    requires a < |rs| == |rs0| == |own|
  {
    if rs[a].layerId == NO_LAYER then own[a] == |rs| && !rs[a].base
    else
      var b := own[a];
      && b < |rs| && rs[b].base && rs[b].layerId == rs[a].layerId && own[b] == b && (rs[a].base ==> b == a)
      && (forall x :: x in rs[a].layers ==> x in rs[b].layers)
      && rs[a].ymin <= rs0[a].ymin && rs0[a].ymax <= rs[a].ymax
      && rs[b].ymin <= rs[a].ymin && rs[a].ymax <= rs[b].ymax && (a != b ==> rs[b].ymax - rs[b].ymin < 255)
  }

  /** Different base regions have different layers. */
  predicate BasesDiffer(rs: seq<Region>) {
    forall b, c :: 0 <= b < |rs| && 0 <= c < |rs| && rs[b].base && rs[c].base && rs[b].layerId == rs[c].layerId ==>
      b == c
  }

  /** Some region of the layer of `b` overlaps `x`. */
  predicate Source(rs0: seq<Region>, own: seq<nat>, b: nat, x: nat)
    requires |own| == |rs0|
  {
    exists c :: 0 <= c < |own| && own[c] == b && x in rs0[c].layers
  }

  /** What a region has collected comes from its layer. */
  ghost predicate Sourced(rs0: seq<Region>, rs: seq<Region>, own: seq<nat>, a: nat)
    requires a < |rs| == |rs0| == |own|
  {
    rs[a].layerId != NO_LAYER ==> forall x :: x in rs[a].layers ==> Source(rs0, own, own[a], x)
  }

  /** No region has collected a region of its own layer. */
  ghost predicate Apart(rs: seq<Region>) {
    forall a: nat, b: nat :: Grouped(rs, a, b) ==> b !in rs[a].layers
  }

  ghost predicate LayersInv(rs0: seq<Region>, rs: seq<Region>, own: seq<nat>) {
    && |rs| == |rs0| == |own|
    && (forall a :: 0 <= a < |rs| ==> Kept(rs0, rs, a))
    && (forall a :: 0 <= a < |rs| ==> Owned(rs0, rs, own, a))
    && BasesDiffer(rs)
    && (forall a :: 0 <= a < |rs| ==> Sourced(rs0, rs, own, a))
    && Apart(rs)
  }

  /** Regions are in the same layer exactly if they have the same base. */
  lemma SameLayerSameBase(rs0: seq<Region>, rs: seq<Region>, own: seq<nat>, a: nat, b: nat)
    requires LayersInv(rs0, rs, own) && a < |rs| && b < |rs| && rs[a].layerId != NO_LAYER
    ensures Grouped(rs, a, b) <==> own[a] == own[b]
  {
    hide Kept, Sourced, Apart;
    assert Owned(rs0, rs, own, a) && Owned(rs0, rs, own, b);
  }

  /** What the invariant means for the layers: overlapping regions are in different ones, each has one base region, and
      one of several regions spans less than 255. */
  lemma PartitionOk(rs0: seq<Region>, rs: seq<Region>, own: seq<nat>, a: nat, b: nat)
    requires LayersInv(rs0, rs, own) && Grouped(rs, a, b)
    ensures b !in rs0[a].layers
    ensures exists c :: 0 <= c < |rs| && rs[c].base && Grouped(rs, c, a)
    ensures rs[a].base && rs[b].base ==> a == b
    ensures a != b ==> rs0[a].ymax - rs0[b].ymin < 255 && rs0[a].ymax - rs0[a].ymin < 255
  {
    hide Sourced;
    assert Owned(rs0, rs, own, a) && Owned(rs0, rs, own, b) && Kept(rs0, rs, a);
    SameLayerSameBase(rs0, rs, own, a, b);
    assert rs[own[a]].base && Grouped(rs, own[a], a);
    assert Owned(rs0, rs, own, own[a]);
  }

  lemma Start(rs: seq<Region>)
    requires Unassigned(rs)
    ensures LayersInv(rs, rs, seq(|rs|, _ => |rs|))
  {
  }

  // ----- A new layer -----

  /** A region without a layer starts a new one. */
  lemma RootKeeps(rs0: seq<Region>, rs: seq<Region>, own: seq<nat>, i: nat, id: nat, rs': seq<Region>)
    requires OverlapsOk(rs0) && LayersInv(rs0, rs, own) && i < |rs| && rs[i].layerId == NO_LAYER && id != NO_LAYER
    requires forall a :: 0 <= a < |rs| ==> rs[a].layerId != id
    requires rs' == rs[i := rs[i].(layerId := id, base := true)]
    ensures LayersInv(rs0, rs', own[i := i])
  {
    var own' := own[i := i];
    assert Owned(rs0, rs, own, i) && Kept(rs0, rs, i);
    forall a | 0 <= a < |rs'|
      ensures Owned(rs0, rs', own', a) && Kept(rs0, rs', a)
    {
      assert Owned(rs0, rs, own, a) && Kept(rs0, rs, a);
    }
    forall a | 0 <= a < |rs'|
      ensures Sourced(rs0, rs', own', a)
    {
      assert Sourced(rs0, rs, own, a) && Owned(rs0, rs, own, a);
      if a != i && rs[a].layerId != NO_LAYER {
        forall x | x in rs'[a].layers
          ensures Source(rs0, own', own'[a], x)
        {
          var c :| 0 <= c < |own| && own[c] == own[a] && x in rs0[c].layers;
          assert own'[c] == own'[a];
        }
      } else if a == i {
        assert own'[i] == i;
      }
    }
  }

  // ----- A region joins -----

  /** `v` is `r` after it took in the region `s`. */
  ghost predicate TookIn(r: Region, s: Region, v: Region) {
    && (forall x :: x in v.layers <==> x in r.layers || x in s.layers)
    && v.ymin == Min(r.ymin, s.ymin) && v.ymax == Max(r.ymax, s.ymax)
    && v.neis == r.neis && v.layerId == r.layerId && v.base == r.base
  }

  /** Region `n` may join the layer of base region `i`. */
  predicate CanJoin(rs: seq<Region>, i: nat, n: nat) {
    && i < |rs| && rs[i].base && n < |rs| && n != i && rs[i].layerId != NO_LAYER == rs[n].layerId
    && n !in rs[i].layers && Max(rs[i].ymax, rs[n].ymax) - Min(rs[i].ymin, rs[n].ymin) < 255
  }

  ghost predicate Joined(rs: seq<Region>, i: nat, n: nat, rs': seq<Region>)
    requires i < |rs| && n < |rs| && i != n
  {
    && |rs'| == |rs| && rs'[n] == rs[n].(layerId := rs[i].layerId) && TookIn(rs[i], rs[n], rs'[i])
    && forall a :: 0 <= a < |rs| && a != i && a != n ==> rs'[a] == rs[a]
  }

  lemma JoinKeeps(rs0: seq<Region>, rs: seq<Region>, own: seq<nat>, i: nat, n: nat, rs': seq<Region>)
    requires OverlapsOk(rs0) && LayersInv(rs0, rs, own) && CanJoin(rs, i, n) && Joined(rs, i, n, rs')
    ensures LayersInv(rs0, rs', own[n := i])
  {
    hide Owned, Kept, Sourced, Apart, BasesDiffer, Joined;
    JoinKeepsOwned(rs0, rs, own, i, n, rs', own[n := i]);
    JoinKeepsSourced(rs0, rs, own, i, n, rs', own[n := i]);
    JoinKeepsApart(rs0, rs, own, i, n, rs');
  }

  lemma JoinKeepsOwned(rs0: seq<Region>, rs: seq<Region>, own: seq<nat>, i: nat, n: nat, rs': seq<Region>,
                       own': seq<nat>)
    requires LayersInv(rs0, rs, own) && CanJoin(rs, i, n) && Joined(rs, i, n, rs') && own' == own[n := i]
    ensures |rs'| == |rs0| == |own'| && BasesDiffer(rs')
    ensures forall a :: 0 <= a < |rs'| ==> Owned(rs0, rs', own', a)
    ensures forall a :: 0 <= a < |rs'| ==> Kept(rs0, rs', a)
  {
    hide Sourced, Apart;
    assert Owned(rs0, rs, own, i) && Owned(rs0, rs, own, n) && Kept(rs0, rs, n) && Kept(rs0, rs, i);
    forall a | 0 <= a < |rs'|
      ensures Owned(rs0, rs', own', a) && Kept(rs0, rs', a)
    {
      assert Owned(rs0, rs, own, a) && Kept(rs0, rs, a);
      assert own[a] < |rs| ==> Owned(rs0, rs, own, own[a]);
    }
  }

  lemma JoinKeepsSourced(rs0: seq<Region>, rs: seq<Region>, own: seq<nat>, i: nat, n: nat, rs': seq<Region>,
                         own': seq<nat>)
    requires LayersInv(rs0, rs, own) && CanJoin(rs, i, n) && Joined(rs, i, n, rs') && own' == own[n := i]
    ensures |rs'| == |rs0| == |own'|
    ensures forall a :: 0 <= a < |rs'| ==> Sourced(rs0, rs', own', a)
  {
    hide Apart, BasesDiffer;
    assert Owned(rs0, rs, own, i) && Owned(rs0, rs, own, n) && Kept(rs0, rs, n);
    forall a | 0 <= a < |rs'|
      ensures Sourced(rs0, rs', own', a)
    {
      assert Sourced(rs0, rs, own, a) && Owned(rs0, rs, own, a);
      if rs'[a].layerId != NO_LAYER {
        forall x | x in rs'[a].layers
          ensures Source(rs0, own', own'[a], x)
        {
          if a == n || (a == i && x in rs[n].layers) {
            assert own'[n] == own'[a] && x in rs0[n].layers;
          } else {
            var c :| 0 <= c < |own| && own[c] == own[a] && x in rs0[c].layers;
            assert own'[c] == own'[a];
          }
        }
      }
    }
  }

  /** The joining region overlaps nothing in the layer. */
  lemma JoinApart(rs0: seq<Region>, rs: seq<Region>, own: seq<nat>, i: nat, n: nat, a: nat)
    requires OverlapsOk(rs0) && LayersInv(rs0, rs, own) && CanJoin(rs, i, n) && Grouped(rs, a, i)
    ensures n !in rs[a].layers && a !in rs[n].layers && n !in rs[n].layers
  {
    hide Sourced, Apart;
    SameLayerSameBase(rs0, rs, own, a, i);
    assert Owned(rs0, rs, own, i) && Owned(rs0, rs, own, a) && Kept(rs0, rs, n) && Kept(rs0, rs, a);
    assert n !in rs0[a].layers;
  }

  lemma JoinKeepsApart(rs0: seq<Region>, rs: seq<Region>, own: seq<nat>, i: nat, n: nat, rs': seq<Region>)
    requires OverlapsOk(rs0) && LayersInv(rs0, rs, own) && CanJoin(rs, i, n) && Joined(rs, i, n, rs')
    ensures Apart(rs')
  {
    hide Owned, Kept, Sourced, BasesDiffer, OverlapsOk;
    forall a: nat, b: nat | Grouped(rs', a, b)
      ensures b !in rs'[a].layers
    {
      JoinApart(rs0, rs, own, i, n, i);
      if Grouped(rs, a, i) {
        JoinApart(rs0, rs, own, i, n, a);
      }
      if Grouped(rs, b, i) {
        JoinApart(rs0, rs, own, i, n, b);
      }
    }
  }

  // ----- Layers merge -----

  /** The layer of base region `j` may be merged into that of base region `i`. */
  ghost predicate CanMerge(rs: seq<Region>, i: nat, j: nat) {
    && i < |rs| && rs[i].base && j < |rs| && rs[j].base && i != j
    && Max(rs[i].ymax, rs[j].ymax) - Min(rs[i].ymin, rs[j].ymin) < 255
    && forall k: nat :: Grouped(rs, k, j) ==> k !in rs[i].layers
  }

  /** The layer of `j` was merged into that of `i`. */
  ghost predicate Merged(rs: seq<Region>, i: nat, j: nat, rs': seq<Region>)
    requires i < |rs| && j < |rs|
  {
    && |rs'| == |rs|
    && (forall a :: 0 <= a < |rs| && rs[a].layerId == rs[j].layerId ==>
          rs'[a] == rs[a].(layerId := rs[i].layerId, base := false))
    && (forall a :: 0 <= a < |rs| && rs[a].layerId != rs[j].layerId && a != i ==> rs'[a] == rs[a])
    && rs'[i].layerId == rs[i].layerId && rs'[i].base == rs[i].base && rs'[i].neis == rs[i].neis
    && (forall x :: x in rs'[i].layers ==> x in rs[i].layers || MergedFrom(rs, j, x))
    && (forall x :: x in rs[i].layers ==> x in rs'[i].layers)
    && (forall k: nat :: Grouped(rs, k, j) ==> Includes(rs'[i], rs[k]))
    && Min(rs[i].ymin, rs[j].ymin) <= rs'[i].ymin <= rs[i].ymin
    && rs[i].ymax <= rs'[i].ymax <= Max(rs[i].ymax, rs[j].ymax)
  }

  /** Some region of the layer of `j` has collected `x`. */
  predicate MergedFrom(rs: seq<Region>, j: nat, x: nat) {
    exists k :: 0 <= k < |rs| && Grouped(rs, k, j) && x in rs[k].layers
  }

  ghost predicate Includes(r: Region, s: Region) {
    && (forall x :: x in s.layers ==> x in r.layers) && r.ymin <= s.ymin && s.ymax <= r.ymax
  }

  /** The base regions after the merge. */
  ghost function OwnMerged(own: seq<nat>, i: nat, j: nat): (own': seq<nat>)
    ensures |own'| == |own| && forall a :: 0 <= a < |own| ==> own'[a] == if own[a] == j then i else own[a]
  {
    seq(|own|, a requires 0 <= a < |own| => if own[a] == j then i else own[a])
  }

  /** Nothing in one of two layers that may be merged overlaps anything in the other. */
  lemma MergeApart(rs0: seq<Region>, rs: seq<Region>, own: seq<nat>, i: nat, j: nat, a: nat, b: nat)
    requires OverlapsOk(rs0) && LayersInv(rs0, rs, own) && CanMerge(rs, i, j) && Grouped(rs, a, i) && Grouped(rs, b, j)
    ensures b !in rs[a].layers && a !in rs[b].layers
  {
    hide Apart;
    assert Owned(rs0, rs, own, a) && Owned(rs0, rs, own, b) && Owned(rs0, rs, own, i) && Owned(rs0, rs, own, j);
    assert Kept(rs0, rs, a) && Sourced(rs0, rs, own, b);
    forall c | 0 <= c < |own| && own[c] == own[b]
      ensures a !in rs0[c].layers
    {
      assert Owned(rs0, rs, own, c) && Grouped(rs, c, j);
      assert c !in rs0[a].layers;
    }
  }

  lemma MergeKeepsApart(rs0: seq<Region>, rs: seq<Region>, own: seq<nat>, i: nat, j: nat, rs': seq<Region>)
    requires OverlapsOk(rs0) && LayersInv(rs0, rs, own) && CanMerge(rs, i, j) && Merged(rs, i, j, rs')
    ensures Apart(rs')
  {
    assert Owned(rs0, rs, own, i) && Owned(rs0, rs, own, j);
    hide Owned, Kept, Sourced, OverlapsOk;
    forall a: nat, b: nat | Grouped(rs', a, b)
      ensures b !in rs'[a].layers
    {
      if Grouped(rs, a, i) && Grouped(rs, b, j) {
        MergeApart(rs0, rs, own, i, j, a, b);
      } else if Grouped(rs, b, i) && Grouped(rs, a, j) {
        MergeApart(rs0, rs, own, i, j, b, a);
      }
      if a == i && b in rs'[i].layers && b !in rs[i].layers {
        var k :| 0 <= k < |rs| && Grouped(rs, k, j) && b in rs[k].layers;
        if Grouped(rs, b, i) {
          MergeApart(rs0, rs, own, i, j, b, k);
        }
      }
    }
  }

  lemma MergeKeepsOwned(rs0: seq<Region>, rs: seq<Region>, own: seq<nat>, i: nat, j: nat, rs': seq<Region>,
                        own': seq<nat>)
    requires LayersInv(rs0, rs, own) && CanMerge(rs, i, j) && Merged(rs, i, j, rs') && own' == OwnMerged(own, i, j)
    ensures |rs'| == |rs0| == |own'| && BasesDiffer(rs')
    ensures forall a :: 0 <= a < |rs'| ==> Owned(rs0, rs', own', a)
    ensures forall a :: 0 <= a < |rs'| ==> Kept(rs0, rs', a)
  {
    hide Sourced, Apart;
    assert Owned(rs0, rs, own, i) && Owned(rs0, rs, own, j);
    forall a | 0 <= a < |rs'|
      ensures Owned(rs0, rs', own', a) && Kept(rs0, rs', a)
    {
      assert Owned(rs0, rs, own, a) && Kept(rs0, rs, a);
      assert own[a] < |rs| ==> Owned(rs0, rs, own, own[a]);
      assert Grouped(rs, a, j) ==> Includes(rs'[i], rs[a]);
    }
  }

  lemma MergeKeepsSourced(rs0: seq<Region>, rs: seq<Region>, own: seq<nat>, i: nat, j: nat, rs': seq<Region>,
                          own': seq<nat>)
    requires LayersInv(rs0, rs, own) && CanMerge(rs, i, j) && Merged(rs, i, j, rs') && own' == OwnMerged(own, i, j)
    ensures |rs'| == |rs0| == |own'|
    ensures forall a :: 0 <= a < |rs'| ==> Sourced(rs0, rs', own', a)
  {
    hide Apart, BasesDiffer;
    assert Owned(rs0, rs, own, i) && Owned(rs0, rs, own, j);
    forall a | 0 <= a < |rs'|
      ensures Sourced(rs0, rs', own', a)
    {
      assert Owned(rs0, rs, own, a);
      if rs'[a].layerId != NO_LAYER {
        forall x | x in rs'[a].layers
          ensures Source(rs0, own', own'[a], x)
        {
          var d := a;
          if x !in rs[a].layers {
            d :| 0 <= d < |rs| && Grouped(rs, d, j) && x in rs[d].layers;
            SameLayerSameBase(rs0, rs, own, d, j);
            assert a == i;
          }
          assert Sourced(rs0, rs, own, d) && Owned(rs0, rs, own, d);
          var c :| 0 <= c < |own| && own[c] == own[d] && x in rs0[c].layers;
          assert own'[c] == own'[a];
        }
      }
    }
  }

  lemma MergeKeeps(rs0: seq<Region>, rs: seq<Region>, own: seq<nat>, i: nat, j: nat, rs': seq<Region>)
    requires OverlapsOk(rs0) && LayersInv(rs0, rs, own) && CanMerge(rs, i, j) && Merged(rs, i, j, rs')
    ensures LayersInv(rs0, rs', OwnMerged(own, i, j))
  {
    hide Owned, Kept, Sourced, Apart, BasesDiffer, CanMerge, Merged;
    MergeKeepsOwned(rs0, rs, own, i, j, rs', OwnMerged(own, i, j));
    MergeKeepsSourced(rs0, rs, own, i, j, rs', OwnMerged(own, i, j));
    MergeKeepsApart(rs0, rs, own, i, j, rs');
  }

  // ----- Neighbours in different layers -----

  /** Both together span too many heights for one layer. */
  predicate TooTall(r: Region, s: Region) {
    Max(r.ymax, s.ymax) - Min(r.ymin, s.ymin) >= 255
  }

  /** Some region of the layer of base `b` overlaps some region of that of base `c`. */
  ghost predicate BasesMeet(rs0: seq<Region>, own: seq<nat>, b: nat, c: nat)
    requires |own| == |rs0|
  {
    exists x, y :: 0 <= x < |own| && 0 <= y < |own| && own[x] == b && own[y] == c && y in rs0[x].layers
  }

  /** Each region is recorded as a neighbour of the other. */
  predicate Neighbours(rs0: seq<Region>, a: nat, n: nat) {
    a < |rs0| && n < |rs0| && n in rs0[a].neis && a in rs0[n].neis
  }

  ghost predicate Divided(rs0: seq<Region>, rs: seq<Region>, own: seq<nat>, a: nat, n: nat)
    requires |own| == |rs0| == |rs| && a < |rs| && n < |rs|
  {
    own[a] != own[n] ==>
      && own[a] < |rs| && own[n] < |rs|
      && (TooTall(rs[own[a]], rs[own[n]]) || BasesMeet(rs0, own, own[a], own[n]))
  }

  /** Neighbours that are not in one layer could not be: their layers overlap or are too tall together. */
  ghost predicate AllDivided(rs0: seq<Region>, rs: seq<Region>, own: seq<nat>) {
    |own| == |rs0| == |rs| && forall a: nat, n: nat :: Neighbours(rs0, a, n) ==> Divided(rs0, rs, own, a, n)
  }

  /** What the search leaves of neighbour `n` of a region in the layer `id` of base `b`: it is in that layer or an
      earlier one, overlaps the layer, or would make it too tall. */
  predicate Fenced(rs: seq<Region>, b: nat, n: nat, id: nat) {
    b < |rs| && n < |rs| && (rs[n].layerId <= id || n in rs[b].layers || TooTall(rs[b], rs[n]))
  }

  /** That holds of all neighbours of regions in layers below `upto`. */
  ghost predicate AllFenced(rs0: seq<Region>, rs: seq<Region>, upto: nat) {
    |rs| == |rs0| && forall a: nat, b: nat, n: nat ::
      Grouped(rs, a, b) && rs[b].base && rs[a].layerId < upto && n in rs0[a].neis ==> Fenced(rs, b, n, rs[a].layerId)
  }

  lemma FencedDivides(rs0: seq<Region>, rs: seq<Region>, own: seq<nat>, a: nat, n: nat)
    requires OverlapsOk(rs0) && LayersInv(rs0, rs, own) && a < |rs| && n < |rs|
    requires rs[a].layerId != NO_LAYER && rs[n].layerId > rs[a].layerId && rs[n].layerId != NO_LAYER
    requires Fenced(rs, own[a], n, rs[a].layerId)
    ensures Divided(rs0, rs, own, a, n) && Divided(rs0, rs, own, n, a)
  {
    assert Owned(rs0, rs, own, a) && Owned(rs0, rs, own, n) && Owned(rs0, rs, own, own[a]);
    assert Sourced(rs0, rs, own, own[a]);
    hide Apart, Kept;
    var b, c := own[a], own[n];
    if !TooTall(rs[b], rs[n]) {
      var x :| 0 <= x < |own| && own[x] == b && n in rs0[x].layers;
      assert x in rs0[n].layers;
      assert BasesMeet(rs0, own, b, c) && BasesMeet(rs0, own, c, b);
    }
  }

  /** When the search is over. */
  lemma FencedAllDivides(rs0: seq<Region>, rs: seq<Region>, own: seq<nat>)
    requires OverlapsOk(rs0) && LayersInv(rs0, rs, own) && AllFenced(rs0, rs, NO_LAYER)
    requires forall a :: 0 <= a < |rs| ==> rs[a].layerId < NO_LAYER
    ensures AllDivided(rs0, rs, own)
  {
    assert |own| == |rs| == |rs0|;
    forall a: nat, n: nat | Neighbours(rs0, a, n)
      ensures Divided(rs0, rs, own, a, n)
    {
      assert Owned(rs0, rs, own, a) && Owned(rs0, rs, own, n);
      assert Grouped(rs, a, own[a]) && Grouped(rs, n, own[n]);
      if rs[a].layerId == rs[n].layerId {
        SameLayerSameBase(rs0, rs, own, a, n);
      } else if rs[a].layerId < rs[n].layerId {
        FencedDivides(rs0, rs, own, a, n);
      } else {
        FencedDivides(rs0, rs, own, n, a);
      }
    }
  }

  lemma MergeKeepsDivided(rs0: seq<Region>, rs: seq<Region>, own: seq<nat>, i: nat, j: nat, rs': seq<Region>)
    requires LayersInv(rs0, rs, own) && CanMerge(rs, i, j) && Merged(rs, i, j, rs') && AllDivided(rs0, rs, own)
    ensures |rs'| == |rs| && AllDivided(rs0, rs', OwnMerged(own, i, j))
  {
    var own' := OwnMerged(own, i, j);
    assert |own'| == |own| == |rs| == |rs0| == |rs'|;
    forall a: nat, n: nat | Neighbours(rs0, a, n)
      ensures Divided(rs0, rs', own', a, n)
    {
      assert Divided(rs0, rs, own, a, n);
      if own'[a] != own'[n] {
        MergedWider(rs0, rs, own, i, j, rs', own[a]);
        MergedWider(rs0, rs, own, i, j, rs', own[n]);
        hide LayersInv, Merged, CanMerge;
        if !TooTall(rs[own[a]], rs[own[n]]) {
          StillMeet(rs0, own, own', own[a], own[n], own'[a], own'[n]);
        }
      }
    }
  }

  lemma StillMeet(rs0: seq<Region>, own: seq<nat>, own': seq<nat>, b: nat, c: nat, b': nat, c': nat)
    requires |own| == |own'| == |rs0| && BasesMeet(rs0, own, b, c)
    requires forall x :: 0 <= x < |own| ==> (own[x] == b ==> own'[x] == b') && (own[x] == c ==> own'[x] == c')
    ensures BasesMeet(rs0, own', b', c')
  {
    var x, y :| 0 <= x < |own| && 0 <= y < |own| && own[x] == b && own[y] == c && y in rs0[x].layers;
    assert own'[x] == b' && own'[y] == c';
  }

  lemma MergedWider(rs0: seq<Region>, rs: seq<Region>, own: seq<nat>, i: nat, j: nat, rs': seq<Region>, b: nat)
    requires LayersInv(rs0, rs, own) && CanMerge(rs, i, j) && Merged(rs, i, j, rs') && b < |rs|
    requires exists a :: 0 <= a < |own| && own[a] == b
    ensures var b' := if b == j then i else b;
      |rs'| == |rs| && rs'[b'].ymin <= rs[b].ymin && rs[b].ymax <= rs'[b'].ymax
  {
    var a :| 0 <= a < |own| && own[a] == b;
    assert Owned(rs0, rs, own, a) && Owned(rs0, rs, own, i) && Owned(rs0, rs, own, j);
    hide Kept, Sourced, Apart;
    if b == j {
      assert Grouped(rs, j, j) && Includes(rs'[i], rs[j]);
    } else if b != i {
      assert rs[b].layerId != rs[j].layerId;
    }
  }

  // ----- Where a layer's heights come from -----

  /** The heights of base `b` are those of regions of its layer. */
  ghost predicate HeightsFrom(rs0: seq<Region>, rs: seq<Region>, own: seq<nat>, b: nat)
    requires |own| == |rs0| == |rs| && b < |rs|
  {
    && (exists x :: 0 <= x < |own| && own[x] == b && rs0[x].ymin == rs[b].ymin)
    && (exists x :: 0 <= x < |own| && own[x] == b && rs0[x].ymax == rs[b].ymax)
  }

  ghost predicate AllHeightsFrom(rs0: seq<Region>, rs: seq<Region>, own: seq<nat>) {
    |own| == |rs0| == |rs| && forall b: nat :: b < |rs| && rs[b].base ==> HeightsFrom(rs0, rs, own, b)
  }

  lemma RootHeights(rs0: seq<Region>, rs: seq<Region>, own: seq<nat>, i: nat, id: nat, rs': seq<Region>)
    requires LayersInv(rs0, rs, own) && AllHeightsFrom(rs0, rs, own) && i < |rs| && rs[i].layerId == NO_LAYER
    requires rs' == rs[i := rs[i].(layerId := id, base := true)]
    ensures AllHeightsFrom(rs0, rs', own[i := i])
  {
    var own' := own[i := i];
    assert Kept(rs0, rs, i) && Owned(rs0, rs, own, i) && own'[i] == i;
    hide Kept, Sourced, Apart;
    forall b: nat | b < |rs'| && rs'[b].base && b != i
      ensures HeightsFrom(rs0, rs', own', b)
    {
      assert HeightsFrom(rs0, rs, own, b);
      KeptHeights(rs0, rs, own, b, rs', own');
    }
  }

  lemma KeptHeights(rs0: seq<Region>, rs: seq<Region>, own: seq<nat>, b: nat, rs': seq<Region>, own': seq<nat>)
    requires |own| == |rs0| == |rs| == |rs'| == |own'| && b < |rs| && HeightsFrom(rs0, rs, own, b)
    requires rs'[b].ymin == rs[b].ymin && rs'[b].ymax == rs[b].ymax
    requires forall x :: 0 <= x < |own| && own[x] == b ==> own'[x] == b
    ensures HeightsFrom(rs0, rs', own', b)
  {
    var x :| 0 <= x < |own| && own[x] == b && rs0[x].ymin == rs[b].ymin;
    var y :| 0 <= y < |own| && own[y] == b && rs0[y].ymax == rs[b].ymax;
    assert own'[x] == b && own'[y] == b;
  }

  lemma JoinHeights(rs0: seq<Region>, rs: seq<Region>, own: seq<nat>, i: nat, n: nat, rs': seq<Region>)
    requires LayersInv(rs0, rs, own) && AllHeightsFrom(rs0, rs, own) && CanJoin(rs, i, n) && Joined(rs, i, n, rs')
    ensures AllHeightsFrom(rs0, rs', own[n := i])
  {
    var own' := own[n := i];
    assert Kept(rs0, rs, n) && Owned(rs0, rs, own, n) && HeightsFrom(rs0, rs, own, i);
    hide Kept, Sourced, Apart;
    var x :| 0 <= x < |own| && own[x] == i && rs0[x].ymin == rs[i].ymin;
    var y :| 0 <= y < |own| && own[y] == i && rs0[y].ymax == rs[i].ymax;
    assert own'[x] == i && own'[y] == i && own'[n] == i;
    forall b: nat | b < |rs'| && rs'[b].base && b != i
      ensures HeightsFrom(rs0, rs', own', b)
    {
      assert b != n && HeightsFrom(rs0, rs, own, b);
      KeptHeights(rs0, rs, own, b, rs', own');
    }
  }

  lemma MergeHeights(rs0: seq<Region>, rs: seq<Region>, own: seq<nat>, i: nat, j: nat, rs': seq<Region>)
    requires LayersInv(rs0, rs, own) && AllHeightsFrom(rs0, rs, own) && CanMerge(rs, i, j) && Merged(rs, i, j, rs')
    ensures AllHeightsFrom(rs0, rs', OwnMerged(own, i, j))
  {
    var own' := OwnMerged(own, i, j);
    assert Owned(rs0, rs, own, i) && Owned(rs0, rs, own, j) && HeightsFrom(rs0, rs, own, i);
    assert HeightsFrom(rs0, rs, own, j);
    hide Kept, Sourced, Apart;
    if rs[j].layerId != NO_LAYER {
      assert Grouped(rs, j, j) && Includes(rs'[i], rs[j]);
    }
    MergedBaseHeights(rs0, rs, own, i, j, rs');
    forall b: nat | b < |rs'| && rs'[b].base && b != i
      ensures HeightsFrom(rs0, rs', own', b)
    {
      assert rs[b].layerId != rs[j].layerId && HeightsFrom(rs0, rs, own, b);
      KeptHeights(rs0, rs, own, b, rs', own');
    }
  }

  lemma MergedBaseHeights(rs0: seq<Region>, rs: seq<Region>, own: seq<nat>, i: nat, j: nat, rs': seq<Region>)
    requires |own| == |rs0| == |rs| == |rs'| && i < |rs| && j < |rs| && i != j
    requires HeightsFrom(rs0, rs, own, i) && HeightsFrom(rs0, rs, own, j)
    requires rs'[i].ymin == Min(rs[i].ymin, rs[j].ymin) && rs'[i].ymax == Max(rs[i].ymax, rs[j].ymax)
    ensures HeightsFrom(rs0, rs', OwnMerged(own, i, j), i)
  {
    var own' := OwnMerged(own, i, j);
    var x :| 0 <= x < |own| && own[x] == i && rs0[x].ymin == rs[i].ymin;
    var y :| 0 <= y < |own| && own[y] == i && rs0[y].ymax == rs[i].ymax;
    var z :| 0 <= z < |own| && own[z] == j && rs0[z].ymin == rs[j].ymin;
    var w :| 0 <= w < |own| && own[w] == j && rs0[w].ymax == rs[j].ymax;
    assert own'[x] == i && own'[y] == i && own'[z] == i && own'[w] == i;
  }
}
