/** Span columns of a heightfield: sorted lists of closed height intervals, threaded through pooled spans. */
module Heightfield {
  import opened Basics
  import opened SharedLists

  const SPANS_PER_POOL := 2048
  const SPAN_MAX_HEIGHT := 0x1fff

  /** What a span says, apart from its link. */
  datatype Extent = Extent(smin: nat, smax: nat, area: nat)

  datatype Span = Span(extent: Extent, next: int)

  // ----- A column as a sequence of extents -----

  /** The new span after it swallowed `c`; the larger area wins if the tops are close. */
  function Merge(c: Extent, s: Extent, flagMergeThr: int): Extent {
    var smax := Max(s.smax, c.smax);
    Extent(Min(s.smin, c.smin), smax, if smax - c.smax <= flagMergeThr then Max(s.area, c.area) else s.area)
  }

  /** The column after adding `s`: spans below stay in front, overlapping ones are merged, spans above follow. */
  function Insert(col: seq<Extent>, s: Extent, flagMergeThr: int): seq<Extent> {
    if col == [] || col[0].smin > s.smax then [s] + col
    else if col[0].smax < s.smin then [col[0]] + Insert(col[1..], s, flagMergeThr)
    else Insert(col[1..], Merge(col[0], s, flagMergeThr), flagMergeThr)
  }

  /** Strictly ascending, with a gap of at least nothing between one span's top and the next one's bottom. */
  predicate Ascending(col: seq<Extent>) {
    && (forall i :: 0 <= i < |col| ==> col[i].smin <= col[i].smax)
    && (forall i, j :: 0 <= i < j < |col| ==> col[i].smax < col[j].smin)
  }

  predicate Covers(s: Extent, h: int) {
    s.smin <= h <= s.smax
  }

  predicate Covered(col: seq<Extent>, h: int) {
    exists i :: 0 <= i < |col| && Covers(col[i], h)
  }

  lemma CoveredCons(c: Extent, col: seq<Extent>, h: int)
    ensures Covered([c] + col, h) <==> Covers(c, h) || Covered(col, h)
  {
    var r := [c] + col;
    if Covered(col, h) {
      var i :| 0 <= i < |col| && Covers(col[i], h);
      assert Covers(r[i + 1], h);
    }
    if Covered(r, h) {
      var i :| 0 <= i < |r| && Covers(r[i], h);
      assert i > 0 ==> Covers(col[i - 1], h);
    }
    assert r[0] == c;
  }

  /** Adding a span adds exactly its heights. */
  lemma {:induction false} InsertCovers(col: seq<Extent>, s: Extent, thr: int, h: int)
    requires Ascending(col) && s.smin <= s.smax
    ensures Covered(Insert(col, s, thr), h) <==> Covered(col, h) || Covers(s, h)
    decreases |col|
  {
    if col == [] || col[0].smin > s.smax {
      CoveredCons(s, col, h);
    } else {
      assert col == [col[0]] + col[1..];
      CoveredCons(col[0], col[1..], h);
      if col[0].smax < s.smin {
        InsertCovers(col[1..], s, thr, h);
        CoveredCons(col[0], Insert(col[1..], s, thr), h);
      } else {
        InsertCovers(col[1..], Merge(col[0], s, thr), thr, h);
      }
    }
  }

  /** Every span of the result starts where an old span or the new one starts. */
  lemma {:induction false} InsertAbove(col: seq<Extent>, s: Extent, thr: int, bound: int)
    requires Ascending(col) && bound < s.smin && forall i :: 0 <= i < |col| ==> bound < col[i].smin
    ensures forall i :: 0 <= i < |Insert(col, s, thr)| ==> bound < Insert(col, s, thr)[i].smin
    decreases |col|
  {
    if col != [] && col[0].smin <= s.smax {
      if col[0].smax < s.smin {
        InsertAbove(col[1..], s, thr, bound);
      } else {
        InsertAbove(col[1..], Merge(col[0], s, thr), thr, bound);
      }
    }
  }

  /** The column stays strictly ascending with disjoint closed spans. */
  lemma {:induction false} InsertAscending(col: seq<Extent>, s: Extent, thr: int)
    requires Ascending(col) && s.smin <= s.smax
    ensures Ascending(Insert(col, s, thr))
    decreases |col|
  {
    if col != [] && col[0].smin <= s.smax {
      if col[0].smax < s.smin {
        InsertAscending(col[1..], s, thr);
        InsertAbove(col[1..], s, thr, col[0].smax);
      } else {
        InsertAscending(col[1..], Merge(col[0], s, thr), thr);
      }
    }
  }

  /** The two spans have a height in common. */
  predicate Overlap(c: Extent, s: Extent) {
    c.smin <= s.smax && s.smin <= c.smax
  }

  /** The top of `s` is at most `thr` above that of `c`, or below it. */
  predicate TopsClose(c: Extent, s: Extent, thr: int) {
    thr >= 0 && s.smax <= c.smax + thr
  }

  /** `m` stands for the new span `s` and the old spans it overlaps: its area is the greatest among that of `s` and
      those of the overlapped spans whose top is close. */
  ghost predicate StandsFor(col: seq<Extent>, s: Extent, thr: int, m: Extent) {
    && m.smin <= s.smin && s.smax <= m.smax && s.area <= m.area
    && (forall c :: c in col && Overlap(c, s) ==> m.smin <= c.smin && c.smax <= m.smax)
    && (forall c :: c in col && Overlap(c, s) && TopsClose(c, s, thr) ==> c.area <= m.area)
    && (m.area == s.area || exists c :: c in col && Overlap(c, s) && TopsClose(c, s, thr) && c.area == m.area)
  }

  /** The old spans that `s` does not overlap stay as they are, and one span stands for the rest. */
  ghost predicate Swallows(col: seq<Extent>, s: Extent, thr: int, r: seq<Extent>, m: Extent) {
    StandsFor(col, s, thr, m) && forall c :: c in r <==> c == m || (c in col && !Overlap(c, s))
  }

  predicate Behind(d: Extent, c: Extent) {
    d.smax < c.smin <= c.smax
  }

  lemma RestBehind(col: seq<Extent>)
    requires Ascending(col) && col != []
    ensures forall c :: c in col <==> c == col[0] || c in col[1..]
    ensures forall c :: c in col[1..] ==> Behind(col[0], c)
  {
    forall c | c in col[1..]
      ensures Behind(col[0], c)
    {
      var k :| 0 <= k < |col[1..]| && col[1..][k] == c;
      assert col[1 + k] == c;
    }
  }

  lemma MergedFirst(d: Extent, s: Extent, thr: int)
    requires Overlap(d, s)
    ensures var s' := Merge(d, s, thr);
      && s'.smin <= s.smin && s'.smin <= d.smin && s.smax <= s'.smax && d.smax <= s'.smax
      && s'.area == if TopsClose(d, s, thr) then Max(s.area, d.area) else s.area
  {
  }

  lemma StandsForFirst(col: seq<Extent>, d: Extent, rest: seq<Extent>, s: Extent, thr: int, m: Extent)
    requires forall c :: c in col <==> c == d || c in rest
    requires forall c :: c in rest ==> Behind(d, c)
    requires s.smin <= s.smax && Overlap(d, s) && StandsFor(rest, Merge(d, s, thr), thr, m)
    ensures StandsFor(col, s, thr, m)
  {
    var s' := Merge(d, s, thr);
    MergedFirst(d, s, thr);
    hide Overlap, TopsClose, Merge, Behind;
    forall c | c in rest
      ensures Overlap(c, s') <==> Overlap(c, s)
      ensures Overlap(c, s) ==> (TopsClose(c, s', thr) <==> TopsClose(c, s, thr))
    {
      MergedOverlaps(d, s, thr, c);
    }
    if m.area != s.area && m.area != s'.area {
      var c :| c in rest && Overlap(c, s') && TopsClose(c, s', thr) && c.area == m.area;
      assert c in col;
    }
  }

  lemma MergedOverlaps(d: Extent, s: Extent, thr: int, c: Extent)
    requires Overlap(d, s) && s.smin <= s.smax && Behind(d, c)
    ensures Overlap(c, Merge(d, s, thr)) <==> Overlap(c, s)
    ensures Overlap(c, s) ==> (TopsClose(c, Merge(d, s, thr), thr) <==> TopsClose(c, s, thr))
  {
  }

  lemma SwallowFirst(col: seq<Extent>, s: Extent, thr: int, r: seq<Extent>, m: Extent)
    requires Ascending(col) && s.smin <= s.smax && col != [] && Overlap(col[0], s)
    requires Swallows(col[1..], Merge(col[0], s, thr), thr, r, m)
    ensures Swallows(col, s, thr, r, m)
  {
    RestBehind(col);
    StandsForFirst(col, col[0], col[1..], s, thr, m);
    hide Overlap, TopsClose, Merge, Ascending, StandsFor, Behind;
    forall c | c in col[1..]
      ensures Overlap(c, Merge(col[0], s, thr)) <==> Overlap(c, s)
    {
      MergedOverlaps(col[0], s, thr, c);
    }
  }

  /** Which area and extent a span gets that swallows others. */
  lemma {:induction false} InsertSwallows(col: seq<Extent>, s: Extent, thr: int) returns (m: Extent)
    requires Ascending(col) && s.smin <= s.smax
    ensures Swallows(col, s, thr, Insert(col, s, thr), m)
    decreases |col|
  {
    if col == [] || col[0].smin > s.smax {
      m := s;
      forall c | c in col
        ensures !Overlap(c, s)
      {
        var k :| 0 <= k < |col| && col[k] == c;
        assert col[0].smin <= c.smin;
      }
    } else if col[0].smax < s.smin {
      m := InsertSwallows(col[1..], s, thr);
      assert forall c :: c in col <==> c == col[0] || c in col[1..];
      assert !Overlap(col[0], s);
    } else {
      m := InsertSwallows(col[1..], Merge(col[0], s, thr), thr);
      SwallowFirst(col, s, thr, Insert(col[1..], Merge(col[0], s, thr), thr), m);
    }
  }

  // ----- Spans in a pool -----

  function Links(pool: seq<Span>): (next: seq<int>)
    ensures |next| == |pool| && forall i :: 0 <= i < |pool| ==> next[i] == pool[i].next
  {
    seq(|pool|, i requires 0 <= i < |pool| => pool[i].next)
  }

  function Extents(pool: seq<Span>, list: seq<nat>): (col: seq<Extent>)
    requires Within(list, |pool|)
    ensures |col| == |list| && forall k :: 0 <= k < |list| ==> col[k] == pool[list[k]].extent
  {
    seq(|list|, k requires 0 <= k < |list| => pool[list[k]].extent)
  }

  lemma ExtentsRemove(pool: seq<Span>, pool': seq<Span>, list: seq<nat>, k: nat)
    requires |pool'| == |pool| && forall i :: 0 <= i < |pool| ==> pool'[i].extent == pool[i].extent
    requires k < |list| && Within(list, |pool|)
    ensures Extents(pool', RemoveAt(list, k)) == RemoveAt(Extents(pool, list), k)
  {
  }

  lemma AllEmpty(heads: seq<int>, lists: seq<seq<nat>>)
    requires |lists| == |heads| && forall l :: 0 <= l < |lists| ==> lists[l] == [] && heads[l] == NULL
    ensures Shared(Links([]), heads, lists, [])
  {
    assert forall l :: 0 <= l < |lists| ==> ListOk(Links([]), heads[l], lists[l], [], l);
  }

  class Heightfield {
    const spans: array<int>
    var pool: seq<Span>
    var freelist: int

    /** List 0 is the free list, list `1 + idx` the column at `idx`. */
    ghost var lists: seq<seq<nat>>
    ghost var owner: seq<nat>

    ghost function Heads(): seq<int>
      reads this, spans
    {
      [freelist] + spans[..]
    }

    ghost predicate ListsOk()
      reads this, spans
    {
      Shared(Links(pool), Heads(), lists, owner) && |lists| == 1 + spans.Length
    }

    /** No span is on no list. */
    ghost predicate AllOwned()
      reads this
    {
      forall i :: 0 <= i < |owner| ==> owner[i] < |lists|
    }

    ghost predicate Valid()
      reads this, spans
    {
      ListsOk() && AllOwned()
    }

    ghost function Column(idx: nat): (col: seq<Extent>)
      requires ListsOk() && idx < spans.Length
      reads this, spans
      ensures |col| == |lists[1 + idx]|
    {
      InBounds(Links(pool), Heads(), lists, owner, 1 + idx);
      Extents(pool, lists[1 + idx])
    }

    /** Every column is strictly ascending. */
    ghost predicate Sorted()
      requires ListsOk()
      reads this, spans
    {
      forall idx :: 0 <= idx < spans.Length ==> Ascending(Column(idx))
    }

    constructor (width: nat, height: nat)
      ensures Valid() && Sorted() && fresh(spans) && spans.Length == width * height
      ensures forall idx :: 0 <= idx < spans.Length ==> Column(idx) == []
    {
      spans := new int[width * height](_ => NULL);
      pool, freelist := [], NULL;
      lists, owner := seq(1 + width * height, _ => []), [];
      new;
      AllEmpty(Heads(), lists);
    }

    /** Put a span that is on no list in front of the free list. */
    method PushFree(it: nat)
      requires ListsOk() && it < |pool| && owner[it] == |lists|
      modifies this
      ensures ListsOk() && freelist == it && |lists| == old(|lists|)
      ensures pool == old(pool)[it := Span(old(pool[it].extent), old(freelist))]
      ensures lists == old(lists)[0 := [it] + old(lists[0])] && owner == old(owner)[it := 0]
    {
      hide Shared;
      InBounds(Links(pool), Heads(), lists, owner, 0);
      Attach(Links(pool), Heads(), lists, owner, 0, 0, it);
      ghost var next, heads := Links(pool), Heads();
      pool := pool[it := pool[it].(next := freelist)];
      freelist := it;
      assert InsertAt(lists[0], 0, it) == [it] + lists[0];
      lists := lists[0 := InsertAt(lists[0], 0, it)];
      owner := owner[it := 0];
      assert Links(pool) == next[it := heads[0]];
      assert Heads() == heads[0 := it];
    }

    /** Append a page of spans, not yet linked, to the pool. */
    method NewPage()
      requires ListsOk()
      modifies this
      ensures ListsOk() && freelist == old(freelist) && lists == old(lists)
      ensures |pool| == old(|pool|) + SPANS_PER_POOL && pool[..old(|pool|)] == old(pool)
      ensures |owner| == |pool| && owner[..old(|pool|)] == old(owner)
      ensures forall i :: old(|pool|) <= i < |owner| ==> owner[i] == |lists|
    {
      ghost var none, links := |lists|, seq(SPANS_PER_POOL, _ => NULL);
      Extend(Links(pool), Heads(), lists, owner, links);
      ghost var before := Links(pool);
      pool := pool + seq(SPANS_PER_POOL, _ => Span(Extent(0, 0, 0), NULL));
      owner := owner + seq(SPANS_PER_POOL, _ => none);
      assert Links(pool) == before + links;
    }

    /** Append a page to the pool and put all its spans in front of the free list, the first one foremost. */
    method AddPage()
      requires Valid()
      modifies this
      ensures Valid() && lists[0] != [] && |lists| == old(|lists|)
      ensures |pool| == old(|pool|) + SPANS_PER_POOL && pool[..old(|pool|)] == old(pool)
      ensures lists[1..] == old(lists[1..])
    {
      hide Shared;
      var base := |pool|;
      NewPage();
      ghost var o, n := owner, |lists|;
      var it := base + SPANS_PER_POOL;
      while it != base
        invariant base <= it <= base + SPANS_PER_POOL == |pool|
        invariant ListsOk() && |lists| == n && (it < |pool| ==> lists[0] != [])
        invariant |owner| == |pool| && lists[1..] == old(lists[1..]) && pool[..base] == old(pool)
        invariant forall i :: 0 <= i < |owner| ==> owner[i] == if i < it then o[i] else 0
        decreases it - base
      {
        it := it - 1;
        PushFree(it);
      }
    }

    /** The head of the free list is its first cell. */
    lemma FreeHead()
      requires ListsOk()
      ensures freelist == (if lists[0] == [] then NULL else lists[0][0])
      ensures lists[0] != [] ==> lists[0][0] < |pool| == |owner|
    {
      assert ListOk(Links(pool), Heads()[0], lists[0], owner, 0);
    }

    /** Take the first free span off the list, after adding a page if at most one is left. */
    method AllocSpan() returns (it: nat)
      requires Valid()
      modifies this
      ensures ListsOk() && it < |pool| == |owner| && owner[it] == |lists|
      ensures forall i :: 0 <= i < |owner| && i != it ==> owner[i] < |lists|
      ensures |lists| == old(|lists|) && lists[1..] == old(lists[1..])
      ensures old(|pool|) <= |pool| && pool[..old(|pool|)] == old(pool)
    {
      hide Shared;
      FreeHead();
      if freelist == NULL || pool[freelist].next == NULL {
        AddPage();
        FreeHead();
      }
      Detach(Links(pool), Heads(), lists, owner, 0, 0);
      ghost var next, heads := Links(pool), Heads();
      it := freelist;
      freelist := pool[it].next;
      lists := lists[0 := RemoveAt(lists[0], 0)];
      owner := owner[it := |lists|];
      assert Heads() == heads[0 := next[it]];
    }

    /** Give a span back to the free list; `l` and `k` say where it is linked. */
    method FreeSpan(ptr: nat, next: int, prev: int, idx: nat, ghost k: nat)
      requires ListsOk() && idx < spans.Length && k < |lists[1 + idx]| && ptr == lists[1 + idx][k] < |pool|
      requires next == pool[ptr].next && prev == if k > 0 then lists[1 + idx][k - 1] else NULL
      modifies this, spans
      ensures ListsOk() && |pool| == old(|pool|) && |lists| == old(|lists|)
      ensures lists == old(lists)[1 + idx := RemoveAt(old(lists)[1 + idx], k)][0 := [ptr] + old(lists)[0]]
      ensures owner == old(owner)[ptr := 0]
      ensures forall i :: 0 <= i < |pool| ==> pool[i].extent == old(pool)[i].extent
    {
      hide Shared, RemoveAt;
      InBounds(Links(pool), Heads(), lists, owner, 1 + idx);
      MoveToFront(Links(pool), Heads(), lists, owner, 1 + idx, k, 0);
      ghost var links, heads := Links(pool), Heads();
      lists := lists[1 + idx := RemoveAt(lists[1 + idx], k)][0 := [ptr] + lists[0]];
      owner := owner[ptr := 0];
      pool := pool[ptr := pool[ptr].(next := freelist)];
      freelist := ptr;
      if prev != NULL {
        pool := pool[prev := pool[prev].(next := next)];
        assert Links(pool) == links[prev := links[ptr]][ptr := heads[0]];
        assert Heads() == heads[0 := ptr];
      } else {
        spans[idx] := next;
        assert Links(pool) == links[ptr := heads[0]];
        assert Heads() == heads[1 + idx := links[ptr]][0 := ptr];
      }
    }

    /** Link a span that is on no list into a column behind `prev`, or at its front. */
    method LinkSpan(s: nat, prev: int, idx: nat, ghost k: nat)
      requires ListsOk() && idx < spans.Length && k <= |lists[1 + idx]|
      requires s < |pool| == |owner| && owner[s] == |lists|
      requires prev == if k > 0 then lists[1 + idx][k - 1] else NULL
      modifies this, spans
      ensures ListsOk() && |pool| == old(|pool|) && |lists| == old(|lists|)
      ensures lists == old(lists)[1 + idx := InsertAt(old(lists)[1 + idx], k, s)]
      ensures owner == old(owner)[s := 1 + idx]
      ensures forall i :: 0 <= i < |pool| ==> pool[i].extent == old(pool)[i].extent
    {
      hide Shared;
      Attach(Links(pool), Heads(), lists, owner, 1 + idx, k, s);
      ghost var links, heads := Links(pool), Heads();
      lists := lists[1 + idx := InsertAt(lists[1 + idx], k, s)];
      owner := owner[s := 1 + idx];
      if prev != NULL {
        pool := pool[s := pool[s].(next := pool[prev].next)];
        pool := pool[prev := pool[prev].(next := s)];
        assert Links(pool) == links[s := links[prev]][prev := s];
        assert Heads() == heads;
      } else {
        pool := pool[s := pool[s].(next := spans[idx])];
        spans[idx] := s;
        assert Links(pool) == links[s := heads[1 + idx]];
        assert Heads() == heads[1 + idx := s];
      }
    }

    /** What holds while a new span `s` is being added to the column at `idx`: `s` is on no list, every other span is
        on one, and the other columns and their spans are as in `pool0` and `lists0`. */
    ghost predicate Adding(s: nat, idx: nat, pool0: seq<Span>, lists0: seq<seq<nat>>)
      reads this, spans
    {
      && ListsOk() && idx < spans.Length && |lists| == 1 + spans.Length
      && s < |pool| == |owner| && owner[s] == |lists|
      && (forall i :: 0 <= i < |owner| && i != s ==> owner[i] < |lists|)
      && |pool0| <= |pool| && |lists0| == |lists|
      && (forall i :: 0 <= i < |pool0| && i != s ==> pool[i].extent == pool0[i].extent)
      && (forall l :: 0 < l < |lists| && l != 1 + idx ==> lists[l] == lists0[l])
    }

    /** Overwrite the extent of the span being added; no column sees it. */
    method SetExtent(s: nat, e: Extent, idx: nat, ghost pool0: seq<Span>, ghost lists0: seq<seq<nat>>)
      requires Adding(s, idx, pool0, lists0)
      modifies this`pool
      ensures Adding(s, idx, pool0, lists0) && pool == old(pool)[s := Span(e, old(pool[s].next))]
      ensures Column(idx) == old(Column(idx))
    {
      hide Shared;
      InBounds(Links(pool), Heads(), lists, owner, 1 + idx);
      ghost var links := Links(pool);
      pool := pool[s := pool[s].(extent := e)];
      assert Links(pool) == links;
    }

    /** Take the span at position `k` out of the column; the span being added stays as it is. */
    method DropSpan(cur: nat, prev: int, idx: nat, ghost k: nat, ghost s: nat,
                    ghost pool0: seq<Span>, ghost lists0: seq<seq<nat>>)
      returns (next: int)
      requires Adding(s, idx, pool0, lists0) && k < |lists[1 + idx]| && cur == lists[1 + idx][k] < |pool|
      requires prev == if k > 0 then lists[1 + idx][k - 1] else NULL
      modifies this, spans
      ensures Adding(s, idx, pool0, lists0) && pool[s].extent == old(pool[s].extent)
      ensures lists[1 + idx] == RemoveAt(old(lists[1 + idx]), k)
      ensures next == if k < |lists[1 + idx]| then lists[1 + idx][k] else NULL
      ensures Column(idx) == RemoveAt(old(Column(idx)), k)
    {
      hide Shared, RemoveAt, Extents, Links, Heads;
      ColumnNext(idx, k);
      InBounds(Links(pool), Heads(), lists, owner, 1 + idx);
      next := pool[cur].next;
      ghost var before, cells := pool, lists[1 + idx];
      FreeSpan(cur, next, prev, idx, k);
      InBounds(Links(pool), Heads(), lists, owner, 1 + idx);
      ExtentsRemove(before, pool, cells, k);
    }

    /** Merge the spans of the column that meet `s` into it and find the place for it. */
    method MergeSpans(s: nat, idx: nat, flagMergeThr: int, ghost pool0: seq<Span>, ghost lists0: seq<seq<nat>>)
      returns (prev: int, ghost k: nat)
      requires Adding(s, idx, pool0, lists0)
      modifies this, spans
      ensures Adding(s, idx, pool0, lists0)
      ensures k <= |lists[1 + idx]| && prev == if k > 0 then lists[1 + idx][k - 1] else NULL
      ensures InsertAt(Column(idx), k, pool[s].extent) == Insert(old(Column(idx)), old(pool[s].extent), flagMergeThr)
    {
      hide ListsOk, Merge, Insert, InsertAt, RemoveAt, Column;
      prev, k := NULL, 0;
      var cur := spans[idx];
      ColumnHead(idx);
      while cur != NULL
        invariant Adding(s, idx, pool0, lists0)
        invariant k <= |lists[1 + idx]| && prev == if k > 0 then lists[1 + idx][k - 1] else NULL
        invariant cur == if k < |lists[1 + idx]| then lists[1 + idx][k] else NULL
        invariant Column(idx)[..k] + Insert(Column(idx)[k..], pool[s].extent, flagMergeThr) ==
          Insert(old(Column(idx)), old(pool[s].extent), flagMergeThr)
        decreases |lists[1 + idx]| - k
      {
        ghost var col, e := Column(idx), pool[s].extent;
        ColumnNext(idx, k);
        if pool[cur].extent.smin > pool[s].extent.smax {
          break;
        } else if pool[cur].extent.smax < pool[s].extent.smin {
          InsertBelow(col, e, flagMergeThr, k);
          prev, cur, k := cur, pool[cur].next, k + 1;
        } else {
          InsertMerge(col, e, flagMergeThr, k);
          SetExtent(s, Merge(pool[cur].extent, pool[s].extent, flagMergeThr), idx, pool0, lists0);
          cur := DropSpan(cur, prev, idx, k, s, pool0, lists0);
        }
      }
      InsertHere(Column(idx), pool[s].extent, flagMergeThr, k);
    }

    lemma ColumnHead(idx: nat)
      requires ListsOk() && idx < spans.Length
      ensures spans[idx] == if lists[1 + idx] == [] then NULL else lists[1 + idx][0]
    {
      assert ListOk(Links(pool), Heads()[1 + idx], lists[1 + idx], owner, 1 + idx);
    }

    lemma ColumnNext(idx: nat, k: nat)
      requires ListsOk() && idx < spans.Length && k < |lists[1 + idx]|
      ensures var cur := lists[1 + idx][k];
        && cur < |pool| && Column(idx)[k] == pool[cur].extent
        && pool[cur].next == if k + 1 < |lists[1 + idx]| then lists[1 + idx][k + 1] else NULL
    {
      assert ListOk(Links(pool), Heads()[1 + idx], lists[1 + idx], owner, 1 + idx);
      assert Links(pool)[lists[1 + idx][k]] == After(lists[1 + idx], k);
    }

    /** addSpan: the column becomes the one `Insert` gives, which adds exactly the heights of the new span; the other
        columns stay, and all columns stay sorted. */
    method AddSpan(idx: nat, smin: nat, smax: nat, area: nat, flagMergeThr: int)
      requires Valid() && Sorted() && idx < spans.Length && smin <= smax <= SPAN_MAX_HEIGHT
      modifies this, spans
      ensures Valid() && Sorted()
      ensures Column(idx) == Insert(old(Column(idx)), Extent(smin, smax, area), flagMergeThr)
      ensures forall h :: Covered(Column(idx), h) <==> old(Covered(Column(idx), h)) || smin <= h <= smax
      ensures forall j :: 0 <= j < spans.Length && j != idx ==> Column(j) == old(Column(j))
    {
      hide ListsOk, AllOwned, Ascending, Covered, Insert;
      InsertAscending(Column(idx), Extent(smin, smax, area), flagMergeThr);
      forall h {
        InsertCovers(Column(idx), Extent(smin, smax, area), flagMergeThr, h);
      }
      ghost var pool0, lists0 := pool, lists;
      ghost var col0 := Column(idx);
      AllInBounds();
      var s := StartSpan(idx, Extent(smin, smax, area));
      if spans[idx] == NULL {
        EmptyColumn(s, idx, flagMergeThr, pool0, lists0);
        LinkNew(s, NULL, idx, 0, pool0, lists0);
      } else {
        var prev;
        ghost var k;
        prev, k := MergeSpans(s, idx, flagMergeThr, pool0, lists0);
        LinkNew(s, prev, idx, k, pool0, lists0);
      }
      forall j | 0 <= j < spans.Length && j != idx
        ensures Column(j) == old(Column(j))
      {
        OtherColumn(j, s, idx, pool0, lists0);
      }
    }

    lemma AllInBounds()
      requires ListsOk()
      ensures |lists| == 1 + spans.Length
      ensures forall l :: 0 <= l < |lists| ==> Within(lists[l], |pool|)
    {
      forall l | 0 <= l < |lists|
        ensures Within(lists[l], |pool|)
      {
        InBounds(Links(pool), Heads(), lists, owner, l);
      }
    }

    lemma EmptyColumn(s: nat, idx: nat, thr: int, pool0: seq<Span>, lists0: seq<seq<nat>>)
      requires Adding(s, idx, pool0, lists0) && spans[idx] == NULL
      ensures lists[1 + idx] == []
      ensures InsertAt(Column(idx), 0, pool[s].extent) == Insert(Column(idx), pool[s].extent, thr)
    {
      ColumnHead(idx);
      InBounds(Links(pool), Heads(), lists, owner, 1 + idx);
    }

    lemma OtherColumn(j: nat, s: nat, idx: nat, pool0: seq<Span>, lists0: seq<seq<nat>>)
      requires Valid() && j < spans.Length && idx < spans.Length && j != idx && s < |owner| && owner[s] == 1 + idx
      requires |lists0| == |lists| && lists[1 + j] == lists0[1 + j] && |pool0| <= |pool|
      requires forall i :: 0 <= i < |pool0| && i != s ==> pool[i].extent == pool0[i].extent
      requires Within(lists0[1 + j], |pool0|)
      ensures Column(j) == Extents(pool0, lists0[1 + j])
    {
      InBounds(Links(pool), Heads(), lists, owner, 1 + j);
    }

    /** Allocate the new span. */
    method StartSpan(idx: nat, e: Extent) returns (s: nat)
      requires Valid() && idx < spans.Length
      modifies this
      ensures Adding(s, idx, old(pool), old(lists)) && pool[s].extent == e
      ensures Column(idx) == old(Column(idx))
    {
      InBounds(Links(pool), Heads(), lists, owner, 1 + idx);
      s := AllocSpan();
      InBounds(Links(pool), Heads(), lists, owner, 1 + idx);
      FreeWrite(Links(pool), Heads(), lists, owner, s, NULL);
      ghost var links := Links(pool);
      pool := pool[s := Span(e, NULL)];
      assert Links(pool) == links[s := NULL];
    }

    /** Link the new span at its place; now every span is on a list again. */
    method LinkNew(s: nat, prev: int, idx: nat, ghost k: nat, ghost pool0: seq<Span>, ghost lists0: seq<seq<nat>>)
      requires Adding(s, idx, pool0, lists0) && k <= |lists[1 + idx]|
      requires prev == if k > 0 then lists[1 + idx][k - 1] else NULL
      modifies this, spans
      ensures Valid() && |lists| == |lists0| && s < |owner| && owner[s] == 1 + idx && |pool0| <= |pool|
      ensures forall l :: 0 < l < |lists| && l != 1 + idx ==> lists[l] == lists0[l]
      ensures forall i :: 0 <= i < |pool0| && i != s ==> pool[i].extent == pool0[i].extent
      ensures Column(idx) == InsertAt(old(Column(idx)), k, old(pool[s].extent))
    {
      hide Shared;
      InBounds(Links(pool), Heads(), lists, owner, 1 + idx);
      LinkSpan(s, prev, idx, k);
      InBounds(Links(pool), Heads(), lists, owner, 1 + idx);
    }
  }

  lemma InsertBelow(col: seq<Extent>, s: Extent, thr: int, k: nat)
    requires k < |col| && col[k].smin <= s.smax && col[k].smax < s.smin
    ensures col[..k] + Insert(col[k..], s, thr) == col[..k + 1] + Insert(col[k + 1..], s, thr)
  {
    assert col[k..][1..] == col[k + 1..];
    assert col[..k + 1] == col[..k] + [col[k]];
  }

  lemma InsertMerge(col: seq<Extent>, s: Extent, thr: int, k: nat)
    requires k < |col| && col[k].smin <= s.smax && col[k].smax >= s.smin
    ensures var r := RemoveAt(col, k);
      col[..k] + Insert(col[k..], s, thr) == r[..k] + Insert(r[k..], Merge(col[k], s, thr), thr)
  {
    assert col[k..][1..] == col[k + 1..];
    assert RemoveAt(col, k)[..k] == col[..k] && RemoveAt(col, k)[k..] == col[k + 1..];
  }

  lemma InsertHere(col: seq<Extent>, s: Extent, thr: int, k: nat)
    requires k == |col| || (k < |col| && col[k].smin > s.smax)
    ensures col[..k] + Insert(col[k..], s, thr) == InsertAt(col, k, s)
  {
  }
}
