/** dtPathQueue: eight request slots served by one sliced path search. */
module PathQueues {
  import opened Basics

  const MAX_QUEUE := 8
  const DT_PATHQ_INVALID := 0
  const MAX_KEEP_ALIVE := 2

  /** A status word: nothing yet, in progress, or finished with details. */
  datatype Status = Idle | InProgress | Succeeded(details: nat) | Failed(details: nat)

  predicate Finished(s: Status) {
    s.Succeeded? || s.Failed?
  }

  /** A call to the search and its result: a start, a step with so many iterations allowed, the fetching of a path. */
  datatype Call = Start(startRef: nat, endRef: nat, result: Status) | Advance(maxIter: int, result: Status)
    | Fetch(result: Status, path: seq<nat>)

  datatype PathQuery = PathQuery(
    ref: nat, startRef: nat, endRef: nat, path: seq<nat>, status: Status, keepAlive: nat)

  /** What the queue may rely on of dtNavMeshQuery's sliced search, whose steps are not modelled here: it works on one
      request at a time, a step that does not finish uses all the iterations it was given, and a path begins at the
      start polygon of the request. */
  class SlicedQuery {
    var status: Status
    var startRef: nat
    var endRef: nat
    /** How many iterations the search still takes. */
    var left: nat
    /** All iterations spent so far. */
    ghost var spent: nat
    /** All calls so far. */
    ghost var log: seq<Call>

    constructor ()
      ensures status == Idle
    {
      status, startRef, endRef, left, spent, log := Idle, 0, 0, 0, 0, [];
    }

    method InitSlicedFindPath(start: nat, end: nat) returns (s: Status)
      modifies this
      ensures s == status != Idle && startRef == start && endRef == end && spent == old(spent)
      ensures log == old(log) + [Start(start, end, s)]
      ensures start == 0 || end == 0 ==> s.Failed?
    {
      startRef, endRef := start, end;
      var validStart: bool, validEnd: bool := *, *;
      if start == 0 || end == 0 || !validStart || !validEnd {
        status := Failed(1);
      } else if start == end {
        status := Succeeded(0);
      } else {
        var iterations: nat :| iterations >= 1;
        left := iterations;
        status := InProgress;
      }
      s := status;
      log := log + [Start(start, end, s)];
    }

    method UpdateSlicedFindPath(maxIter: int) returns (s: Status, iters: int)
      modifies this
      ensures s == status != Idle || (s == status == old(status) == Idle)
      ensures startRef == old(startRef) && endRef == old(endRef)
      ensures 0 <= iters <= Max(maxIter, 0) && spent == old(spent) + iters
      ensures old(status) != InProgress ==> s == old(status) && iters == 0
      ensures s == InProgress ==> iters == Max(maxIter, 0)
      ensures log == old(log) + [Advance(maxIter, s)]
    {
      s, iters := status, 0;
      if status != InProgress {
        log := log + [Advance(maxIter, s)];
        return;
      }
      var valid: bool := *;
      if !valid {
        status := Failed(0);
      } else if left <= maxIter {
        iters, left := left, 0;
        var found: bool := *;
        status := if found then Succeeded(0) else Failed(0);
      } else if maxIter > 0 {
        iters, left := maxIter, left - maxIter;
      }
      spent := spent + iters;
      s := status;
      log := log + [Advance(maxIter, s)];
    }

    method FinalizeSlicedFindPath(maxPath: nat) returns (s: Status, path: seq<nat>)
      requires maxPath > 0
      modifies this
      ensures Finished(s) && status == Idle && spent == old(spent)
      ensures if old(status).Failed? then s.Failed? && path == []
        else s.Succeeded? && 1 <= |path| <= maxPath && path[0] == old(startRef)
      ensures log == old(log) + [Fetch(s, path)]
    {
      path := [];
      if status.Failed? {
        s := Failed(0);
      } else {
        var rest: seq<nat> :| |rest| < maxPath;
        var details: nat := *;
        path := [startRef] + rest;
        s := Succeeded(details);
      }
      status, startRef, endRef := Idle, 0, 0;
      log := log + [Fetch(s, path)];
    }
  }

  // ----- What an update does to slots -----

  /** The result in a slot is one for the slot's own request. */
  predicate ResultOk(q: PathQuery, maxPath: nat) {
    q.status.Succeeded? ==> 1 <= |q.path| <= maxPath && q.path[0] == q.startRef
  }

  predicate Active(q: PathQuery) {
    q.ref != DT_PATHQ_INVALID
  }

  predicate SameRequest(q: PathQuery, q': PathQuery) {
    q'.ref == q.ref && q'.startRef == q.startRef && q'.endRef == q.endRef
  }

  /** One visit to a slot: a finished request ages and is dropped after two updates, an unfinished one goes on. */
  predicate Visit(q: PathQuery, q': PathQuery) {
    if !Active(q) then q' == q
    else if Finished(q.status) then
      q' == if q.keepAlive + 1 > MAX_KEEP_ALIVE
        then q.(keepAlive := q.keepAlive + 1, ref := DT_PATHQ_INVALID, status := Idle)
        else q.(keepAlive := q.keepAlive + 1)
    else
      SameRequest(q, q') && q'.keepAlive == q.keepAlive && q'.status != Idle
  }

  /** The calls that a request needs, and what it makes of their results: it is started if it was not yet, goes on
      while in progress, and once it has succeeded its path is fetched. */
  ghost predicate Serves(q: PathQuery, calls: seq<Call>, maxIter: int, q': PathQuery) {
    var a := if q.status == Idle then 1 else 0;
    && |calls| >= a && (a == 1 ==> calls[0].Start? && (calls[0].startRef, calls[0].endRef) == (q.startRef, q.endRef))
    && var started := if a == 1 then calls[0].result else q.status;
    && var b := if started == InProgress then a + 1 else a;
    && |calls| >= b && (b > a ==> calls[a].Advance? && calls[a].maxIter == maxIter)
    && var advanced := if b > a then calls[a].result else started;
    && if advanced.Succeeded? then |calls| == b + 1 && calls[b].Fetch?
                                   && q' == q.(status := calls[b].result, path := calls[b].path)
       else |calls| == b && q' == q.(status := advanced)
  }

  /** From entry `from` of the log on there are calls that serve the request, with some iterations allowed. */
  ghost predicate Served(log: seq<Call>, from: nat, q: PathQuery, q': PathQuery) {
    exists i, k, maxIter :: from <= i <= k <= |log| && maxIter > 0 && Serves(q, log[i..k], maxIter, q')
  }

  lemma ServedLater(log: seq<Call>, log': seq<Call>, from: nat, q: PathQuery, q': PathQuery)
    requires Served(log, from, q, q') && log <= log'
    ensures Served(log', from, q, q')
  {
    hide Serves;
    var i, k, maxIter :| from <= i <= k <= |log| && maxIter > 0 && Serves(q, log[i..k], maxIter, q');
    assert log'[i..k] == log[i..k];
  }

  /** Each request that was waiting or in progress, and was visited, was served by the search. */
  ghost predicate AllServed(log: seq<Call>, from: nat, s: seq<PathQuery>, s': seq<PathQuery>, h: nat, n: nat)
    requires h < MAX_QUEUE && |s| == |s'| == MAX_QUEUE
  {
    forall j :: 0 <= j < MAX_QUEUE && Offset(h, j) < n && Active(s[j]) && !Finished(s[j].status) ==>
      Served(log, from, s[j], s'[j])
  }

  lemma ServedNext(log: seq<Call>, log': seq<Call>, from: nat, s: seq<PathQuery>, s1: seq<PathQuery>,
                   s2: seq<PathQuery>, h: nat, i: nat, idx: nat)
    requires h < MAX_QUEUE && |s| == |s1| == |s2| == MAX_QUEUE && idx < MAX_QUEUE
    requires AllServed(log, from, s, s1, h, i) && log <= log' && s2 == s1[idx := s2[idx]] && s1[idx] == s[idx]
    requires forall j :: 0 <= j < MAX_QUEUE ==> (Offset(h, j) == i <==> j == idx)
    requires Active(s[idx]) && !Finished(s[idx].status) ==> Served(log', from, s[idx], s2[idx])
    ensures AllServed(log', from, s, s2, h, i + 1)
  {
    hide Served;
    forall j | 0 <= j < MAX_QUEUE && Offset(h, j) < i + 1 && Active(s[j]) && !Finished(s[j].status)
      ensures Served(log', from, s[j], s2[j])
    {
      if j != idx {
        ServedLater(log, log', from, s[j], s1[j]);
      }
    }
  }

  /** Every slot was visited once or not at all. */
  predicate Updated(s: seq<PathQuery>, s': seq<PathQuery>) {
    |s'| == |s| && forall j :: 0 <= j < |s| ==> s'[j] == s[j] || Visit(s[j], s'[j])
  }

  /** How many steps after slot `h` slot `j` comes. */
  function Offset(h: nat, j: nat): nat
    requires h < MAX_QUEUE && j < MAX_QUEUE
  {
    if j >= h then j - h else j + MAX_QUEUE - h
  }

  /** The first `n` slots from `h` on were visited, the others not. */
  predicate VisitedFrom(s: seq<PathQuery>, s': seq<PathQuery>, h: nat, n: nat)
    requires h < MAX_QUEUE && |s| == MAX_QUEUE
  {
    && |s'| == |s|
    && (forall j :: 0 <= j < |s| && Offset(h, j) < n ==> Visit(s[j], s'[j]))
    && forall j :: 0 <= j < |s| && Offset(h, j) >= n ==> s'[j] == s[j]
  }

  lemma NoneVisited(s: seq<PathQuery>, h: nat)
    requires h < MAX_QUEUE && |s| == MAX_QUEUE
    ensures VisitedFrom(s, s, h, 0)
  {
  }

  lemma NotYetVisited(s: seq<PathQuery>, s1: seq<PathQuery>, h: nat, i: nat, idx: nat)
    requires h < MAX_QUEUE && |s| == MAX_QUEUE && idx < MAX_QUEUE && VisitedFrom(s, s1, h, i) && Offset(h, idx) == i
    ensures s1[idx] == s[idx]
  {
    hide Visit;
  }

  lemma NoneServed(log: seq<Call>, s: seq<PathQuery>, h: nat)
    requires h < MAX_QUEUE && |s| == MAX_QUEUE
    ensures AllServed(log, |log|, s, s, h, 0)
  {
  }

  lemma ServedSince(log: seq<Call>, from: nat, from': nat, q: PathQuery, q': PathQuery)
    requires from <= from'
    ensures Served(log, from', q, q') ==> Served(log, from, q, q')
  {
    hide Serves;
  }

  lemma VisitNext(s: seq<PathQuery>, s1: seq<PathQuery>, s2: seq<PathQuery>, h: nat, i: nat, idx: nat)
    requires h < MAX_QUEUE && |s| == |s1| == MAX_QUEUE && idx < MAX_QUEUE && VisitedFrom(s, s1, h, i)
    requires forall j :: 0 <= j < MAX_QUEUE ==> (Offset(h, j) == i <==> j == idx)
    requires |s2| == MAX_QUEUE && s2 == s1[idx := s2[idx]] && Visit(s1[idx], s2[idx])
    ensures VisitedFrom(s, s2, h, i + 1)
  {
    hide Visit;
  }

  lemma AllVisited(s: seq<PathQuery>, s': seq<PathQuery>, h: nat, n: nat)
    requires h < MAX_QUEUE && |s| == MAX_QUEUE && VisitedFrom(s, s', h, n)
    ensures Updated(s, s')
  {
    hide Visit;
  }

  /** A finished result that no update has aged yet survives two updates with its path. */
  lemma SurvivesTwoUpdates(s: seq<PathQuery>, s1: seq<PathQuery>, s2: seq<PathQuery>, j: nat)
    requires Updated(s, s1) && Updated(s1, s2) && j < |s|
    requires Active(s[j]) && Finished(s[j].status) && s[j].keepAlive == 0
    ensures SameRequest(s[j], s2[j]) && s2[j].status == s[j].status && s2[j].path == s[j].path
    ensures s2[j].keepAlive <= 2
  {
    assert s1[j] == s[j] || Visit(s[j], s1[j]);
    assert s2[j] == s1[j] || Visit(s1[j], s2[j]);
  }

  /** A third visit drops it. */
  lemma DroppedAtThirdVisit(q: PathQuery, q1: PathQuery, q2: PathQuery, q3: PathQuery)
    requires Active(q) && Finished(q.status) && q.keepAlive == 0
    requires Visit(q, q1) && Visit(q1, q2) && Visit(q2, q3)
    ensures Active(q2) && !Active(q3)
  {
  }

  predicate DistinctHandles(s: seq<PathQuery>, next: nat) {
    && (forall j :: 0 <= j < |s| && Active(s[j]) ==> s[j].ref < next)
    && forall i, j :: 0 <= i < j < |s| && Active(s[i]) && Active(s[j]) ==> s[i].ref != s[j].ref
  }

  lemma UpdateKeepsHandles(s: seq<PathQuery>, s': seq<PathQuery>, next: nat)
    requires DistinctHandles(s, next) && Updated(s, s')
    ensures DistinctHandles(s', next)
  {
    forall j | 0 <= j < |s| && Active(s'[j])
      ensures Active(s[j]) && s'[j].ref == s[j].ref
    {
      assert s'[j] == s[j] || Visit(s[j], s'[j]);
    }
  }

  /** With distinct handles, the first slot with a request's handle is the request's own. */
  lemma OwnSlot(s: seq<PathQuery>, next: nat, slot: nat, j: nat)
    requires DistinctHandles(s, next) && slot < |s| && j < |s| && Active(s[slot]) && s[j].ref == s[slot].ref
    ensures j == slot
  {
  }

  class PathQueue {
    const queue: array<PathQuery>
    const maxPathSize: nat
    const navquery: SlicedQuery
    var nextHandle: nat
    var queueHead: nat

    /** No request in progress but the one at the head, and the search works on that one. */
    ghost predicate Valid()
      reads this, queue, navquery
    {
      && queue.Length == MAX_QUEUE && maxPathSize > 0 && 0 < nextHandle < 0x1_0000_0000
      && (forall j :: 0 <= j < MAX_QUEUE && Active(queue[j]) ==> SlotOk(j))
    }

    ghost predicate SlotOk(j: nat)
      requires j < queue.Length
      reads this, queue, navquery
    {
      && ResultOk(queue[j], maxPathSize) && queue[j].keepAlive <= MAX_KEEP_ALIVE
      && (!Finished(queue[j].status) ==> queue[j].keepAlive == 0)
      && (queue[j].status == InProgress ==>
           && j == queueHead % MAX_QUEUE && navquery.status == InProgress
           && navquery.startRef == queue[j].startRef && navquery.endRef == queue[j].endRef)
    }

    /** No two requests have the same handle, and none has one that is still to be given out. */
    ghost predicate HandlesDistinct()
      reads this, queue
    {
      DistinctHandles(queue[..], nextHandle)
    }

    constructor (maxPath: nat)
      requires maxPath > 0
      ensures Valid() && HandlesDistinct() && fresh(queue) && fresh(navquery) && maxPathSize == maxPath
      ensures nextHandle == 1
      ensures forall j :: 0 <= j < MAX_QUEUE ==> !Active(queue[j])
    {
      queue := new PathQuery[MAX_QUEUE](_ => PathQuery(DT_PATHQ_INVALID, 0, 0, [], Idle, 0));
      maxPathSize := maxPath;
      navquery := new SlicedQuery();
      nextHandle, queueHead := 1, 0;
    }

    /** The part of a visit that runs the search: start it, go on with it, fetch the result. */
    method RunQuery(idx: nat, iterCount: int) returns (iters: int)
      requires Valid() && idx == queueHead % MAX_QUEUE && Active(queue[idx]) && !Finished(queue[idx].status)
      requires iterCount > 0
      requires forall j :: 0 <= j < MAX_QUEUE && j != idx && Active(queue[j]) ==> queue[j].status != InProgress
      modifies queue, navquery
      ensures Valid() && forall j :: 0 <= j < MAX_QUEUE && j != idx ==> queue[j] == old(queue[j])
      ensures queue[idx].ref == old(queue[idx].ref) && Visit(old(queue[idx]), queue[idx])
      ensures 0 <= iters <= iterCount && navquery.spent == old(navquery.spent) + iters
      ensures queue[idx].status == InProgress ==> iters == iterCount
      ensures old(navquery.log) <= navquery.log
      ensures Serves(old(queue[idx]), navquery.log[|old(navquery.log)|..], iterCount, queue[idx])
    {
      ghost var log := navquery.log;
      var q := queue[idx];
      assert SlotOk(idx);
      iters := 0;
      if q.status == Idle {
        var s := navquery.InitSlicedFindPath(q.startRef, q.endRef);
        q := q.(status := s);
      }
      // Whenever a step is taken, the search works on the request of this slot.
      assert navquery.startRef == q.startRef && navquery.endRef == q.endRef && navquery.status == q.status;
      if q.status == InProgress {
        var s;
        s, iters := navquery.UpdateSlicedFindPath(iterCount);
        q := q.(status := s);
      }
      if q.status.Succeeded? {
        var s, path := navquery.FinalizeSlicedFindPath(maxPathSize);
        q := q.(status := s, path := path);
      }
      queue[idx] := q;
      assert navquery.log[..|log|] == log;
    }

    /** No request but one in slot `idx` is in progress. */
    ghost predicate OnlyAt(idx: nat)
      requires queue.Length == MAX_QUEUE
      reads this, queue
    {
      forall j :: 0 <= j < MAX_QUEUE && j != idx && Active(queue[j]) ==> queue[j].status != InProgress
    }

    /** Visit the slot at the head. */
    method VisitSlot(idx: nat, iterCount: int) returns (iters: int)
      requires Valid() && idx == queueHead % MAX_QUEUE && OnlyAt(idx) && iterCount > 0
      modifies queue, navquery
      ensures Valid() && OnlyAt(idx) && 0 <= iters <= iterCount && navquery.spent == old(navquery.spent) + iters
      ensures queue[..] == old(queue[..])[idx := queue[idx]] && Visit(old(queue[idx]), queue[idx])
      ensures Active(queue[idx]) && queue[idx].status == InProgress ==> iters == iterCount
      ensures old(navquery.log) <= navquery.log
      ensures old(Active(queue[idx]) && !Finished(queue[idx].status)) ==>
        Served(navquery.log, |old(navquery.log)|, old(queue[idx]), queue[idx])
    {
      hide Serves;
      ghost var before := queue[..];
      var q := queue[idx];
      iters := 0;
      if q.ref != DT_PATHQ_INVALID {
        if Finished(q.status) {
          q := q.(keepAlive := q.keepAlive + 1);
          if q.keepAlive > MAX_KEEP_ALIVE {
            q := q.(ref := DT_PATHQ_INVALID, status := Idle);
          }
          assert SlotOk(idx);
          queue[idx] := q;
        } else {
          ghost var from := |navquery.log|;
          iters := RunQuery(idx, iterCount);
          assert navquery.log[from..] == navquery.log[from..|navquery.log|];
        }
      }
      assert queue[..] == before[idx := queue[idx]];
    }

    /** update: it visits `n` slots in turn from the head on, all of them unless the `maxIters` iterations run out; the
        slot at which they ran out stays the head. */
    method Update(maxIters: int) returns (ghost n: nat)
      requires Valid() && maxIters > 0
      modifies this, queue, navquery
      ensures Valid() && Updated(old(queue[..]), queue[..]) && nextHandle == old(nextHandle)
      ensures old(HandlesDistinct()) ==> HandlesDistinct()
      ensures navquery.spent - old(navquery.spent) <= maxIters
      ensures n <= MAX_QUEUE && VisitedFrom(old(queue[..]), queue[..], old(queueHead) % MAX_QUEUE, n)
      ensures if navquery.spent - old(navquery.spent) < maxIters
        then n == MAX_QUEUE && queueHead == old(queueHead) + n
        else n > 0 && queueHead == old(queueHead) + n - 1
      ensures AllServed(navquery.log, |old(navquery.log)|, old(queue[..]), queue[..], old(queueHead) % MAX_QUEUE, n)
    {
      hide Visit, VisitedFrom, Updated, DistinctHandles, AllServed, Served;
      n := MAX_QUEUE;
      var iterCount := maxIters;
      ghost var s, head := queue[..], queueHead;
      ghost var h, log := head % MAX_QUEUE, navquery.log;
      NoneVisited(s, h);
      NoneServed(log, s, h);
      for i := 0 to MAX_QUEUE
        invariant Valid() && queueHead == head + i && VisitedFrom(s, queue[..], h, i) && iterCount > 0
        invariant nextHandle == old(nextHandle) && navquery.spent - old(navquery.spent) == maxIters - iterCount
        invariant OnlyAt(queueHead % MAX_QUEUE)
        invariant log <= navquery.log && AllServed(navquery.log, |log|, s, queue[..], h, i)
      {
        ghost var before, log0 := queue[..], navquery.log;
        var idx := queueHead % MAX_QUEUE;
        HeadOffset(head, i);
        var iters := VisitSlot(idx, iterCount);
        VisitNext(s, before, queue[..], h, i, idx);
        NotYetVisited(s, before, h, i, idx);
        ServedSince(navquery.log, |log|, |log0|, s[idx], queue[idx]);
        ServedNext(log0, navquery.log, |log|, s, before, queue[..], h, i, idx);
        iterCount := iterCount - iters;
        if iterCount <= 0 {
          n := i + 1;
          break;
        }
        queueHead := queueHead + 1;
      }
      AllVisited(s, queue[..], h, n);
      if DistinctHandles(s, nextHandle) {
        UpdateKeepsHandles(s, queue[..], nextHandle);
      }
    }

    /** The first slot with the given handle; -1 if there is none. */
    method FindSlot(ref: nat) returns (slot: int)
      requires queue.Length == MAX_QUEUE
      ensures -1 <= slot < MAX_QUEUE
      ensures slot == -1 ==> forall j :: 0 <= j < MAX_QUEUE ==> queue[j].ref != ref
      ensures slot != -1 ==> queue[slot].ref == ref && forall j :: 0 <= j < slot ==> queue[j].ref != ref
    {
      for i := 0 to MAX_QUEUE
        invariant forall j :: 0 <= j < i ==> queue[j].ref != ref
      {
        if queue[i].ref == ref {
          return i;
        }
      }
      slot := -1;
    }

    /** request: the first empty slot takes the request under a handle that is never the invalid one; without an empty
        slot nothing happens. */
    method Request(startRef: nat, endRef: nat) returns (ref: nat)
      requires Valid()
      modifies this, queue
      ensures Valid()
      ensures old(HandlesDistinct()) && old(nextHandle) < 0xffff_ffff ==> HandlesDistinct()
      ensures ref != DT_PATHQ_INVALID ==>
        nextHandle == if old(nextHandle) == 0xffff_ffff then 1 else old(nextHandle) + 1
      ensures ref == DT_PATHQ_INVALID ==> queue[..] == old(queue[..]) && nextHandle == old(nextHandle) &&
                                          forall j :: 0 <= j < MAX_QUEUE ==> Active(queue[j])
      ensures ref != DT_PATHQ_INVALID ==> ref == old(nextHandle) && exists slot ::
        && 0 <= slot < MAX_QUEUE && !Active(old(queue[..])[slot])
        && (forall j :: 0 <= j < slot ==> Active(old(queue[..])[j]))
        && queue[..] == old(queue[..])[slot := PathQuery(ref, startRef, endRef, [], Idle, 0)]
    {
      var slot := FindSlot(DT_PATHQ_INVALID);
      if slot == -1 {
        return DT_PATHQ_INVALID;
      }
      ref := nextHandle;
      nextHandle := (nextHandle + 1) % 0x1_0000_0000;
      if nextHandle == DT_PATHQ_INVALID {
        nextHandle := nextHandle + 1;
      }
      ghost var before := queue[..];
      queue[slot] := PathQuery(ref, startRef, endRef, [], Idle, 0);
      assert queue[..] == before[slot := PathQuery(ref, startRef, endRef, [], Idle, 0)];
    }

    /** Slot `j` holds the request with this handle. */
    ghost predicate Holds(j: nat, ref: nat)
      reads queue
    {
      j < queue.Length && Active(queue[j]) && queue[j].ref == ref
    }

    /** Slot `j` is the first one with the handle. */
    ghost predicate FirstWith(j: nat, ref: nat)
      reads queue
    {
      j < queue.Length && queue[j].ref == ref && forall i :: 0 <= i < j ==> queue[i].ref != ref
    }

    /** getRequestStatus: the status in the first slot with the handle, failure if there is none. */
    method GetRequestStatus(ref: nat) returns (s: Status)
      requires queue.Length == MAX_QUEUE
      ensures (forall j :: 0 <= j < MAX_QUEUE ==> queue[j].ref != ref) ==> s == Failed(0)
      ensures forall j: nat :: FirstWith(j, ref) ==> s == queue[j].status
      ensures forall j: nat :: HandlesDistinct() && Holds(j, ref) ==> s == queue[j].status
    {
      var slot := FindSlot(ref);
      forall j: nat | HandlesDistinct() && Holds(j, ref)
        ensures j == slot
      {
        OwnSlot(queue[..], nextHandle, j, slot);
      }
      s := if slot == -1 then Failed(0) else queue[slot].status;
    }

    /** getPathResult: the first `maxPath` polygons of the path in the slot with the handle, which becomes empty.
        With the invalid handle it takes whatever the first empty slot has left. */
    method GetPathResult(ref: nat, maxPath: nat) returns (s: Status, path: seq<nat>)
      requires Valid()
      modifies queue
      ensures Valid() && (old(HandlesDistinct()) ==> HandlesDistinct())
      ensures s == Failed(0) <==> forall j :: 0 <= j < MAX_QUEUE ==> old(queue[..])[j].ref != ref
      ensures s == Failed(0) ==> queue[..] == old(queue[..]) && path == []
      ensures forall j: nat :: old(HandlesDistinct()) && old(Holds(j, ref)) ==>
        s != Failed(0) && path == Take(old(queue[..])[j].path, maxPath)
      ensures s != Failed(0) ==> exists slot ::
        && 0 <= slot < MAX_QUEUE && old(queue[..])[slot].ref == ref && path == Take(old(queue[..])[slot].path, maxPath)
        && queue[..] == old(queue[..])[slot := old(queue[..])[slot].(ref := DT_PATHQ_INVALID, status := Idle)]
    {
      var slot := FindSlot(ref);
      if slot == -1 {
        return Failed(0), [];
      }
      ghost var before := queue[..];
      forall j: nat | HandlesDistinct() && Holds(j, ref)
        ensures j == slot
      {
        OwnSlot(queue[..], nextHandle, j, slot);
      }
      var q := queue[slot];
      var details := if Finished(q.status) then q.status.details else 0;
      queue[slot] := q.(ref := DT_PATHQ_INVALID, status := Idle);
      path := Take(q.path, maxPath);
      s := Succeeded(details);
      assert queue[..] == before[slot := before[slot].(ref := DT_PATHQ_INVALID, status := Idle)];
    }
  }

  lemma HeadOffset(head: nat, i: nat)
    requires i < MAX_QUEUE
    ensures forall j :: 0 <= j < MAX_QUEUE ==> (Offset(head % MAX_QUEUE, j) == i <==> j == (head + i) % MAX_QUEUE)
  {
  }
}
