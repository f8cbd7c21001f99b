/** dtTileCache as a class that updates its buffers in place, proved against TileCacheModel. */
module TileCache {
  import opened Basics
  import opened SharedLists
  import opened TileCacheModel

  /** An obstacle slot with its free-list link. */
  datatype Slot = Slot(ob: Obstacle, next: int)

  function Obstacles(slots: seq<Slot>): (obs: seq<Obstacle>)
    ensures |obs| == |slots| && forall i :: 0 <= i < |slots| ==> obs[i] == slots[i].ob
  {
    seq(|slots|, i requires 0 <= i < |slots| => slots[i].ob)
  }

  function Nexts(slots: seq<Slot>): (next: seq<int>)
    ensures |next| == |slots| && forall i :: 0 <= i < |slots| ==> next[i] == slots[i].next
  {
    seq(|slots|, i requires 0 <= i < |slots| => slots[i].next)
  }

  /** `list` is the chain of slots that starts at `head`. */
  ghost predicate Linked(slots: seq<Slot>, head: int, list: seq<nat>) {
    Chain(Nexts(slots), head, list)
  }

  lemma LinkedHead(slots: seq<Slot>, head: int, list: seq<nat>)
    requires Linked(slots, head, list)
    ensures head == if list == [] then NULL else list[0]
    ensures list != [] ==> list[0] < |slots| && Linked(slots, slots[list[0]].next, list[1..])
  {
    ChainAt(Nexts(slots), head, list, 0);
    if list != [] {
      ChainTail(Nexts(slots), head, list);
    }
  }

  lemma LinkedPush(slots: seq<Slot>, head: int, list: seq<nat>, i: nat, ob: Obstacle)
    requires Linked(slots, head, list) && i < |slots| && i !in list
    ensures Linked(slots[i := Slot(ob, head)], i, [i] + list)
  {
    ChainPush(Nexts(slots), head, list, i);
    assert Nexts(slots[i := Slot(ob, head)]) == Nexts(slots)[i := head];
  }

  lemma LinkedFrame(slots: seq<Slot>, slots': seq<Slot>, head: int, list: seq<nat>)
    requires Linked(slots, head, list) && |slots'| == |slots|
    requires forall i :: 0 <= i < |slots| && i in list ==> slots'[i].next == slots[i].next
    ensures Linked(slots', head, list)
  {
    ChainFrame(Nexts(slots), Nexts(slots'), head, list);
  }

  method Contains(a: array<TileRef>, n: nat, v: TileRef) returns (found: bool)
    requires n <= a.Length
    ensures found <==> v in a[..n]
  {
    for i := 0 to n
      invariant v !in a[..i]
    {
      if a[i] == v {
        return true;
      }
    }
    return false;
  }

  lemma QueueNone(upd: seq<TileRef>)
    ensures QueueTiles([], upd) == (upd, [])
  {
  }

  lemma QueueTilesStep(ts: seq<TileRef>, j: nat, upd: seq<TileRef>)
    requires j < |ts|
    ensures var (u, p) := QueueTiles(ts[..j], upd);
      QueueTiles(ts[..j + 1], upd) ==
        if |u| < MAX_UPDATE then (if ts[j] in u then u else u + [ts[j]], p + [ts[j]]) else (u, p)
  {
    assert ts[..j + 1][..j] == ts[..j];
  }

  /** Slots that are all free, chained in order. */
  method NewSlots(n: nat, blank: Obstacle) returns (slots: array<Slot>, head: int)
    ensures fresh(slots) && slots.Length == n
    ensures forall i :: 0 <= i < n ==> slots[i] == Slot(blank, if i + 1 < n then i + 1 else NULL)
    ensures head == if n == 0 then NULL else 0
  {
    slots := new Slot[n](_ => Slot(blank, NULL));
    head := NULL;
    for k := 0 to n
      invariant head == if k == 0 then NULL else n - k
      invariant forall i :: n - k <= i < n ==> slots[i] == Slot(blank, if i + 1 < n then i + 1 else NULL)
    {
      var i := n - 1 - k;
      slots[i] := Slot(blank, head);
      head := i;
    }
  }

  class TileCache {
    const query: TileQuery
    const obstacles: array<Slot>
    const reqs: array<Request>
    const update: array<TileRef>
    var nextFree: int
    var nreqs: nat
    var nupdate: nat
    var mesh: map<TileRef, seq<Shape>>

    ghost var freeList: seq<nat>
    ghost var dropped: set<TileRef>
    ghost var issued: set<ObstacleRef>

    ghost predicate Sized()
      reads this
    {
      && reqs.Length == MAX_REQUESTS && nreqs <= MAX_REQUESTS
      && update.Length == MAX_UPDATE && nupdate <= MAX_UPDATE
      && obstacles.Length <= 0x1_0000
    }

    ghost function Abs(): State
      requires Sized()
      reads this, obstacles, reqs, update
    {
      State(Obstacles(obstacles[..]), freeList, reqs[..nreqs], update[..nupdate], mesh, dropped, issued)
    }

    ghost predicate Valid()
      reads this, obstacles, reqs, update
    {
      && Sized()
      && Linked(obstacles[..], nextFree, freeList)
      && GoodQuery(query, mesh.Keys)
      && Inv(Abs())
    }

    constructor (maxObstacles: nat, tiles: set<TileRef>, query: TileQuery)
      requires maxObstacles <= 0x1_0000 && GoodQuery(query, tiles)
      ensures Valid() && fresh(obstacles) && fresh(reqs) && fresh(update)
      ensures this.query == query && Abs() == InitialState(maxObstacles, tiles)
    {
      hide Inv, GoodQuery;
      var blank := Obstacle(Cylinder((0.0, 0.0, 0.0), 0.0, 0.0), [], [], 1, Empty);
      var slots, head := NewSlots(maxObstacles, blank);
      this.query := query;
      obstacles := slots;
      reqs := new Request[MAX_REQUESTS](_ => Request.Add(0));
      update := new TileRef[MAX_UPDATE](_ => 0);
      nextFree, nreqs, nupdate := head, 0, 0;
      mesh := map t | t in tiles :: [];
      freeList := seq(maxObstacles, i => i);
      dropped, issued := {}, {};
      new;
      InitialInv(maxObstacles, tiles);
      assert Abs().obs == InitialState(maxObstacles, tiles).obs;
      assert mesh.Keys == tiles;
    }

    /** Take the first free slot for an obstacle and queue its ADD request. */
    method TakeSlot(shape: Shape) returns (ref: ObstacleRef)
      requires Sized() && nreqs < MAX_REQUESTS && freeList != [] && Distinct(freeList)
      requires Linked(obstacles[..], nextFree, freeList)
      requires forall k :: 0 <= k < |freeList| ==> freeList[k] < obstacles.Length
      modifies this`nextFree, this`nreqs, this`freeList, this`issued, obstacles, reqs
      ensures Sized() && Linked(obstacles[..], nextFree, freeList)
      ensures (Abs(), Success, ref) == TileCacheModel.AddObstacle(old(Abs()), shape)
    {
      var i := nextFree;
      ghost var before := Abs();
      ghost var slots := obstacles[..];
      LinkedHead(slots, i, freeList);
      nextFree := obstacles[i].next;
      var salt := obstacles[i].ob.salt;
      obstacles[i] := Slot(Obstacle(shape, [], [], salt, Processing), NULL);
      ref := EncodeObstacleId(salt, i);
      reqs[nreqs] := Add(ref);
      nreqs := nreqs + 1;
      freeList := freeList[1..];
      issued := issued + {ref};
      assert before.free == [i] + freeList;
      LinkedFrame(slots, obstacles[..], nextFree, freeList);
      assert Abs().obs == before.obs[i := obstacles[i].ob];
      assert Abs().reqs == before.reqs + [Add(ref)];
    }

    /** The common body of addObstacle and addBoxObstacle. */
    method AddShape(shape: Shape) returns (status: Status, ref: ObstacleRef)
      requires Valid()
      modifies this, obstacles, reqs
      ensures Valid()
      ensures (Abs(), status, ref) == TileCacheModel.AddObstacle(old(Abs()), shape)
    {
      AddObstacleInv(Abs(), shape);
      LinkedHead(obstacles[..], nextFree, freeList);
      if nreqs >= MAX_REQUESTS {
        return BufferTooSmall, 0;
      }
      if nextFree == NULL {
        return OutOfMemory, 0;
      }
      ref := TakeSlot(shape);
      status := Success;
    }

    method AddObstacle(pos: Vec, radius: real, height: real) returns (status: Status, ref: ObstacleRef)
      requires Valid()
      modifies this, obstacles, reqs
      ensures Valid()
      ensures (Abs(), status, ref) == TileCacheModel.AddObstacle(old(Abs()), Cylinder(pos, radius, height))
    {
      status, ref := AddShape(Cylinder(pos, radius, height));
    }

    method AddBoxObstacle(bmin: Vec, bmax: Vec) returns (status: Status, ref: ObstacleRef)
      requires Valid()
      modifies this, obstacles, reqs
      ensures Valid()
      ensures (Abs(), status, ref) == TileCacheModel.AddObstacle(old(Abs()), Box(bmin, bmax))
    {
      status, ref := AddShape(Box(bmin, bmax));
    }

    method RemoveObstacle(ref: ObstacleRef) returns (status: Status)
      requires Valid() && (ref == 0 || ref in issued)
      modifies this, reqs
      ensures Valid()
      ensures (Abs(), status) == TileCacheModel.RemoveObstacle(old(Abs()), ref)
    {
      RemoveObstacleInv(Abs(), ref);
      if ref == 0 {
        return Success;
      }
      if nreqs >= MAX_REQUESTS {
        return BufferTooSmall;
      }
      ghost var before := Abs();
      reqs[nreqs] := Remove(ref);
      nreqs := nreqs + 1;
      status := Success;
      assert Abs() == before.(reqs := before.reqs + [Remove(ref)]);
    }

    /** Queue one tile while the list has room; it is then pending for slot `i`. */
    method QueueOne(i: nat, t: TileRef)
      requires Sized() && i < obstacles.Length
      modifies this`nupdate, update, obstacles
      ensures Sized()
      ensures old(nupdate) >= MAX_UPDATE ==>
        update[..nupdate] == old(update[..nupdate]) && obstacles[..] == old(obstacles[..])
      ensures old(nupdate) < MAX_UPDATE ==>
        var u, slot := old(update[..nupdate]), old(obstacles[i]);
        && update[..nupdate] == (if t in u then u else u + [t])
        && obstacles[..] == old(obstacles[..])[i := slot.(ob := slot.ob.(pending := slot.ob.pending + [t]))]
    {
      if nupdate < MAX_UPDATE {
        var found := Contains(update, nupdate, t);
        if !found {
          update[nupdate] := t;
          nupdate := nupdate + 1;
        }
        obstacles[i] := obstacles[i].(ob := obstacles[i].ob.(pending := obstacles[i].ob.pending + [t]));
      }
    }

    /** Add the tiles a slot touches to the update list and to the slot's pending list. */
    method QueueTouched(i: nat)
      requires Sized() && i < obstacles.Length
      modifies this`nupdate, update, obstacles
      ensures Sized()
      ensures var ob := old(obstacles[i].ob);
        var (u, p) := QueueTiles(ob.touched, old(update[..nupdate]));
        update[..nupdate] == u &&
        obstacles[..] == old(obstacles[..])[i := Slot(ob.(pending := p), old(obstacles[i].next))]
    {
      hide QueueTiles;
      var slot := obstacles[i];
      var touched := slot.ob.touched;
      ghost var upd, slots := update[..nupdate], obstacles[..];
      obstacles[i] := slot.(ob := slot.ob.(pending := []));
      QueueNone(upd);
      for j := 0 to |touched|
        invariant Sized()
        invariant var (u, p) := QueueTiles(touched[..j], upd);
          update[..nupdate] == u && obstacles[..] == slots[i := Slot(slot.ob.(pending := p), slot.next)]
      {
        QueueTilesStep(touched, j, upd);
        QueueOne(i, touched[j]);
      }
      assert touched[..|touched|] == touched;
    }

    method ProcessRequest(req: Request, ghost asked: set<TileRef>) returns (ghost b: Batch)
      requires Sized()
      modifies this`nupdate, update, obstacles
      ensures Sized()
      ensures b == TileCacheModel.ProcessRequest(query,
                     old(Batch(Obstacles(obstacles[..]), update[..nupdate], asked)), req)
      ensures Obstacles(obstacles[..]) == b.obs && update[..nupdate] == b.upd
      ensures forall k :: 0 <= k < obstacles.Length ==> obstacles[k].next == old(obstacles[k].next)
    {
      ghost var b0 := Batch(Obstacles(obstacles[..]), update[..nupdate], asked);
      b := TileCacheModel.ProcessRequest(query, b0, req);
      var idx := DecodeIndex(req.ref);
      if idx >= obstacles.Length {
        return;
      }
      if obstacles[idx].ob.salt != DecodeSalt(req.ref) {
        return;
      }
      var slot := obstacles[idx];
      if req.Add? {
        obstacles[idx] := slot.(ob := slot.ob.(touched := TouchedTiles(query, slot.ob.shape)));
      } else {
        obstacles[idx] := slot.(ob := slot.ob.(state := Removing));
      }
      assert obstacles[idx].ob == Requested(query, slot.ob, req);
      QueueTouched(idx);
      assert Obstacles(obstacles[..]) == b.obs;
    }

    method ProcessRequests()
      requires Valid() && nupdate == 0
      modifies this, update, obstacles
      ensures Valid() && Abs() == RunBatch(query, old(Abs()))
    {
      hide Linked, Inv, GoodQuery;
      RunBatchInv(query, Abs());
      ghost var before := Abs();
      ghost var b := Batch(before.obs, [], {});
      assert update[..nupdate] == [] && before.upd == [];
      for i := 0 to nreqs
        invariant Sized() && reqs[..nreqs] == before.reqs
        invariant b == TileCacheModel.ProcessRequests(query, Batch(before.obs, [], {}), before.reqs[..i])
        invariant Obstacles(obstacles[..]) == b.obs && update[..nupdate] == b.upd
        invariant forall k :: 0 <= k < obstacles.Length ==> obstacles[k].next == old(obstacles[k].next)
        invariant unchanged(`nreqs, `nextFree, `mesh, `freeList, `dropped, `issued)
      {
        assert before.reqs[..i + 1][..i] == before.reqs[..i];
        b := ProcessRequest(reqs[i], b.asked);
      }
      assert before.reqs[..nreqs] == before.reqs;
      LinkedFrame(old(obstacles[..]), obstacles[..], nextFree, freeList);
      nreqs := 0;
      dropped := dropped + (b.asked - Elements(b.upd));
      assert Abs() == RunBatch(query, before);
    }

    /** Take tile `t` off the pending list of slot `i` and advance the obstacle's state. */
    method SettleObstacle(i: nat, t: TileRef)
      requires i < obstacles.Length && Linked(obstacles[..], nextFree, freeList)
      requires obstacles[i].ob.state.Removing? ==> i !in freeList
      modifies this`nextFree, this`freeList, obstacles
      ensures Linked(obstacles[..], nextFree, freeList)
      ensures forall k :: 0 <= k < obstacles.Length && k != i ==> obstacles[k] == old(obstacles[k])
      ensures obstacles[i].ob == Settle(old(obstacles[i].ob), t)
      ensures freeList == if Freed(old(obstacles[i].ob), t) then [i] + old(freeList) else old(freeList)
    {
      var ob := obstacles[i].ob;
      ghost var slots, head, list := obstacles[..], nextFree, freeList;
      if ob.state == Processing || ob.state == Removing {
        var pending := RemovePending(ob.pending, t);
        if pending != [] {
          obstacles[i] := obstacles[i].(ob := ob.(pending := pending));
        } else if ob.state == Processing {
          obstacles[i] := obstacles[i].(ob := ob.(pending := [], state := Processed));
        } else {
          obstacles[i] := Slot(ob.(pending := [], state := Empty, salt := NextSalt(ob.salt)), nextFree);
          nextFree := i;
          freeList := [i] + freeList;
          LinkedPush(slots, head, list, i, obstacles[i].ob);
          assert obstacles[..] == slots[i := obstacles[i]];
          return;
        }
        LinkedFrame(slots, obstacles[..], head, list);
      }
    }

    method SettleObstacles(t: TileRef)
      requires Sized() && Linked(obstacles[..], nextFree, freeList)
      requires FreeOk(Obstacles(obstacles[..]), freeList)
      modifies this`nextFree, this`freeList, obstacles
      ensures Sized() && Linked(obstacles[..], nextFree, freeList)
      ensures Abs() == SettleState(old(Abs()), t)
    {
      hide Linked, Freed, FreeAfter, FreeOk, Settle, SwapRemove;
      ghost var obs := Obstacles(obstacles[..]);
      ghost var free := freeList;
      FreeAfterStart(obs, t, free);
      for i := 0 to obstacles.Length
        invariant Linked(obstacles[..], nextFree, freeList)
        invariant forall k :: 0 <= k < obstacles.Length ==>
          obstacles[k].ob == if k < i then Settle(obs[k], t) else obs[k]
        invariant freeList == FreeAfter(obs, t, i, free)
      {
        NextToSettle(obs, t, i, free);
        SettleObstacle(i, t);
      }
      assert Obstacles(obstacles[..]) == SettleAll(obs, t);
    }

    /** Move the queued tiles one place to the front. */
    method ShiftUpdate()
      requires 0 < nupdate <= update.Length
      modifies update
      ensures update[..nupdate - 1] == old(update[1..nupdate])
    {
      forall k | 0 <= k < nupdate - 1 {
        update[k] := update[k + 1];
      }
    }

    /** Take the first entry off the update list by moving the others down. */
    method DropFirst()
      requires Sized() && nupdate > 0
      modifies this`nupdate, update
      ensures Sized() && Abs() == old(Abs()).(upd := old(Abs()).upd[1..])
    {
      hide Obstacles;
      ShiftUpdate();
      nupdate := nupdate - 1;
      assert old(update[..nupdate])[1..] == old(update[1..nupdate]);
    }

    /** Build the first queued tile, take it off the list and settle the obstacles. */
    method BuildNext()
      requires Sized() && nupdate > 0
      requires Linked(obstacles[..], nextFree, freeList) && FreeOk(Obstacles(obstacles[..]), freeList)
      modifies this, update, obstacles
      ensures Sized() && Linked(obstacles[..], nextFree, freeList)
      ensures Abs() == BuildFirst(old(Abs()))
    {
      hide Linked, FreeOk, SettleAll, FreeAfter, Marks;
      var t := update[0];
      var marks := RasterizeObstacles(t);
      mesh := mesh[t := marks];
      DropFirst();
      SettleObstacles(t);
      dropped := dropped - {t};
    }

    /** The obstacle filter of buildNavMeshTile. */
    method RasterizeObstacles(t: TileRef) returns (marks: seq<Shape>)
      ensures marks == Marks(Obstacles(obstacles[..]), t)
    {
      ghost var obs := Obstacles(obstacles[..]);
      marks := [];
      for i := 0 to obstacles.Length
        invariant marks == Marks(obs[..i], t)
      {
        assert obs[..i + 1][..i] == obs[..i];
        var ob := obstacles[i].ob;
        if ob.state == Empty || ob.state == Removing {
          continue;
        }
        if t in ob.touched {
          marks := marks + [ob.shape];
        }
      }
      assert obs[..obstacles.Length] == obs;
    }

    method Update() returns (upToDate: bool)
      requires Valid() && NoSaltWrap(Abs())
      modifies this, update, obstacles
      ensures Valid()
      ensures (Abs(), upToDate) == TileCacheModel.Update(query, old(Abs()))
      ensures upToDate && dropped == {} ==> mesh == FullRebuild(Abs())
    {
      ghost var before := Abs();
      assert before.upd == [] <==> nupdate == 0;
      if nupdate == 0 {
        ProcessRequestsSalts(query, Batch(before.obs, [], {}), before.reqs);
        ProcessRequests();
      }
      if nupdate != 0 {
        BuildFirstInv(Abs());
        BuildFirstObstacles(Abs());
        BuildNext();
      }
      upToDate := nupdate == 0 && nreqs == 0;
      if upToDate && dropped == {} {
        UpToDateIsFullRebuild(query, before);
      }
    }
  }

  lemma FreeAfterStart(obs: seq<Obstacle>, t: TileRef, free: seq<nat>)
    ensures FreeAfter(obs, t, 0, free) == free
  {
  }

  /** The slot that is settled next is free only if its obstacle is empty. */
  lemma NextToSettle(obs: seq<Obstacle>, t: TileRef, i: nat, free: seq<nat>)
    requires i < |obs| && FreeOk(obs, free)
    ensures obs[i].state.Removing? ==> i !in FreeAfter(obs, t, i, free)
    ensures var f := FreeAfter(obs, t, i, free);
            FreeAfter(obs, t, i + 1, free) == if Freed(obs[i], t) then [i] + f else f
  {
    FreeAfterFacts(obs, t, i, free);
  }

  /** Remove the first occurrence of `t`, moving the last entry into its place. */
  method RemovePending(pending: seq<TileRef>, t: TileRef) returns (rest: seq<TileRef>)
    ensures rest == SwapRemove(pending, t)
  {
    rest := pending;
    for j := 0 to |pending|
      invariant t !in pending[..j] && rest == pending
    {
      if rest[j] == t {
        FirstIndexUnique(pending, t, j);
        rest := rest[j := rest[|rest| - 1]][..|rest| - 1];
        return;
      }
    }
  }

  lemma {:induction false} FirstIndexUnique(s: seq<TileRef>, t: TileRef, j: nat)
    requires j < |s| && s[j] == t && t !in s[..j]
    ensures t in s && IndexOf(s, t) == j
  {
    if j > 0 {
      assert s[..j][0] == s[0] && s[1..][..j - 1] == s[..j][1..];
      FirstIndexUnique(s[1..], t, j - 1);
    }
  }
}
