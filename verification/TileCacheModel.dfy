/** The obstacle protocol of dtTileCache, and what every run of it keeps. */
module TileCacheModel {
  import opened Basics

  const MAX_TOUCHED_TILES := 8
  const MAX_REQUESTS := 64
  const MAX_UPDATE := 64

  type TileRef = nat
  type ObstacleRef = nat
  type TileQuery = (Vec, Vec) -> seq<TileRef>

  datatype Shape =
    | Cylinder(pos: Vec, radius: real, height: real)
    | Box(bmin: Vec, bmax: Vec)

  datatype ObstacleState = Empty | Processing | Processed | Removing

  datatype Obstacle = Obstacle(
    shape: Shape, touched: seq<TileRef>, pending: seq<TileRef>, salt: nat, state: ObstacleState)

  datatype Request = Add(ref: ObstacleRef) | Remove(ref: ObstacleRef)

  datatype Status = Success | BufferTooSmall | OutOfMemory

  /** The navmesh is represented by what each tile was last built from: `mesh[t]` is the sequence of obstacle shapes
      that were rasterized into tile `t`. Which tiles a box touches is a parameter (`TileQuery`).

      `dropped` and `issued` are bookkeeping the program does not store: the tiles a full update list refused and
      that were not rebuilt since, and the references handed out so far. */
  datatype State = State(
    obs: seq<Obstacle>, free: seq<nat>, reqs: seq<Request>, upd: seq<TileRef>,
    mesh: map<TileRef, seq<Shape>>, dropped: set<TileRef>, issued: set<ObstacleRef>)

  /** The part of the state that a batch of requests works on, with the set of tiles the batch asked for. */
  datatype Batch = Batch(obs: seq<Obstacle>, upd: seq<TileRef>, asked: set<TileRef>)

  // ----- Obstacle references -----

  function EncodeObstacleId(salt: nat, idx: nat): ObstacleRef {
    salt * 0x1_0000 + idx
  }

  function DecodeIndex(ref: ObstacleRef): nat {
    ref % 0x1_0000
  }

  function DecodeSalt(ref: ObstacleRef): nat {
    (ref / 0x1_0000) % 0x1_0000
  }

  lemma ObstacleIdRoundTrip(salt: nat, idx: nat)
    requires salt < 0x1_0000 && idx < 0x1_0000
    ensures DecodeIndex(EncodeObstacleId(salt, idx)) == idx
    ensures DecodeSalt(EncodeObstacleId(salt, idx)) == salt
    ensures EncodeObstacleId(salt, idx) < 0x1_0000_0000
    ensures salt > 0 ==> EncodeObstacleId(salt, idx) != 0
  {
  }

  /** A reference that decodes and encodes to itself: all that fit in 32 bits. */
  predicate Canonical(ref: ObstacleRef) {
    ref == EncodeObstacleId(DecodeSalt(ref), DecodeIndex(ref))
  }

  /** Salts count up in 16 bits and skip zero. */
  function NextSalt(salt: nat): nat {
    var n := (salt + 1) % 0x1_0000;
    if n == 0 then 1 else n
  }

  // ----- Operations -----

  function Bounds(s: Shape): (Vec, Vec) {
    match s
    case Cylinder(p, r, h) => ((p.0 - r, p.1, p.2 - r), (p.0 + r, p.1 + h, p.2 + r))
    case Box(bmin, bmax) => (bmin, bmax)
  }

  function TouchedTiles(q: TileQuery, s: Shape): seq<TileRef> {
    q(Bounds(s).0, Bounds(s).1)
  }

  function AddObstacle(st: State, shape: Shape): (State, Status, ObstacleRef)
    requires forall k :: 0 <= k < |st.free| ==> st.free[k] < |st.obs|
  {
    if |st.reqs| >= MAX_REQUESTS then (st, BufferTooSmall, 0)
    else if st.free == [] then (st, OutOfMemory, 0)
    else
      var i := st.free[0];
      var salt := st.obs[i].salt;
      var ref := EncodeObstacleId(salt, i);
      (st.(obs := st.obs[i := Obstacle(shape, [], [], salt, Processing)], free := st.free[1..],
           reqs := st.reqs + [Add(ref)], issued := st.issued + {ref}), Success, ref)
  }

  function RemoveObstacle(st: State, ref: ObstacleRef): (State, Status) {
    if ref == 0 then (st, Success)
    else if |st.reqs| >= MAX_REQUESTS then (st, BufferTooSmall)
    else (st.(reqs := st.reqs + [Remove(ref)]), Success)
  }

  /** Queue tiles one by one; a tile is taken (and becomes pending) only while the update list has room. */
  function QueueTiles(ts: seq<TileRef>, upd: seq<TileRef>): (seq<TileRef>, seq<TileRef>) {
    if ts == [] then (upd, [])
    else
      var n := |ts| - 1;
      var (u, p) := QueueTiles(ts[..n], upd);
      if |u| < MAX_UPDATE then (if ts[n] in u then u else u + [ts[n]], p + [ts[n]]) else (u, p)
  }

  predicate Accepts(obs: seq<Obstacle>, ref: ObstacleRef) {
    DecodeIndex(ref) < |obs| && obs[DecodeIndex(ref)].salt == DecodeSalt(ref)
  }

  /** The obstacle a request turns its slot into, before its tiles are queued. */
  function Requested(q: TileQuery, ob: Obstacle, req: Request): Obstacle {
    if req.Add? then ob.(touched := TouchedTiles(q, ob.shape)) else ob.(state := Removing)
  }

  function ProcessRequest(q: TileQuery, b: Batch, req: Request): Batch {
    if !Accepts(b.obs, req.ref) then b
    else
      var i := DecodeIndex(req.ref);
      var ob := Requested(q, b.obs[i], req);
      var (u, p) := QueueTiles(ob.touched, b.upd);
      Batch(b.obs[i := ob.(pending := p)], u, b.asked + Elements(ob.touched))
  }

  function ProcessRequests(q: TileQuery, b: Batch, reqs: seq<Request>): Batch {
    if reqs == [] then b
    else ProcessRequest(q, ProcessRequests(q, b, reqs[..|reqs| - 1]), reqs[|reqs| - 1])
  }

  function RunBatch(q: TileQuery, st: State): State {
    var b := ProcessRequests(q, Batch(st.obs, [], {}), st.reqs);
    st.(obs := b.obs, upd := b.upd, reqs := [], dropped := st.dropped + (b.asked - Elements(b.upd)))
  }

  predicate Contributes(ob: Obstacle, t: TileRef) {
    !ob.state.Empty? && !ob.state.Removing? && t in ob.touched
  }

  /** The shapes that building tile `t` rasterizes, in slot order. */
  function Marks(obs: seq<Obstacle>, t: TileRef): seq<Shape> {
    if obs == [] then []
    else
      var n := |obs| - 1;
      Marks(obs[..n], t) + if Contributes(obs[n], t) then [obs[n].shape] else []
  }

  /** Remove the first occurrence by moving the last element into its place. */
  function SwapRemove(s: seq<TileRef>, t: TileRef): seq<TileRef> {
    if t in s then s[IndexOf(s, t) := s[|s| - 1]][..|s| - 1] else s
  }

  predicate Unsettled(ob: Obstacle) {
    ob.state.Processing? || ob.state.Removing?
  }

  predicate AllSettled(obs: seq<Obstacle>) {
    forall i :: 0 <= i < |obs| ==> !Unsettled(obs[i])
  }

  function Settle(ob: Obstacle, t: TileRef): Obstacle {
    if !Unsettled(ob) then ob
    else
      var p := SwapRemove(ob.pending, t);
      if p != [] then ob.(pending := p)
      else if ob.state.Processing? then ob.(pending := [], state := Processed)
      else ob.(pending := [], state := Empty, salt := NextSalt(ob.salt))
  }

  function SettleAll(obs: seq<Obstacle>, t: TileRef): (r: seq<Obstacle>)
    ensures |r| == |obs| && forall i :: 0 <= i < |obs| ==> r[i] == Settle(obs[i], t)
  {
    seq(|obs|, i requires 0 <= i < |obs| => Settle(obs[i], t))
  }

  predicate Freed(ob: Obstacle, t: TileRef) {
    ob.state.Removing? && SwapRemove(ob.pending, t) == []
  }

  /** The free list after the first `n` slots were settled: freed slots go to the front. */
  function FreeAfter(obs: seq<Obstacle>, t: TileRef, n: nat, free: seq<nat>): seq<nat>
    requires n <= |obs|
  {
    if n == 0 then free
    else
      var f := FreeAfter(obs, t, n - 1, free);
      if Freed(obs[n - 1], t) then [n - 1] + f else f
  }

  function SettleState(st: State, t: TileRef): State {
    st.(obs := SettleAll(st.obs, t), free := FreeAfter(st.obs, t, |st.obs|, st.free))
  }

  function BuildFirst(st: State): State
    requires st.upd != []
  {
    var t := st.upd[0];
    SettleState(st, t).(mesh := st.mesh[t := Marks(st.obs, t)], upd := st.upd[1..], dropped := st.dropped - {t})
  }

  function Update(q: TileQuery, st: State): (State, bool) {
    var s1 := if st.upd == [] then RunBatch(q, st) else st;
    var s2 := if s1.upd != [] then BuildFirst(s1) else s1;
    (s2, s2.upd == [] && s2.reqs == [])
  }

  // ----- The invariant -----

  ghost predicate GoodQuery(q: TileQuery, tiles: set<TileRef>) {
    forall a, b :: |q(a, b)| <= MAX_TOUCHED_TILES && Distinct(q(a, b)) && Elements(q(a, b)) <= tiles
  }

  predicate ObstacleOk(ob: Obstacle, upd: seq<TileRef>, tiles: set<TileRef>) {
    && 1 <= ob.salt < 0x1_0000
    && |ob.touched| <= MAX_TOUCHED_TILES && Distinct(ob.touched) && Elements(ob.touched) <= tiles
    && (Unsettled(ob) ==> Distinct(ob.pending) && forall t :: t in ob.pending ==> t in upd)
  }

  ghost predicate FreeOk(obs: seq<Obstacle>, free: seq<nat>) {
    && Distinct(free) && (forall k :: 0 <= k < |free| ==> free[k] < |obs|)
    && forall i: nat :: i in free <==> i < |obs| && obs[i].state.Empty?
  }

  /** A reference that was handed out names a past or the present life of its slot. */
  predicate IssuedRef(obs: seq<Obstacle>, ref: ObstacleRef) {
    && Canonical(ref) && DecodeIndex(ref) < |obs|
    && var ob := obs[DecodeIndex(ref)];
       DecodeSalt(ref) <= ob.salt && (DecodeSalt(ref) == ob.salt ==> !ob.state.Empty?)
  }

  /** An obstacle whose ADD request is still queued touches nothing yet, though it may be Processed already. */
  predicate AwaitsAdd(obs: seq<Obstacle>, ref: ObstacleRef) {
    && Accepts(obs, ref)
    && var ob := obs[DecodeIndex(ref)];
       (ob.state.Processing? || ob.state.Processed?) && ob.touched == []
  }

  predicate RequestsOk(obs: seq<Obstacle>, reqs: seq<Request>, issued: set<ObstacleRef>) {
    && (forall i :: 0 <= i < |reqs| ==> reqs[i].ref in issued)
    && (forall i :: 0 <= i < |reqs| && reqs[i].Add? ==> AwaitsAdd(obs, reqs[i].ref))
    && (forall i, j :: 0 <= j < i < |reqs| && reqs[i].Add? ==> reqs[j].ref != reqs[i].ref)
  }

  /** Every tile outside `stale` was last built from exactly the obstacles that contribute to it now. */
  predicate Coherent(obs: seq<Obstacle>, mesh: map<TileRef, seq<Shape>>, stale: set<TileRef>) {
    forall t :: t in mesh && t !in stale ==> mesh[t] == Marks(obs, t)
  }

  ghost predicate Inv(st: State) {
    && |st.obs| <= 0x1_0000
    && |st.reqs| <= MAX_REQUESTS
    && |st.upd| <= MAX_UPDATE && Distinct(st.upd) && Elements(st.upd) <= st.mesh.Keys
    && (forall i :: 0 <= i < |st.obs| ==> ObstacleOk(st.obs[i], st.upd, st.mesh.Keys))
    && FreeOk(st.obs, st.free)
    && (forall r :: r in st.issued ==> IssuedRef(st.obs, r))
    && RequestsOk(st.obs, st.reqs, st.issued)
    && Coherent(st.obs, st.mesh, Elements(st.upd) + st.dropped)
  }

  /** No slot's salt is about to wrap around. */
  predicate NoSaltWrap(st: State) {
    forall i :: 0 <= i < |st.obs| ==> st.obs[i].salt < 0xffff
  }

  // ----- Building a tile sees exactly the contributing obstacles -----

  lemma {:induction false} MarksPointwise(a: seq<Obstacle>, b: seq<Obstacle>, t: TileRef)
    requires |a| == |b|
    requires forall i :: 0 <= i < |a| ==>
      Contributes(a[i], t) == Contributes(b[i], t) && (Contributes(a[i], t) ==> a[i].shape == b[i].shape)
    ensures Marks(a, t) == Marks(b, t)
  {
    if a != [] {
      var n := |a| - 1;
      MarksPointwise(a[..n], b[..n], t);
    }
  }

  /** A slot's change is invisible to a tile that the slot contributes to neither before nor after. */
  lemma MarksUpdate(obs: seq<Obstacle>, i: nat, ob: Obstacle, t: TileRef)
    requires i < |obs| && !Contributes(obs[i], t) && !Contributes(ob, t)
    ensures Marks(obs[i := ob], t) == Marks(obs, t)
  {
    MarksPointwise(obs[i := ob], obs, t);
  }

  // ----- Queueing tiles -----

  lemma {:induction false} QueueTilesFacts(ts: seq<TileRef>, upd: seq<TileRef>)
    requires Distinct(ts) && Distinct(upd) && |upd| <= MAX_UPDATE
    ensures var (u, p) := QueueTiles(ts, upd);
      && Distinct(u) && |u| <= MAX_UPDATE && upd <= u && Elements(u) <= Elements(upd) + Elements(ts)
      && Distinct(p) && (forall t :: t in p ==> t in u && t in ts)
      && (forall t :: t in ts && t !in u ==> |u| == MAX_UPDATE)
  {
    if ts != [] {
      var n := |ts| - 1;
      QueueTilesFacts(ts[..n], upd);
      var (u0, p0) := QueueTiles(ts[..n], upd);
      assert Elements(ts) == Elements(ts[..n]) + {ts[n]};
      assert forall u: seq<TileRef> {:trigger Elements(u)} :: u == u0 + [ts[n]] ==>
        Elements(u) == Elements(u0) + {ts[n]};
      assert forall t :: t in p0 ==> t in ts[..n];
      assert ts[n] !in ts[..n];
    }
  }

  // ----- A batch of requests -----

  /** What holds between two requests of a batch; `todo` are the requests not read yet. */
  ghost predicate BatchInv(st: State, b: Batch, todo: seq<Request>) {
    && |b.obs| <= 0x1_0000
    && Distinct(b.upd) && |b.upd| <= MAX_UPDATE && Elements(b.upd) <= b.asked <= st.mesh.Keys
    && (b.asked != Elements(b.upd) ==> |b.upd| == MAX_UPDATE)
    && (forall i :: 0 <= i < |b.obs| ==> ObstacleOk(b.obs[i], b.upd, st.mesh.Keys))
    && FreeOk(b.obs, st.free)
    && (forall r :: r in st.issued ==> IssuedRef(b.obs, r))
    && RequestsOk(b.obs, todo, st.issued)
    && Coherent(b.obs, st.mesh, b.asked + st.dropped)
  }

  lemma RequestKeepsQueue(q: TileQuery, st: State, b: Batch, todo: seq<Request>)
    requires GoodQuery(q, st.mesh.Keys) && todo != [] && BatchInv(st, b, todo) && Accepts(b.obs, todo[0].ref)
    ensures var b' := ProcessRequest(q, b, todo[0]);
      && Distinct(b'.upd) && |b'.upd| <= MAX_UPDATE && Elements(b'.upd) <= b'.asked <= st.mesh.Keys
      && (b'.asked != Elements(b'.upd) ==> |b'.upd| == MAX_UPDATE)
      && forall i :: 0 <= i < |b'.obs| ==> ObstacleOk(b'.obs[i], b'.upd, st.mesh.Keys)
  {
    var i := DecodeIndex(todo[0].ref);
    var ob := Requested(q, b.obs[i], todo[0]);
    var (u, p) := QueueTiles(ob.touched, b.upd);
    assert ObstacleOk(b.obs[i], b.upd, st.mesh.Keys);
    assert Distinct(ob.touched) && Elements(ob.touched) <= st.mesh.Keys;
    QueueTilesFacts(ob.touched, b.upd);
    if |u| < MAX_UPDATE {
      assert Elements(u) == b.asked + Elements(ob.touched);
    }
    forall k | 0 <= k < |b.obs| && k != i
      ensures ObstacleOk(b.obs[k], u, st.mesh.Keys)
    {
      assert ObstacleOk(b.obs[k], b.upd, st.mesh.Keys);
    }
  }

  lemma RequestKeepsRefs(q: TileQuery, st: State, b: Batch, todo: seq<Request>)
    requires todo != [] && BatchInv(st, b, todo) && Accepts(b.obs, todo[0].ref)
    ensures var b' := ProcessRequest(q, b, todo[0]);
      && FreeOk(b'.obs, st.free)
      && (forall r :: r in st.issued ==> IssuedRef(b'.obs, r))
      && RequestsOk(b'.obs, todo[1..], st.issued)
  {
    var ref, b' := todo[0].ref, ProcessRequest(q, b, todo[0]);
    var i := DecodeIndex(ref);
    assert IssuedRef(b.obs, ref) && !b.obs[i].state.Empty?;
    assert todo[0].Add? ==> AwaitsAdd(b.obs, ref);
    forall r | r in st.issued
      ensures IssuedRef(b'.obs, r)
    {
      assert IssuedRef(b.obs, r);
    }
    forall k | 0 <= k < |todo[1..]| && todo[1..][k].Add?
      ensures AwaitsAdd(b'.obs, todo[1..][k].ref)
    {
      assert todo[1..][k] == todo[k + 1];
      assert AwaitsAdd(b.obs, todo[k + 1].ref) && IssuedRef(b.obs, todo[k + 1].ref);
    }
  }

  lemma RequestKeepsCoherence(q: TileQuery, st: State, b: Batch, todo: seq<Request>)
    requires todo != [] && BatchInv(st, b, todo) && Accepts(b.obs, todo[0].ref)
    ensures var b' := ProcessRequest(q, b, todo[0]); Coherent(b'.obs, st.mesh, b'.asked + st.dropped)
  {
    var b' := ProcessRequest(q, b, todo[0]);
    var i := DecodeIndex(todo[0].ref);
    assert todo[0].Add? ==> AwaitsAdd(b.obs, todo[0].ref);
    forall t | t in st.mesh && t !in b'.asked + st.dropped
      ensures st.mesh[t] == Marks(b'.obs, t)
    {
      MarksUpdate(b.obs, i, b'.obs[i], t);
    }
  }

  lemma ProcessRequestInv(q: TileQuery, st: State, b: Batch, todo: seq<Request>)
    requires GoodQuery(q, st.mesh.Keys) && todo != [] && BatchInv(st, b, todo)
    ensures BatchInv(st, ProcessRequest(q, b, todo[0]), todo[1..])
  {
    if Accepts(b.obs, todo[0].ref) {
      RequestKeepsQueue(q, st, b, todo);
      RequestKeepsRefs(q, st, b, todo);
      RequestKeepsCoherence(q, st, b, todo);
    }
  }

  lemma {:induction false} ProcessRequestsInv(q: TileQuery, st: State, k: nat)
    requires GoodQuery(q, st.mesh.Keys) && Inv(st) && st.upd == [] && k <= |st.reqs|
    ensures BatchInv(st, ProcessRequests(q, Batch(st.obs, [], {}), st.reqs[..k]), st.reqs[k..])
  {
    if k == 0 {
      assert st.reqs[0..] == st.reqs;
    } else {
      ProcessRequestsInv(q, st, k - 1);
      var b := ProcessRequests(q, Batch(st.obs, [], {}), st.reqs[..k - 1]);
      ProcessRequestInv(q, st, b, st.reqs[k - 1..]);
      assert st.reqs[..k][..k - 1] == st.reqs[..k - 1];
      assert st.reqs[k - 1..][1..] == st.reqs[k..];
    }
  }

  lemma RunBatchInv(q: TileQuery, st: State)
    requires GoodQuery(q, st.mesh.Keys) && Inv(st) && st.upd == []
    ensures Inv(RunBatch(q, st))
  {
    ProcessRequestsInv(q, st, |st.reqs|);
    assert st.reqs[..|st.reqs|] == st.reqs;
    var b := ProcessRequests(q, Batch(st.obs, [], {}), st.reqs);
    var s1 := RunBatch(q, st);
    assert Elements(b.upd) + s1.dropped == b.asked + st.dropped;
  }

  // ----- Rebuilding the first queued tile -----

  lemma SwapRemoveFacts(s: seq<TileRef>, t: TileRef)
    requires Distinct(s)
    ensures Distinct(SwapRemove(s, t))
    ensures forall x :: x in SwapRemove(s, t) <==> x in s && x != t
  {
    if t in s {
      var i, n := IndexOf(s, t), |s| - 1;
      var r := SwapRemove(s, t);
      assert forall k :: 0 <= k < n ==> r[k] == if k == i then s[n] else s[k];
      forall x | x in s && x != t
        ensures x in r
      {
        var k :| 0 <= k < |s| && s[k] == x;
        assert k < n ==> r[k] == x;
        assert k == n ==> r[i] == x;
      }
    }
  }

  lemma {:induction false} FreeAfterFacts(obs: seq<Obstacle>, t: TileRef, n: nat, free: seq<nat>)
    requires n <= |obs| && FreeOk(obs, free)
    ensures var f := FreeAfter(obs, t, n, free); Distinct(f) && forall k :: 0 <= k < |f| ==> f[k] < |obs|
    ensures forall i: nat :: i in FreeAfter(obs, t, n, free) <==>
      i < |obs| && (obs[i].state.Empty? || (i < n && Freed(obs[i], t)))
  {
    if n != 0 {
      FreeAfterFacts(obs, t, n - 1, free);
    }
  }

  lemma SettleOk(ob: Obstacle, upd: seq<TileRef>, tiles: set<TileRef>)
    requires upd != [] && ObstacleOk(ob, upd, tiles) && ob.salt < 0xffff
    ensures ObstacleOk(Settle(ob, upd[0]), upd[1..], tiles)
    ensures Settle(ob, upd[0]).state.Empty? <==> ob.state.Empty? || Freed(ob, upd[0])
  {
    if Unsettled(ob) {
      SwapRemoveFacts(ob.pending, upd[0]);
      assert forall x :: x in upd && x != upd[0] ==> x in upd[1..];
    }
  }

  lemma BuildFirstObstacles(st: State)
    requires Inv(st) && st.upd != [] && NoSaltWrap(st)
    ensures var s' := BuildFirst(st);
      && s'.mesh.Keys == st.mesh.Keys
      && FreeOk(s'.obs, s'.free)
      && forall i :: 0 <= i < |s'.obs| ==> ObstacleOk(s'.obs[i], s'.upd, st.mesh.Keys)
  {
    var t, s' := st.upd[0], BuildFirst(st);
    assert t in Elements(st.upd);
    forall i | 0 <= i < |st.obs|
      ensures ObstacleOk(s'.obs[i], s'.upd, st.mesh.Keys)
      ensures s'.obs[i].state.Empty? <==> st.obs[i].state.Empty? || Freed(st.obs[i], t)
    {
      SettleOk(st.obs[i], st.upd, st.mesh.Keys);
    }
    FreeAfterFacts(st.obs, t, |st.obs|, st.free);
  }

  lemma BuildFirstRefs(st: State)
    requires Inv(st) && st.upd != [] && NoSaltWrap(st)
    ensures var s' := BuildFirst(st);
      && (forall r :: r in s'.issued ==> IssuedRef(s'.obs, r))
      && RequestsOk(s'.obs, s'.reqs, s'.issued)
  {
    var s' := BuildFirst(st);
    forall r | r in s'.issued
      ensures IssuedRef(s'.obs, r)
    {
      assert IssuedRef(st.obs, r);
    }
    forall i | 0 <= i < |s'.reqs| && s'.reqs[i].Add?
      ensures AwaitsAdd(s'.obs, s'.reqs[i].ref)
    {
      assert AwaitsAdd(st.obs, st.reqs[i].ref);
    }
  }

  lemma BuildFirstInv(st: State)
    requires Inv(st) && st.upd != [] && NoSaltWrap(st)
    ensures Inv(BuildFirst(st))
  {
    BuildFirstObstacles(st);
    BuildFirstRefs(st);
    BuildFirstCoherent(st);
    assert Elements(st.upd[1..]) <= Elements(st.upd);
  }

  /** Settling never changes what a tile would be built from, and the tile just built is up to date. */
  lemma BuildFirstCoherent(st: State)
    requires Inv(st) && st.upd != []
    ensures var s' := BuildFirst(st); Coherent(s'.obs, s'.mesh, Elements(s'.upd) + s'.dropped)
  {
    var t, s' := st.upd[0], BuildFirst(st);
    forall x | x in s'.mesh && x !in Elements(s'.upd) + s'.dropped
      ensures s'.mesh[x] == Marks(s'.obs, x)
    {
      MarksPointwise(s'.obs, st.obs, x);
      if x != t {
        assert x in st.upd ==> x in s'.upd;
      }
    }
  }

  // ----- Main results -----

  /** Start: every slot free, nothing queued, every tile built without obstacles. */
  function InitialState(maxObstacles: nat, tiles: set<TileRef>): State {
    var blank := Obstacle(Cylinder((0.0, 0.0, 0.0), 0.0, 0.0), [], [], 1, Empty);
    State(seq(maxObstacles, i => blank), seq(maxObstacles, i => i), [], [],
          map t | t in tiles :: [], {}, {})
  }

  lemma {:induction false} NoMarks(obs: seq<Obstacle>, t: TileRef)
    requires forall i :: 0 <= i < |obs| ==> !Contributes(obs[i], t)
    ensures Marks(obs, t) == []
  {
    if obs != [] {
      NoMarks(obs[..|obs| - 1], t);
    }
  }

  lemma InitialInv(maxObstacles: nat, tiles: set<TileRef>)
    requires maxObstacles <= 0x1_0000
    ensures Inv(InitialState(maxObstacles, tiles))
  {
    var st := InitialState(maxObstacles, tiles);
    forall i: nat
      ensures i in st.free <==> i < |st.obs| && st.obs[i].state.Empty?
    {
      if i < maxObstacles {
        assert st.free[i] == i;
      }
    }
    forall t | t in st.mesh
      ensures st.mesh[t] == Marks(st.obs, t)
    {
      NoMarks(st.obs, t);
    }
  }

  lemma AddObstacleInv(st: State, shape: Shape)
    requires Inv(st)
    ensures Inv(AddObstacle(st, shape).0)
  {
    if |st.reqs| < MAX_REQUESTS && st.free != [] {
      var i, s' := st.free[0], AddObstacle(st, shape).0;
      var ref := EncodeObstacleId(st.obs[i].salt, i);
      assert st.obs[i].state.Empty? && ObstacleOk(st.obs[i], st.upd, st.mesh.Keys);
      ObstacleIdRoundTrip(st.obs[i].salt, i);
      assert ref in st.issued ==> IssuedRef(st.obs, ref);
      assert FreeOk(s'.obs, s'.free) by {
        forall k: nat
          ensures k in s'.free <==> k < |s'.obs| && s'.obs[k].state.Empty?
        {
          assert k in st.free <==> k == i || k in s'.free;
        }
      }
      forall t | t in s'.mesh && t !in Elements(s'.upd) + s'.dropped
        ensures s'.mesh[t] == Marks(s'.obs, t)
      {
        MarksUpdate(st.obs, i, s'.obs[i], t);
      }
      forall r | r in s'.issued
        ensures IssuedRef(s'.obs, r)
      {
        assert r != ref ==> IssuedRef(st.obs, r);
      }
      forall k | 0 <= k < |s'.reqs| && s'.reqs[k].Add?
        ensures AwaitsAdd(s'.obs, s'.reqs[k].ref)
      {
        assert k < |st.reqs| ==> AwaitsAdd(st.obs, s'.reqs[k].ref);
      }
    }
  }

  lemma RemoveObstacleInv(st: State, ref: ObstacleRef)
    requires Inv(st) && (ref == 0 || ref in st.issued)
    ensures Inv(RemoveObstacle(st, ref).0)
  {
  }

  lemma UpdateInv(q: TileQuery, st: State)
    requires GoodQuery(q, st.mesh.Keys) && Inv(st) && NoSaltWrap(st)
    ensures Inv(Update(q, st).0)
  {
    var s1 := if st.upd == [] then RunBatch(q, st) else st;
    if st.upd == [] {
      RunBatchInv(q, st);
      ProcessRequestsSalts(q, Batch(st.obs, [], {}), st.reqs);
    }
    if s1.upd != [] {
      BuildFirstInv(s1);
    }
  }

  lemma {:induction false} ProcessRequestsSalts(q: TileQuery, b: Batch, reqs: seq<Request>)
    ensures var b' := ProcessRequests(q, b, reqs);
      |b'.obs| == |b.obs| && forall i :: 0 <= i < |b.obs| ==> b'.obs[i].salt == b.obs[i].salt
  {
    if reqs != [] {
      ProcessRequestsSalts(q, b, reqs[..|reqs| - 1]);
    }
  }

  /** What update builds, if anything, after reading the queued requests. */
  function AfterRequests(q: TileQuery, st: State): State {
    if st.upd == [] then RunBatch(q, st) else st
  }

  lemma AfterRequestsInv(q: TileQuery, st: State)
    requires GoodQuery(q, st.mesh.Keys) && Inv(st)
    ensures Inv(AfterRequests(q, st))
  {
    if st.upd == [] {
      RunBatchInv(q, st);
    }
  }

  /** The mesh a rebuild of every tile from the present obstacles would give. */
  function FullRebuild(st: State): map<TileRef, seq<Shape>> {
    map t | t in st.mesh :: Marks(st.obs, t)
  }

  /** When update reports that the cache is up to date and no tile was refused, the mesh is a full rebuild. */
  lemma UpToDateIsFullRebuild(q: TileQuery, st: State)
    requires GoodQuery(q, st.mesh.Keys) && Inv(st) && NoSaltWrap(st)
    requires Update(q, st).1 && Update(q, st).0.dropped == {}
    ensures Update(q, st).0.mesh == FullRebuild(Update(q, st).0)
    ensures Update(q, st).0.mesh.Keys == st.mesh.Keys
  {
    UpdateInv(q, st);
    AfterRequestsInv(q, st);
    CoherentIsFullRebuild(Update(q, st).0);
  }

  lemma CoherentIsFullRebuild(st: State)
    requires Coherent(st.obs, st.mesh, {})
    ensures st.mesh == FullRebuild(st)
  {
  }

  /** A batch has every tile it touches queued exactly when it touches at most MAX_UPDATE different ones. */
  lemma NothingRefusedIff(q: TileQuery, st: State)
    requires GoodQuery(q, st.mesh.Keys) && Inv(st) && st.upd == []
    ensures var b := ProcessRequests(q, Batch(st.obs, [], {}), st.reqs);
      (RunBatch(q, st).dropped == st.dropped + (b.asked - Elements(b.upd))) &&
      (b.asked <= Elements(b.upd) <==> |b.asked| <= MAX_UPDATE)
  {
    hide Inv, GoodQuery, ProcessRequests;
    ProcessRequestsInv(q, st, |st.reqs|);
    assert st.reqs[..|st.reqs|] == st.reqs;
    QueueFullIff(st, ProcessRequests(q, Batch(st.obs, [], {}), st.reqs));
  }

  lemma QueueFullIff(st: State, b: Batch)
    requires exists todo :: BatchInv(st, b, todo)
    ensures b.asked <= Elements(b.upd) <==> |b.asked| <= MAX_UPDATE
  {
    DistinctCard(b.upd);
    hide ObstacleOk, FreeOk, IssuedRef, RequestsOk, Coherent;
    if b.asked <= Elements(b.upd) {
      assert b.asked == Elements(b.upd);
    } else {
      var t :| t in b.asked && t !in Elements(b.upd);
      CardStrict(Elements(b.upd), b.asked, t);
    }
  }

  lemma CardStrict<T>(a: set<T>, b: set<T>, t: T)
    requires a <= b && t in b && t !in a
    ensures |a| < |b|
  {
    SubsetCard(a + {t}, b);
  }

  // ----- Whole runs -----

  datatype Event = AddEvent(shape: Shape) | RemoveEvent(ref: ObstacleRef) | UpdateEvent

  function Step(q: TileQuery, st: State, e: Event): State
    requires Inv(st)
  {
    match e
    case AddEvent(s) => AddObstacle(st, s).0
    case RemoveEvent(r) => RemoveObstacle(st, r).0
    case UpdateEvent => Update(q, st).0
  }

  /** What a step asks of its caller: removed references were handed out, and no salt is about to wrap. */
  predicate Legal(st: State, e: Event) {
    match e
    case AddEvent(_) => true
    case RemoveEvent(r) => r == 0 || r in st.issued
    case UpdateEvent => NoSaltWrap(st)
  }

  lemma StepInv(q: TileQuery, st: State, e: Event)
    requires Inv(st) && GoodQuery(q, st.mesh.Keys) && Legal(st, e)
    ensures Inv(Step(q, st, e)) && Step(q, st, e).mesh.Keys == st.mesh.Keys
  {
    match e
    case AddEvent(s) => AddObstacleInv(st, s);
    case RemoveEvent(r) => RemoveObstacleInv(st, r);
    case UpdateEvent =>
      UpdateInv(q, st);
      AfterRequestsInv(q, st);
  }

  ghost predicate LegalRun(q: TileQuery, st: State, es: seq<Event>)
    requires Inv(st) && GoodQuery(q, st.mesh.Keys)
    decreases |es|
  {
    es != [] ==>
      Legal(st, es[0]) && (StepInv(q, st, es[0]); LegalRun(q, Step(q, st, es[0]), es[1..]))
  }

  ghost function Run(q: TileQuery, st: State, es: seq<Event>): State
    requires Inv(st) && GoodQuery(q, st.mesh.Keys) && LegalRun(q, st, es)
    decreases |es|
  {
    if es == [] then st
    else
      StepInv(q, st, es[0]);
      Run(q, Step(q, st, es[0]), es[1..])
  }

  /** The invariant, and with it the coherence of the cache, holds after every legal run. */
  lemma {:induction false} RunInv(q: TileQuery, st: State, es: seq<Event>)
    requires Inv(st) && GoodQuery(q, st.mesh.Keys) && LegalRun(q, st, es)
    ensures Inv(Run(q, st, es)) && Run(q, st, es).mesh.Keys == st.mesh.Keys
    decreases |es|
  {
    if es != [] {
      StepInv(q, st, es[0]);
      RunInv(q, Step(q, st, es[0]), es[1..]);
    }
  }

  // ----- Draining -----

  function UpdateCount(es: seq<Event>): nat {
    if es == [] then 0 else (if es[0].UpdateEvent? then 1 else 0) + UpdateCount(es[1..])
  }

  /** While tiles are queued each update builds one of them, whatever is requested in between. */
  lemma {:induction false} DrainCount(q: TileQuery, st: State, es: seq<Event>)
    requires Inv(st) && GoodQuery(q, st.mesh.Keys) && LegalRun(q, st, es)
    requires UpdateCount(es) <= |st.upd|
    ensures Run(q, st, es).upd == st.upd[UpdateCount(es)..]
    decreases |es|
  {
    if es != [] {
      StepInv(q, st, es[0]);
      DrainCount(q, Step(q, st, es[0]), es[1..]);
    }
  }

  lemma HasElement<T>(s: seq<T>)
    ensures s != [] ==> exists x :: x in s
  {
    if s != [] {
      assert s[0] in s;
    }
  }

  /** The update that builds the last queued tile leaves no obstacle Processing or Removing. */
  lemma LastBuildSettles(st: State)
    requires Inv(st) && |st.upd| == 1
    ensures AllSettled(BuildFirst(st).obs)
  {
    forall i | 0 <= i < |st.obs|
      ensures !Unsettled(BuildFirst(st).obs[i])
    {
      assert ObstacleOk(st.obs[i], st.upd, st.mesh.Keys);
      if Unsettled(st.obs[i]) {
        SwapRemoveFacts(st.obs[i].pending, st.upd[0]);
        HasElement(SwapRemove(st.obs[i].pending, st.upd[0]));
      }
    }
  }

  /** k queued tiles need exactly k updates, after the last of which every obstacle is settled. */
  lemma DrainSettles(q: TileQuery, st: State, es: seq<Event>)
    requires Inv(st) && GoodQuery(q, st.mesh.Keys) && LegalRun(q, st, es + [UpdateEvent])
    requires UpdateCount(es) + 1 == |st.upd|
    ensures var s' := Run(q, st, es + [UpdateEvent]);
      s'.upd == [] && AllSettled(s'.obs)
  {
    RunAppend(q, st, es, UpdateEvent);
    DrainCount(q, st, es);
    RunInv(q, st, es);
    LastBuildSettles(Run(q, st, es));
  }

  lemma {:induction false} RunAppend(q: TileQuery, st: State, es: seq<Event>, e: Event)
    requires Inv(st) && GoodQuery(q, st.mesh.Keys) && LegalRun(q, st, es + [e])
    ensures LegalRun(q, st, es) && Inv(Run(q, st, es)) && Legal(Run(q, st, es), e)
    ensures Run(q, st, es + [e]) == Step(q, Run(q, st, es), e)
    decreases |es|
  {
    if es == [] {
      assert es + [e] == [e];
    } else {
      StepInv(q, st, es[0]);
      assert (es + [e])[1..] == es[1..] + [e];
      RunAppend(q, Step(q, st, es[0]), es[1..], e);
    }
  }

  /** An accepted request that touches a tile: an addition of a shape that does, or a removal of an obstacle that
      does. */
  predicate TouchesTile(q: TileQuery, obs: seq<Obstacle>, req: Request) {
    && Accepts(obs, req.ref)
    && var ob := obs[DecodeIndex(req.ref)];
       if req.Add? then TouchedTiles(q, ob.shape) != [] else ob.touched != []
  }

  predicate AnyTouchesTile(q: TileQuery, obs: seq<Obstacle>, reqs: seq<Request>) {
    exists k :: 0 <= k < |reqs| && TouchesTile(q, obs, reqs[k])
  }

  /** The request removes the obstacle in slot `i`. */
  predicate Removes(obs: seq<Obstacle>, req: Request, i: nat) {
    req.Remove? && Accepts(obs, req.ref) && DecodeIndex(req.ref) == i
  }

  predicate AnyRemoves(obs: seq<Obstacle>, reqs: seq<Request>, i: nat) {
    exists k :: 0 <= k < |reqs| && Removes(obs, reqs[k], i)
  }

  predicate AddsAwaited(obs: seq<Obstacle>, reqs: seq<Request>) {
    forall k :: 0 <= k < |reqs| && reqs[k].Add? ==> AwaitsAdd(obs, reqs[k].ref)
  }

  /** All that requests that touch no tile do: removals change the state. */
  predicate Quiet(obs: seq<Obstacle>, obs': seq<Obstacle>, reqs: seq<Request>) {
    && |obs'| == |obs|
    && forall i :: 0 <= i < |obs| ==>
      && obs'[i].salt == obs[i].salt && obs'[i].shape == obs[i].shape && obs'[i].touched == obs[i].touched
      && obs'[i].state == if AnyRemoves(obs, reqs, i) then Removing else obs[i].state
  }

  lemma AnyRemovesSnoc(obs: seq<Obstacle>, reqs: seq<Request>, i: nat)
    requires reqs != []
    ensures var n := |reqs| - 1;
            AnyRemoves(obs, reqs, i) <==> AnyRemoves(obs, reqs[..n], i) || Removes(obs, reqs[n], i)
  {
    var n := |reqs| - 1;
    assert forall k :: 0 <= k < n ==> reqs[..n][k] == reqs[k];
  }

  lemma {:induction false} QuietBatch(q: TileQuery, obs: seq<Obstacle>, reqs: seq<Request>)
    requires AddsAwaited(obs, reqs) && !AnyTouchesTile(q, obs, reqs)
    ensures var b := ProcessRequests(q, Batch(obs, [], {}), reqs); b.upd == [] && Quiet(obs, b.obs, reqs)
  {
    if reqs != [] {
      var n := |reqs| - 1;
      assert forall k :: 0 <= k < n ==> reqs[..n][k] == reqs[k];
      QuietBatch(q, obs, reqs[..n]);
      assert !TouchesTile(q, obs, reqs[n]);
      forall i | 0 <= i < |obs| {
        AnyRemovesSnoc(obs, reqs, i);
      }
    }
  }

  lemma {:induction false} QueueTilesGrows(ts: seq<TileRef>, upd: seq<TileRef>)
    ensures var u := QueueTiles(ts, upd).0; |u| >= |upd| && (ts != [] ==> u != [])
  {
    if ts != [] {
      QueueTilesGrows(ts[..|ts| - 1], upd);
    }
  }

  /** A batch queues tiles if and only if one of its requests touches a tile. */
  lemma {:induction false} BatchQueuesIff(q: TileQuery, obs: seq<Obstacle>, reqs: seq<Request>)
    requires AddsAwaited(obs, reqs)
    ensures ProcessRequests(q, Batch(obs, [], {}), reqs).upd != [] <==> AnyTouchesTile(q, obs, reqs)
  {
    if !AnyTouchesTile(q, obs, reqs) {
      QuietBatch(q, obs, reqs);
    } else {
      var n := |reqs| - 1;
      var b := ProcessRequests(q, Batch(obs, [], {}), reqs[..n]);
      assert forall k :: 0 <= k < n ==> reqs[..n][k] == reqs[k];
      BatchQueuesIff(q, obs, reqs[..n]);
      if !AnyTouchesTile(q, obs, reqs[..n]) {
        QuietBatch(q, obs, reqs[..n]);
        assert TouchesTile(q, obs, reqs[n]);
      }
      if Accepts(b.obs, reqs[n].ref) {
        QueueTilesGrows(Requested(q, b.obs[DecodeIndex(reqs[n].ref)], reqs[n]).touched, b.upd);
      }
    }
  }

  predicate NoneRemoved(obs: seq<Obstacle>, reqs: seq<Request>) {
    forall k :: 0 <= k < |reqs| ==> !(reqs[k].Remove? && Accepts(obs, reqs[k].ref))
  }

  lemma QuietSettled(obs: seq<Obstacle>, obs': seq<Obstacle>, reqs: seq<Request>)
    requires Quiet(obs, obs', reqs)
    ensures AllSettled(obs') <==> AllSettled(obs) && NoneRemoved(obs, reqs)
  {
    if AllSettled(obs') {
      forall i | 0 <= i < |obs|
        ensures !Unsettled(obs[i])
      {
        assert !Unsettled(obs'[i]);
      }
      forall k | 0 <= k < |reqs|
        ensures !(reqs[k].Remove? && Accepts(obs, reqs[k].ref))
      {
        var i := DecodeIndex(reqs[k].ref);
        assert reqs[k].Remove? && Accepts(obs, reqs[k].ref) ==> Removes(obs, reqs[k], i);
        assert Accepts(obs, reqs[k].ref) ==> !Unsettled(obs'[i]);
      }
    }
  }

  /** When an up-to-date report means settled obstacles, told from the state before the call: exactly if tiles were
      queued, or a request that is accepted touches a tile, or all obstacles were settled and no removal is accepted.
      Otherwise an obstacle that touches no tile stays Processing (or Removing) until some tile is built. */
  lemma UpToDateSettledIff(q: TileQuery, st: State)
    requires GoodQuery(q, st.mesh.Keys) && Inv(st) && Update(q, st).1
    ensures AllSettled(Update(q, st).0.obs) <==>
      || st.upd != []
      || AnyTouchesTile(q, st.obs, st.reqs)
      || (AllSettled(st.obs) && NoneRemoved(st.obs, st.reqs))
  {
    var s1 := AfterRequests(q, st);
    AfterRequestsInv(q, st);
    if st.upd == [] {
      BatchQueuesIff(q, st.obs, st.reqs);
    }
    if s1.upd != [] {
      LastBuildSettles(s1);
    } else {
      QuietBatch(q, st.obs, st.reqs);
      QuietSettled(st.obs, s1.obs, st.reqs);
    }
  }

  /** The input that shows it: a removed obstacle outside every tile keeps its slot although update reports
      that the cache is up to date. */
  lemma UntouchingObstacleKeepsSlot()
    ensures var q: TileQuery := (a, b) => [];
      var s1 := AddObstacle(InitialState(1, {7}), Box((0.0, 0.0, 0.0), (1.0, 1.0, 1.0))).0;
      var (s2, upToDate) := Update(q, RemoveObstacle(s1, EncodeObstacleId(1, 0)).0);
      upToDate && |s2.obs| == 1 && s2.obs[0].state == Removing && s2.free == []
  {
    var q: TileQuery := (a, b) => [];
    var s1 := AddObstacle(InitialState(1, {7}), Box((0.0, 0.0, 0.0), (1.0, 1.0, 1.0))).0;
    var s2 := RemoveObstacle(s1, EncodeObstacleId(1, 0)).0;
    assert s2.reqs == [Add(0x1_0000), Remove(0x1_0000)];
    var b0 := Batch(s2.obs, [], {});
    var b1 := ProcessRequest(q, b0, s2.reqs[0]);
    assert s2.reqs[..1] == [s2.reqs[0]] && s2.reqs[..1][..0] == [];
    assert ProcessRequests(q, b0, s2.reqs[..1]) == b1;
    assert b1.obs[0].touched == [] && b1.upd == [];
    assert ProcessRequests(q, b0, s2.reqs) == ProcessRequest(q, b1, s2.reqs[1]);
  }

  /** After an up-to-date report an immediate further update changes nothing. */
  lemma UpToDateUpdateIsIdle(q: TileQuery, st: State)
    requires Update(q, st).1
    ensures Update(q, Update(q, st).0) == (Update(q, st).0, true)
  {
    var s' := Update(q, st).0;
    assert RunBatch(q, s') == s' by {
      assert s'.dropped + ({} - Elements<TileRef>([])) == s'.dropped;
    }
  }

  // ----- A full update list -----

  function DrainAll(st: State): State
    decreases |st.upd|
  {
    if st.upd == [] then st else DrainAll(BuildFirst(st))
  }

  lemma {:induction false} DrainAllBuilds(st: State, t: TileRef)
    requires t in st.mesh && Elements(st.upd) <= st.mesh.Keys
    ensures var s' := DrainAll(st);
      && s'.mesh.Keys == st.mesh.Keys && Marks(s'.obs, t) == Marks(st.obs, t)
      && s'.mesh[t] == if t in st.upd then Marks(st.obs, t) else st.mesh[t]
    decreases |st.upd|
  {
    if st.upd != [] {
      var s1 := BuildFirst(st);
      MarksPointwise(s1.obs, st.obs, t);
      assert s1.mesh.Keys == st.mesh.Keys;
      assert t in st.upd <==> t == st.upd[0] || t in s1.upd;
      DrainAllBuilds(s1, t);
    }
  }

  /** What refused tiles cost: once the queue is drained the mesh is a full rebuild if and only if every tile that
      was not queued had the right content already. */
  lemma DrainedIsFullRebuildIff(st: State)
    requires Elements(st.upd) <= st.mesh.Keys
    ensures DrainAll(st).mesh == FullRebuild(DrainAll(st)) <==>
      forall t :: t in st.mesh && t !in st.upd ==> st.mesh[t] == Marks(st.obs, t)
  {
    var s' := DrainAll(st);
    forall t | t in st.mesh
      ensures s'.mesh.Keys == st.mesh.Keys && Marks(s'.obs, t) == Marks(st.obs, t)
      ensures s'.mesh[t] == if t in st.upd then Marks(st.obs, t) else st.mesh[t]
    {
      DrainAllBuilds(st, t);
    }
    DrainAllKeys(st);
  }

  lemma {:induction false} DrainAllKeys(st: State)
    requires Elements(st.upd) <= st.mesh.Keys
    ensures DrainAll(st).mesh.Keys == st.mesh.Keys
    decreases |st.upd|
  {
    if st.upd != [] {
      assert st.upd[0] in st.mesh.Keys;
      assert BuildFirst(st).mesh.Keys == st.mesh.Keys;
      DrainAllKeys(BuildFirst(st));
    }
  }
}
