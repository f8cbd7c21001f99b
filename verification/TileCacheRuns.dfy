/** Runs of the tile cache whose batches of requests fit into the update list, and one batch that does not. */
module TileCacheRuns {
  import opened Basics
  import opened TileCacheModel

  // ----- What a batch asks for -----

  /** The tiles an accepted request asks for, told from the state before its batch. */
  function TilesOf(q: TileQuery, obs: seq<Obstacle>, req: Request): set<TileRef> {
    if !Accepts(obs, req.ref) then {}
    else
      var ob := obs[DecodeIndex(req.ref)];
      Elements(if req.Add? then TouchedTiles(q, ob.shape) else ob.touched)
  }

  function AskedTiles(q: TileQuery, obs: seq<Obstacle>, reqs: seq<Request>): set<TileRef> {
    if reqs == [] then {} else AskedTiles(q, obs, reqs[..|reqs| - 1]) + TilesOf(q, obs, reqs[|reqs| - 1])
  }

  /** A slot during a batch that has asked for `asked`. */
  predicate SlotInBatch(q: TileQuery, ob: Obstacle, ob': Obstacle, asked: set<TileRef>) {
    && ob'.salt == ob.salt && ob'.shape == ob.shape
    && (ob'.touched == ob.touched || (ob'.touched == TouchedTiles(q, ob.shape) && Elements(ob'.touched) <= asked))
    && Elements(ob.touched) <= Elements(ob'.touched)
  }

  /** The batch asks for exactly these tiles. */
  lemma {:induction false} AskedAre(q: TileQuery, obs: seq<Obstacle>, reqs: seq<Request>)
    requires AddsAwaited(obs, reqs)
    ensures var b := ProcessRequests(q, Batch(obs, [], {}), reqs);
      && b.asked == AskedTiles(q, obs, reqs) && |b.obs| == |obs|
      && forall i :: 0 <= i < |obs| ==> SlotInBatch(q, obs[i], b.obs[i], b.asked)
  {
    if reqs != [] {
      var n := |reqs| - 1;
      assert forall k :: 0 <= k < n ==> reqs[..n][k] == reqs[k];
      AskedAre(q, obs, reqs[..n]);
      var b := ProcessRequests(q, Batch(obs, [], {}), reqs[..n]);
      assert reqs[n].Add? ==> AwaitsAdd(obs, reqs[n].ref);
      RequestAsks(q, obs, b, reqs[n]);
    }
  }

  lemma RequestAsks(q: TileQuery, obs: seq<Obstacle>, b: Batch, req: Request)
    requires |b.obs| == |obs| && forall i :: 0 <= i < |obs| ==> SlotInBatch(q, obs[i], b.obs[i], b.asked)
    requires req.Add? ==> AwaitsAdd(obs, req.ref)
    ensures var b' := ProcessRequest(q, b, req);
      && b'.asked == b.asked + TilesOf(q, obs, req) && |b'.obs| == |obs|
      && forall i :: 0 <= i < |obs| ==> SlotInBatch(q, obs[i], b'.obs[i], b'.asked)
  {
    hide TouchedTiles, QueueTiles;
    var i := DecodeIndex(req.ref);
    if Accepts(obs, req.ref) {
      assert SlotInBatch(q, obs[i], b.obs[i], b.asked);
    } else if i < |obs| {
      assert SlotInBatch(q, obs[i], b.obs[i], b.asked);
    }
  }

  // ----- Runs without refusals -----

  /** If the requests are read now, they touch no more tiles than the update list holds. */
  predicate FewTiles(q: TileQuery, st: State) {
    st.upd == [] ==> |AskedTiles(q, st.obs, st.reqs)| <= MAX_UPDATE
  }

  ghost predicate FewRun(q: TileQuery, st: State, es: seq<Event>)
    requires Inv(st) && GoodQuery(q, st.mesh.Keys) && LegalRun(q, st, es)
    decreases |es|
  {
    es != [] ==>
      (es[0].UpdateEvent? ==> FewTiles(q, st)) &&
      (StepInv(q, st, es[0]); FewRun(q, Step(q, st, es[0]), es[1..]))
  }

  /** An update that reads a batch refuses no tile if and only if the batch touches at most MAX_UPDATE. */
  lemma UpdateRefusesIff(q: TileQuery, st: State)
    requires GoodQuery(q, st.mesh.Keys) && Inv(st) && st.upd == []
    ensures AskedTiles(q, st.obs, st.reqs) <= Elements(RunBatch(q, st).upd) <==> FewTiles(q, st)
    ensures RunBatch(q, st).dropped ==
            st.dropped + (AskedTiles(q, st.obs, st.reqs) - Elements(RunBatch(q, st).upd))
  {
    assert AddsAwaited(st.obs, st.reqs);
    hide Inv, GoodQuery, ProcessRequests;
    AskedAre(q, st.obs, st.reqs);
    NothingRefusedIff(q, st);
  }

  lemma StepDropsNothing(q: TileQuery, st: State, e: Event)
    requires Inv(st) && GoodQuery(q, st.mesh.Keys) && st.dropped == {} && (e.UpdateEvent? ==> FewTiles(q, st))
    ensures Step(q, st, e).dropped == {}
  {
    if e.UpdateEvent? && st.upd == [] {
      UpdateRefusesIff(q, st);
    }
    hide RunBatch, Inv, GoodQuery;
  }

  lemma {:induction false} RunDropsNothing(q: TileQuery, st: State, es: seq<Event>)
    requires Inv(st) && GoodQuery(q, st.mesh.Keys) && LegalRun(q, st, es) && FewRun(q, st, es) && st.dropped == {}
    ensures Run(q, st, es).dropped == {}
    decreases |es|
  {
    if es != [] {
      StepInv(q, st, es[0]);
      StepDropsNothing(q, st, es[0]);
      RunDropsNothing(q, Step(q, st, es[0]), es[1..]);
    }
  }

  /** By any run whose batches fit, such as from the initial state: once no tile is queued, as when update reports that
      the cache is up to date, the mesh is a full rebuild. */
  lemma FewRunIsFullRebuild(q: TileQuery, st: State, es: seq<Event>)
    requires Inv(st) && GoodQuery(q, st.mesh.Keys) && LegalRun(q, st, es) && FewRun(q, st, es) && st.dropped == {}
    ensures var s' := Run(q, st, es); s'.upd == [] ==> s'.mesh == FullRebuild(s')
  {
    RunInv(q, st, es);
    RunDropsNothing(q, st, es);
    hide Run, LegalRun, FewRun;
    var s' := Run(q, st, es);
    if s'.upd == [] {
      assert Elements(s'.upd) + s'.dropped == {};
      CoherentIsFullRebuild(s');
    }
  }

  // ----- A batch that does not fit: nine obstacles that touch eight tiles each -----

  function FirstTiles(n: nat): (ts: set<TileRef>)
    ensures forall t: TileRef :: t in ts <==> t < n
  {
    Elements(Upto(n))
  }

  function Upto(n: nat): (s: seq<TileRef>)
    ensures |s| == n && (forall k :: 0 <= k < n ==> s[k] == k) && forall t: TileRef :: t in s <==> t < n
  {
    if n == 0 then [] else Upto(n - 1) + [n - 1]
  }

  lemma FirstTilesCard(n: nat)
    ensures |FirstTiles(n)| == n
  {
    hide Upto;
    DistinctCard(Upto(n));
  }

  function PostAt(i: nat): Shape {
    Box((i as real, 0.0, 0.0), (i as real, 1.0, 1.0))
  }

  function EightTiles(i: nat): (ts: seq<TileRef>)
    ensures |ts| == 8 && forall k :: 0 <= k < 8 ==> ts[k] == 8 * i + k
  {
    seq(8, k => 8 * i + k)
  }

  /** Post `i` touches the `i`th eight of 72 tiles. */
  function PostQuery(): TileQuery {
    (a: Vec, b: Vec) => if 0 <= a.0.Floor < 9 then EightTiles(a.0.Floor) else []
  }

  lemma EightElements(i: nat)
    ensures Elements(EightTiles(i)) == FirstTiles(8 * i + 8) - FirstTiles(8 * i) && Distinct(EightTiles(i))
  {
    forall t: nat | 8 * i <= t < 8 * i + 8
      ensures t in EightTiles(i)
    {
      assert EightTiles(i)[t - 8 * i] == t;
    }
  }

  lemma PostQueryIsGood()
    ensures GoodQuery(PostQuery(), FirstTiles(72))
  {
    forall a: Vec, b: Vec
      ensures var r := PostQuery()(a, b);
        |r| <= MAX_TOUCHED_TILES && Distinct(r) && Elements(r) <= FirstTiles(72)
    {
      if 0 <= a.0.Floor < 9 {
        EightElements(a.0.Floor);
      }
    }
  }

  /** A cache of nine slots to which `n` posts were added. */
  predicate PostsOk(st: State, n: nat) {
    && |st.obs| == 9 && n <= 9 && |st.free| == 9 - n && |st.reqs| == n
    && (forall k :: 0 <= k < |st.free| ==> st.free[k] == n + k)
    && (forall i :: 0 <= i < 9 ==> st.obs[i].salt == 1)
    && (forall i :: 0 <= i < n ==> st.obs[i] == Obstacle(PostAt(i), [], [], 1, Processing))
    && (forall i :: 0 <= i < n ==> st.reqs[i] == Add(EncodeObstacleId(1, i)))
    && st.upd == [] && st.dropped == {} && st.mesh == map t | t in FirstTiles(72) :: []
  }

  lemma PostStepOk(st: State, n: nat)
    requires PostsOk(st, n) && n < 9
    ensures PostsOk(AddObstacle(st, PostAt(n)).0, n + 1)
  {
    hide PostAt;
    assert st.free[0] == n;
  }

  /** The state after `n` posts were added to a cache of nine slots. */
  function Posts(n: nat): (st: State)
    requires n <= 9
    ensures PostsOk(st, n)
  {
    if n == 0 then InitialState(9, FirstTiles(72))
    else
      PostStepOk(Posts(n - 1), n - 1);
      AddObstacle(Posts(n - 1), PostAt(n - 1)).0
  }

  lemma PostsInv(n: nat)
    requires n <= 9
    ensures Inv(Posts(n))
  {
    if n == 0 {
      InitialInv(9, FirstTiles(72));
    } else {
      PostsInv(n - 1);
      AddObstacleInv(Posts(n - 1), PostAt(n - 1));
    }
  }

  predicate PostAsked(ob: Obstacle, i: nat) {
    ob.shape == PostAt(i) && ob.touched == EightTiles(i) && ob.state == Processing && ob.salt == 1
  }

  predicate PostsAsked(st: State, b: Batch, k: nat) {
    && k <= 9 && |b.obs| == |st.obs| == 9 && b.asked == FirstTiles(8 * k)
    && (forall i :: 0 <= i < k ==> PostAsked(b.obs[i], i))
    && (forall i :: k <= i < 9 ==> b.obs[i] == st.obs[i])
  }

  lemma PostAsks(st: State, b: Batch, n: nat)
    requires PostsOk(st, 9) && n < 9 && PostsAsked(st, b, n)
    ensures PostsAsked(st, ProcessRequest(PostQuery(), b, st.reqs[n]), n + 1)
  {
    ObstacleIdRoundTrip(1, n);
    EightElements(n);
    var ob := st.obs[n];
    assert ob == Obstacle(PostAt(n), [], [], 1, Processing) && b.obs[n] == ob;
    assert TouchedTiles(PostQuery(), PostAt(n)) == EightTiles(n);
    assert st.reqs[n] == Add(EncodeObstacleId(1, n));
    hide PostAt, PostQuery, QueueTiles, TouchedTiles, PostsOk;
    assert FirstTiles(8 * n) + (FirstTiles(8 * n + 8) - FirstTiles(8 * n)) == FirstTiles(8 * (n + 1));
  }

  lemma {:induction false} PostsBatch(st: State, k: nat)
    requires PostsOk(st, 9) && k <= 9
    ensures PostsAsked(st, ProcessRequests(PostQuery(), Batch(st.obs, [], {}), st.reqs[..k]), k)
  {
    assert |st.obs| == |st.reqs| == 9;
    hide PostsOk, PostAsked, ProcessRequest, PostQuery;
    if k > 0 {
      PostsBatch(st, k - 1);
      PostAsks(st, ProcessRequests(PostQuery(), Batch(st.obs, [], {}), st.reqs[..k - 1]), k - 1);
      assert st.reqs[..k][..k - 1] == st.reqs[..k - 1];
    }
  }

  lemma {:induction false} MarksHas(obs: seq<Obstacle>, t: TileRef, i: nat)
    requires i < |obs| && Contributes(obs[i], t)
    ensures Marks(obs, t) != []
  {
    if i < |obs| - 1 {
      MarksHas(obs[..|obs| - 1], t, i);
    }
  }

  lemma PostsAskMany(st: State)
    requires PostsOk(st, 9)
    ensures st.upd == [] && PostsAsked(st, ProcessRequests(PostQuery(), Batch(st.obs, [], {}), st.reqs), 9)
    ensures GoodQuery(PostQuery(), st.mesh.Keys)
    ensures |ProcessRequests(PostQuery(), Batch(st.obs, [], {}), st.reqs).asked| > MAX_UPDATE
  {
    PostsBatch(st, 9);
    assert st.reqs[..9] == st.reqs && st.mesh.Keys == FirstTiles(72);
    hide PostsOk, PostQuery, ProcessRequests, GoodQuery, PostAsked, FirstTiles;
    PostQueryIsGood();
    FirstTilesCard(72);
  }

  lemma RefusedPost(st: State, t: TileRef)
    requires PostsOk(st, 9) && PostsAsked(st, ProcessRequests(PostQuery(), Batch(st.obs, [], {}), st.reqs), 9)
    requires t in ProcessRequests(PostQuery(), Batch(st.obs, [], {}), st.reqs).asked
    ensures t in st.mesh && st.mesh[t] == [] != Marks(RunBatch(PostQuery(), st).obs, t)
  {
    var b := ProcessRequests(PostQuery(), Batch(st.obs, [], {}), st.reqs);
    assert PostAsked(b.obs[t / 8], t / 8);
    assert b.obs[t / 8].touched[t % 8] == t;
    MarksHas(b.obs, t, t / 8);
    hide ProcessRequests, Marks;
  }

  lemma RefusedTile(q: TileQuery, st: State) returns (t: TileRef)
    requires GoodQuery(q, st.mesh.Keys) && Inv(st) && st.upd == []
    requires |ProcessRequests(q, Batch(st.obs, [], {}), st.reqs).asked| > MAX_UPDATE
    ensures t in ProcessRequests(q, Batch(st.obs, [], {}), st.reqs).asked && t in RunBatch(q, st).dropped
    ensures t !in RunBatch(q, st).upd
    ensures !FewTiles(q, st) && Elements(RunBatch(q, st).upd) <= st.mesh.Keys
  {
    NothingRefusedIff(q, st);
    RunBatchInv(q, st);
    AskedAre(q, st.obs, st.reqs);
    hide ProcessRequests, Inv, GoodQuery;
    t :| t in ProcessRequests(q, Batch(st.obs, [], {}), st.reqs).asked && t !in RunBatch(q, st).upd;
  }

  lemma RefusedBatch(st: State)
    requires PostsOk(st, 9) && Inv(st)
    ensures GoodQuery(PostQuery(), st.mesh.Keys) && !FewTiles(PostQuery(), st)
    ensures var st' := RunBatch(PostQuery(), st);
      st'.dropped != {} && DrainAll(st').mesh != FullRebuild(DrainAll(st'))
  {
    hide PostsOk, PostQuery, ProcessRequests, GoodQuery, Inv, PostsAsked, DrainAll, FullRebuild, Marks, FewTiles;
    PostsAskMany(st);
    var t := RefusedTile(PostQuery(), st);
    RefusedPost(st, t);
    DrainedIsFullRebuildIff(RunBatch(PostQuery(), st));
  }

  /** The nine additions touch 72 tiles, so one is refused, and although the queue is then drained the mesh is no full
      rebuild. */
  lemma PostsAreRefused(n: nat)
    requires n == 9
    ensures var st, q := Posts(n), PostQuery();
      && Inv(st) && GoodQuery(q, st.mesh.Keys) && !FewTiles(q, st) && RunBatch(q, st).dropped != {}
      && DrainAll(RunBatch(q, st)).mesh != FullRebuild(DrainAll(RunBatch(q, st)))
  {
    hide Inv, GoodQuery, FewTiles, RunBatch, DrainAll, FullRebuild, PostQuery, PostsOk;
    PostsInv(n);
    RefusedBatch(Posts(n));
  }
}
