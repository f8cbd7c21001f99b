/**
 The tile cache as its caller sees it: which obstacles stand is told from the calls and their results alone, and that
 is what the tiles are built from.
 */
module TileCacheLedger {
  import opened Basics
  import opened TileCacheModel
  import opened TileCacheRuns

  // ----- What a batch does to a slot -----

  /** The request adds the obstacle in slot `i`. */
  predicate Adds(obs: seq<Obstacle>, req: Request, i: nat) {
    req.Add? && Accepts(obs, req.ref) && DecodeIndex(req.ref) == i
  }

  predicate AnyAdds(obs: seq<Obstacle>, reqs: seq<Request>, i: nat) {
    exists k :: 0 <= k < |reqs| && Adds(obs, reqs[k], i)
  }

  /** A slot that a batch removes is Removing, one that it adds touches the tiles of its bounds; otherwise it stays. */
  predicate SlotRequested(q: TileQuery, obs: seq<Obstacle>, reqs: seq<Request>, i: nat, ob: Obstacle)
    requires i < |obs|
  {
    && ob.salt == obs[i].salt && ob.shape == obs[i].shape
    && ob.state == (if AnyRemoves(obs, reqs, i) then Removing else obs[i].state)
    && ob.touched == (if AnyAdds(obs, reqs, i) then TouchedTiles(q, ob.shape) else obs[i].touched)
  }

  lemma AnyAddsSnoc(obs: seq<Obstacle>, reqs: seq<Request>, i: nat)
    requires reqs != []
    ensures var n := |reqs| - 1;
            AnyAdds(obs, reqs, i) <==> AnyAdds(obs, reqs[..n], i) || Adds(obs, reqs[n], i)
  {
    var n := |reqs| - 1;
    assert forall k :: 0 <= k < n ==> reqs[..n][k] == reqs[k];
  }

  lemma {:induction false} BatchSlots(q: TileQuery, obs: seq<Obstacle>, reqs: seq<Request>)
    ensures var b := ProcessRequests(q, Batch(obs, [], {}), reqs);
      |b.obs| == |obs| && forall i :: 0 <= i < |obs| ==> SlotRequested(q, obs, reqs, i, b.obs[i])
  {
    if reqs != [] {
      var n := |reqs| - 1;
      BatchSlots(q, obs, reqs[..n]);
      var b := ProcessRequests(q, Batch(obs, [], {}), reqs[..n]);
      hide AnyAdds, AnyRemoves, TouchedTiles, QueueTiles, ProcessRequests;
      forall i | 0 <= i < |obs|
        ensures SlotRequested(q, obs, reqs, i, ProcessRequest(q, b, reqs[n]).obs[i])
      {
        AnyAddsSnoc(obs, reqs, i);
        AnyRemovesSnoc(obs, reqs, i);
        assert SlotRequested(q, obs, reqs[..n], i, b.obs[i]);
      }
    }
  }

  /** The slot that `ref` names holds no obstacle any more: it waits for its tiles, or is free under the next salt. */
  predicate IsGone(ob: Obstacle, ref: ObstacleRef) {
    (ob.state == Removing && ob.salt == DecodeSalt(ref)) || (ob.state == Empty && ob.salt == DecodeSalt(ref) + 1)
  }

  function RefOf(obs: seq<Obstacle>, i: nat): ObstacleRef
    requires i < |obs|
  {
    EncodeObstacleId(obs[i].salt, i)
  }

  /** An accepted request for a slot names it by its reference. */
  lemma RequestNames(st: State, i: nat)
    requires Inv(st) && i < |st.obs|
    ensures AnyRemoves(st.obs, st.reqs, i) <==> Remove(RefOf(st.obs, i)) in st.reqs
    ensures AnyAdds(st.obs, st.reqs, i) <==> Add(RefOf(st.obs, i)) in st.reqs
  {
    var ref := RefOf(st.obs, i);
    assert ObstacleOk(st.obs[i], st.upd, st.mesh.Keys);
    ObstacleIdRoundTrip(st.obs[i].salt, i);
    assert forall r :: r in st.issued ==> IssuedRef(st.obs, r);
    hide FreeOk, ObstacleOk, AwaitsAdd, Coherent;
    if AnyRemoves(st.obs, st.reqs, i) {
      var k :| 0 <= k < |st.reqs| && Removes(st.obs, st.reqs[k], i);
      assert st.reqs[k] == Remove(ref);
    }
    if Remove(ref) in st.reqs {
      var k :| 0 <= k < |st.reqs| && st.reqs[k] == Remove(ref);
      assert Removes(st.obs, st.reqs[k], i);
    }
    if AnyAdds(st.obs, st.reqs, i) {
      var k :| 0 <= k < |st.reqs| && Adds(st.obs, st.reqs[k], i);
      assert st.reqs[k] == Add(ref);
    }
    if Add(ref) in st.reqs {
      var k :| 0 <= k < |st.reqs| && st.reqs[k] == Add(ref);
      assert Adds(st.obs, st.reqs[k], i);
    }
  }

  /** Building a tile only settles an obstacle: what it contributes to stays. */
  lemma SettleSlot(ob: Obstacle, t: TileRef)
    requires ob.salt < 0xffff
    ensures var ob' := Settle(ob, t);
      && ob'.shape == ob.shape && ob'.touched == ob.touched
      && (ob.state.Removing? ==>
            (ob'.state.Removing? && ob'.salt == ob.salt) || (ob'.state.Empty? && ob'.salt == ob.salt + 1))
      && (ob.state.Empty? ==> ob' == ob)
      && (ob.state.Processing? || ob.state.Processed? ==>
            (ob'.state.Processing? || ob'.state.Processed?) && ob'.salt == ob.salt)
  {
  }

  /** A slot after an update that reads a batch. */
  lemma UpdatedSlot(q: TileQuery, st: State, i: nat) returns (ob: Obstacle)
    requires Inv(st) && NoSaltWrap(st) && st.upd == [] && i < |st.obs|
    ensures var s' := Update(q, st).0;
      && |s'.obs| == |st.obs| && SlotRequested(q, st.obs, st.reqs, i, ob)
      && (s'.obs[i] == ob || exists t :: s'.obs[i] == Settle(ob, t))
  {
    hide ProcessRequests, Settle, SlotRequested, FreeAfter, Marks;
    BatchSlots(q, st.obs, st.reqs);
    ob := RunBatch(q, st).obs[i];
  }

  /** After an update that reads a batch, each obstacle that an accepted removal names is gone and contributes to no
      tile. */
  lemma RemovedIsGone(q: TileQuery, st: State, ref: ObstacleRef)
    requires Inv(st) && NoSaltWrap(st) && st.upd == [] && Remove(ref) in st.reqs && Accepts(st.obs, ref)
    ensures var s' := Update(q, st).0;
      |s'.obs| == |st.obs| && IsGone(s'.obs[DecodeIndex(ref)], ref) && forall t ::
        !Contributes(s'.obs[DecodeIndex(ref)], t)
  {
    var i := DecodeIndex(ref);
    var k :| 0 <= k < |st.reqs| && st.reqs[k] == Remove(ref);
    assert Removes(st.obs, st.reqs[k], i);
    var ob := UpdatedSlot(q, st, i);
    assert ob.state.Removing?;
    var ob' := Update(q, st).0.obs[i];
    if ob' != ob {
      var t :| ob' == Settle(ob, t);
      SettleSlot(ob, t);
    }
    hide Update, Settle;
  }

  /** After an update that reads a batch, each obstacle that it adds and does not remove contributes to exactly the
      tiles its bounds touch. */
  lemma AddedContributes(q: TileQuery, st: State, ref: ObstacleRef)
    requires Inv(st) && NoSaltWrap(st) && st.upd == [] && Add(ref) in st.reqs && Remove(ref) !in st.reqs
    ensures Accepts(st.obs, ref)
    ensures var s', i := Update(q, st).0, DecodeIndex(ref);
      && |s'.obs| == |st.obs| && s'.obs[i].shape == st.obs[i].shape && s'.obs[i].salt == DecodeSalt(ref)
      && forall t :: Contributes(s'.obs[i], t) <==> t in TouchedTiles(q, st.obs[i].shape)
  {
    var i := DecodeIndex(ref);
    var k :| 0 <= k < |st.reqs| && st.reqs[k] == Add(ref);
    assert AwaitsAdd(st.obs, st.reqs[k].ref);
    assert IssuedRef(st.obs, ref);
    RequestNames(st, i);
    var ob := UpdatedSlot(q, st, i);
    var ob' := Update(q, st).0.obs[i];
    if ob' != ob {
      var t :| ob' == Settle(ob, t);
      SettleSlot(ob, t);
    }
    hide Update, Settle, TouchedTiles;
  }

  // ----- The caller's ledger -----

  /** The obstacles a caller counts on: added with success, and not removed with success since. */
  type Ledger = map<ObstacleRef, Shape>

  ghost function Booked(st: State, led: Ledger, e: Event): Ledger
    requires Inv(st)
  {
    match e
    case AddEvent(s) =>
      var (_, status, ref) := AddObstacle(st, s);
      if status.Success? then led[ref := s] else led
    case RemoveEvent(r) => if RemoveObstacle(st, r).1.Success? then led - {r} else led
    case UpdateEvent => led
  }

  /** The ledger after a run. */
  ghost function Standing(q: TileQuery, st: State, led: Ledger, es: seq<Event>): Ledger
    requires Inv(st) && GoodQuery(q, st.mesh.Keys) && LegalRun(q, st, es)
    decreases |es|
  {
    if es == [] then led
    else
      StepInv(q, st, es[0]);
      Standing(q, Step(q, st, es[0]), Booked(st, led, es[0]), es[1..])
  }

  predicate Active(ob: Obstacle) {
    ob.state.Processing? || ob.state.Processed?
  }

  /** A booked reference names a slot in use. */
  predicate InUse(obs: seq<Obstacle>, ref: ObstacleRef) {
    Canonical(ref) && Accepts(obs, ref) && Active(obs[DecodeIndex(ref)])
  }

  /** A slot in use is booked unless its removal is queued; unless its addition is queued it touches the tiles of its
      bounds. */
  predicate SlotBooked(q: TileQuery, ob: Obstacle, reqs: seq<Request>, led: Ledger, ref: ObstacleRef) {
    && (ref in led <==> Remove(ref) !in reqs)
    && (ref in led ==> led[ref] == ob.shape)
    && ob.touched == (if Add(ref) in reqs then [] else TouchedTiles(q, ob.shape))
  }

  predicate LedgerOk(q: TileQuery, st: State, led: Ledger) {
    && (forall r :: r in led ==> InUse(st.obs, r))
    && forall i :: 0 <= i < |st.obs| && Active(st.obs[i]) ==>
         SlotBooked(q, st.obs[i], st.reqs, led, RefOf(st.obs, i))
  }

  lemma SlotRef(st: State, i: nat)
    requires Inv(st) && i < |st.obs|
    ensures var r := RefOf(st.obs, i);
      && r > 0 && Canonical(r) && DecodeIndex(r) == i && DecodeSalt(r) == st.obs[i].salt && Accepts(st.obs, r)
  {
    assert ObstacleOk(st.obs[i], st.upd, st.mesh.Keys);
    ObstacleIdRoundTrip(st.obs[i].salt, i);
  }

  lemma RefIsSlot(obs: seq<Obstacle>, r: ObstacleRef)
    requires InUse(obs, r)
    ensures r == RefOf(obs, DecodeIndex(r))
  {
  }

  // ----- Calls keep the ledger -----

  /** A free slot's reference was not handed out yet. */
  lemma FreshRef(st: State, i: nat)
    requires Inv(st) && i in st.free
    ensures i < |st.obs| && st.obs[i].state.Empty? && RefOf(st.obs, i) !in st.issued
    ensures Add(RefOf(st.obs, i)) !in st.reqs && Remove(RefOf(st.obs, i)) !in st.reqs
  {
    SlotRef(st, i);
    assert RefOf(st.obs, i) in st.issued ==> IssuedRef(st.obs, RefOf(st.obs, i));
  }

  lemma AddKeepsLedger(q: TileQuery, st: State, led: Ledger, s: Shape)
    requires Inv(st) && LedgerOk(q, st, led)
    ensures LedgerOk(q, AddObstacle(st, s).0, Booked(st, led, AddEvent(s)))
  {
    var (s', status, ref) := AddObstacle(st, s);
    if status.Success? {
      var i := st.free[0];
      SlotRef(st, i);
      FreshRef(st, i);
      var ob := Obstacle(s, [], [], st.obs[i].salt, Processing);
      assert s'.obs == st.obs[i := ob] && s'.reqs == st.reqs + [Add(ref)] && ref == RefOf(st.obs, i);
      hide Inv;
      TakenSlot(q, st, led, i, ob);
    }
  }

  /** A free slot is taken and its addition queued. */
  lemma TakenSlot(q: TileQuery, st: State, led: Ledger, i: nat, ob: Obstacle)
    requires LedgerOk(q, st, led) && i < |st.obs| <= 0x1_0000 && st.obs[i].state.Empty?
    requires Active(ob) && ob.touched == []
    requires ob.salt == st.obs[i].salt && Accepts(st.obs, RefOf(st.obs, i)) && Canonical(RefOf(st.obs, i))
    requires Remove(RefOf(st.obs, i)) !in st.reqs && DecodeIndex(RefOf(st.obs, i)) == i
    ensures LedgerOk(q, st.(obs := st.obs[i := ob], reqs := st.reqs + [Add(RefOf(st.obs, i))]),
                     led[RefOf(st.obs, i) := ob.shape])
  {
    hide TouchedTiles, Canonical;
    var ref, obs' := RefOf(st.obs, i), st.obs[i := ob];
    var reqs', led' := st.reqs + [Add(ref)], led[ref := ob.shape];
    assert Add(ref) in reqs';
    forall k | 0 <= k < |obs'| && Active(obs'[k])
      ensures SlotBooked(q, obs'[k], reqs', led', RefOf(obs', k))
    {
      if k != i {
        RefIndex(st.obs, k);
        OtherSlot(q, st, led, k, ref, ob.shape);
      }
    }
    forall r | r in led'
      ensures InUse(obs', r)
    {
      assert r != ref ==> InUse(st.obs, r);
    }
  }

  lemma OtherSlot(q: TileQuery, st: State, led: Ledger, k: nat, ref: ObstacleRef, s: Shape)
    requires LedgerOk(q, st, led) && k < |st.obs| && Active(st.obs[k]) && ref != RefOf(st.obs, k)
    ensures SlotBooked(q, st.obs[k], st.reqs + [Add(ref)], led[ref := s], RefOf(st.obs, k))
  {
    assert SlotBooked(q, st.obs[k], st.reqs, led, RefOf(st.obs, k));
  }

  lemma RefIndex(obs: seq<Obstacle>, k: nat)
    requires k < |obs| <= 0x1_0000
    ensures DecodeIndex(RefOf(obs, k)) == k
  {
  }

  lemma RemoveKeepsLedger(q: TileQuery, st: State, led: Ledger, ref: ObstacleRef)
    requires Inv(st) && LedgerOk(q, st, led)
    ensures LedgerOk(q, RemoveObstacle(st, ref).0, Booked(st, led, RemoveEvent(ref)))
  {
    var s', led' := RemoveObstacle(st, ref).0, Booked(st, led, RemoveEvent(ref));
    forall i | 0 <= i < |s'.obs| && Active(s'.obs[i])
      ensures SlotBooked(q, s'.obs[i], s'.reqs, led', RefOf(s'.obs, i))
    {
      SlotRef(st, i);
      assert SlotBooked(q, st.obs[i], st.reqs, led, RefOf(st.obs, i));
      hide TouchedTiles, Inv, Canonical, Accepts;
    }
  }

  lemma BatchKeepsLedger(q: TileQuery, st: State, led: Ledger)
    requires Inv(st) && LedgerOk(q, st, led)
    ensures LedgerOk(q, RunBatch(q, st), led)
  {
    hide ProcessRequests, SlotRequested;
    var s' := RunBatch(q, st);
    BatchSlots(q, st.obs, st.reqs);
    forall i | 0 <= i < |s'.obs| && Active(s'.obs[i])
      ensures SlotBooked(q, s'.obs[i], s'.reqs, led, RefOf(s'.obs, i))
    {
      BatchSlotBooked(q, st, led, i, s'.obs[i]);
    }
    forall r | r in led
      ensures InUse(s'.obs, r)
    {
      assert InUse(st.obs, r);
      RefIsSlot(st.obs, r);
      BatchSlotInUse(q, st, led, DecodeIndex(r), s'.obs[DecodeIndex(r)]);
    }
  }

  lemma BatchSlotBooked(q: TileQuery, st: State, led: Ledger, i: nat, ob: Obstacle)
    requires Inv(st) && LedgerOk(q, st, led) && i < |st.obs| && SlotRequested(q, st.obs, st.reqs, i, ob) && Active(ob)
    ensures SlotBooked(q, ob, [], led, RefOf(st.obs, i)) && ob.salt == st.obs[i].salt
  {
    RequestNames(st, i);
    hide Inv, TouchedTiles, AnyRemoves, AnyAdds;
    assert Active(st.obs[i]) && SlotBooked(q, st.obs[i], st.reqs, led, RefOf(st.obs, i));
  }

  lemma BatchSlotInUse(q: TileQuery, st: State, led: Ledger, i: nat, ob: Obstacle)
    requires Inv(st) && LedgerOk(q, st, led) && i < |st.obs| && SlotRequested(q, st.obs, st.reqs, i, ob)
    requires Active(st.obs[i]) && RefOf(st.obs, i) in led
    ensures Active(ob) && ob.salt == st.obs[i].salt
  {
    RequestNames(st, i);
    hide Inv, TouchedTiles, AnyRemoves, AnyAdds;
    assert SlotBooked(q, st.obs[i], st.reqs, led, RefOf(st.obs, i));
  }

  lemma BuildKeepsLedger(q: TileQuery, st: State, led: Ledger)
    requires NoSaltWrap(st) && LedgerOk(q, st, led) && st.upd != []
    ensures LedgerOk(q, BuildFirst(st), led)
  {
    hide Settle, TouchedTiles, Canonical, Marks, FreeAfter;
    var s' := BuildFirst(st);
    forall i | 0 <= i < |s'.obs|
      ensures s'.obs[i].shape == st.obs[i].shape && s'.obs[i].touched == st.obs[i].touched
      ensures Active(s'.obs[i]) <==> Active(st.obs[i])
      ensures Active(st.obs[i]) ==> s'.obs[i].salt == st.obs[i].salt
    {
      SettleSlot(st.obs[i], st.upd[0]);
    }
    hide BuildFirst, EncodeObstacleId;
    forall i | 0 <= i < |s'.obs| && Active(s'.obs[i])
      ensures SlotBooked(q, s'.obs[i], s'.reqs, led, RefOf(s'.obs, i))
    {
      assert SlotBooked(q, st.obs[i], st.reqs, led, RefOf(st.obs, i));
    }
    forall r | r in led
      ensures InUse(s'.obs, r)
    {
      assert InUse(st.obs, r);
    }
  }

  lemma StepKeepsLedger(q: TileQuery, st: State, led: Ledger, e: Event)
    requires Inv(st) && GoodQuery(q, st.mesh.Keys) && Legal(st, e) && LedgerOk(q, st, led)
    ensures LedgerOk(q, Step(q, st, e), Booked(st, led, e))
  {
    match e
    case AddEvent(s) => AddKeepsLedger(q, st, led, s);
    case RemoveEvent(r) => RemoveKeepsLedger(q, st, led, r);
    case UpdateEvent =>
      var s1 := AfterRequests(q, st);
      if st.upd == [] {
        BatchKeepsLedger(q, st, led);
        BatchSalts(q, st);
      }
      hide Inv, LedgerOk, RunBatch, BuildFirst;
      if s1.upd != [] {
        BuildKeepsLedger(q, s1, led);
      }
  }

  lemma BatchSalts(q: TileQuery, st: State)
    requires NoSaltWrap(st)
    ensures NoSaltWrap(RunBatch(q, st))
  {
    ProcessRequestsSalts(q, Batch(st.obs, [], {}), st.reqs);
  }

  lemma {:induction false} RunKeepsLedger(q: TileQuery, st: State, led: Ledger, es: seq<Event>)
    requires Inv(st) && GoodQuery(q, st.mesh.Keys) && LegalRun(q, st, es) && LedgerOk(q, st, led)
    ensures LedgerOk(q, Run(q, st, es), Standing(q, st, led, es))
    decreases |es|
  {
    hide Inv, LedgerOk, Booked, GoodQuery;
    if es != [] {
      StepInv(q, st, es[0]);
      StepKeepsLedger(q, st, led, es[0]);
      RunKeepsLedger(q, Step(q, st, es[0]), Booked(st, led, es[0]), es[1..]);
    }
  }

  // ----- What the tiles are built from -----

  /** `order` lists, by slot, the booked obstacles whose bounds touch tile `t`, and `shapes` are theirs. */
  ghost predicate BuiltInOrder(q: TileQuery, shapes: seq<Shape>, led: Ledger, t: TileRef, order: seq<ObstacleRef>) {
    && |order| == |shapes|
    && (forall k :: 0 <= k < |order| ==> order[k] in led && shapes[k] == led[order[k]])
    && (forall i, k :: 0 <= i < k < |order| ==> DecodeIndex(order[i]) < DecodeIndex(order[k]))
    && forall r :: r in order <==> r in led && t in TouchedTiles(q, led[r])
  }

  /** The shapes are exactly those of the booked obstacles whose bounds touch tile `t`, each once, in slot order. */
  ghost predicate BuiltFrom(q: TileQuery, shapes: seq<Shape>, led: Ledger, t: TileRef) {
    exists order :: BuiltInOrder(q, shapes, led, t, order)
  }

  /** The slots, of the first `n`, that contribute to a tile, as references. */
  function Contributors(obs: seq<Obstacle>, t: TileRef, n: nat): (order: seq<ObstacleRef>)
    requires n <= |obs|
  {
    if n == 0 then []
    else Contributors(obs, t, n - 1) + if Contributes(obs[n - 1], t) then [RefOf(obs, n - 1)] else []
  }

  /** The `k`th contributor's reference and shape belong to one contributing slot. */
  predicate ContributorAt(obs: seq<Obstacle>, t: TileRef, n: nat, ref: ObstacleRef, shape: Shape) {
    var i := DecodeIndex(ref);
    i < n <= |obs| && Contributes(obs[i], t) && ref == RefOf(obs, i) && shape == obs[i].shape
  }

  predicate Ascending(order: seq<ObstacleRef>) {
    forall i, k :: 0 <= i < k < |order| ==> DecodeIndex(order[i]) < DecodeIndex(order[k])
  }

  lemma {:induction false} ContributorsFacts(obs: seq<Obstacle>, t: TileRef, n: nat)
    requires n <= |obs| <= 0x1_0000
    ensures var order, marks := Contributors(obs, t, n), Marks(obs[..n], t);
      && |order| == |marks| && Ascending(order)
      && (forall k :: 0 <= k < |order| ==> ContributorAt(obs, t, n, order[k], marks[k]))
      && forall i :: 0 <= i < n && Contributes(obs[i], t) ==> RefOf(obs, i) in order
  {
    hide Contributes;
    if n > 0 {
      ContributorsFacts(obs, t, n - 1);
      RefIndex(obs, n - 1);
      assert obs[..n][..n - 1] == obs[..n - 1];
    }
  }

  lemma ContributorIsBooked(q: TileQuery, st: State, led: Ledger, t: TileRef, ref: ObstacleRef, shape: Shape)
    requires LedgerOk(q, st, led) && st.reqs == [] && ContributorAt(st.obs, t, |st.obs|, ref, shape)
    ensures ref in led && shape == led[ref] && t in TouchedTiles(q, led[ref])
  {
    hide TouchedTiles, EncodeObstacleId, DecodeIndex;
    var i := DecodeIndex(ref);
    assert SlotBooked(q, st.obs[i], st.reqs, led, RefOf(st.obs, i));
  }

  lemma BookedContributes(q: TileQuery, st: State, led: Ledger, t: TileRef, ref: ObstacleRef)
    requires LedgerOk(q, st, led) && st.reqs == [] && ref in led && t in TouchedTiles(q, led[ref])
    ensures InUse(st.obs, ref) && Contributes(st.obs[DecodeIndex(ref)], t) && ref == RefOf(st.obs, DecodeIndex(ref))
  {
    hide TouchedTiles;
    assert InUse(st.obs, ref);
    RefIsSlot(st.obs, ref);
    assert SlotBooked(q, st.obs[DecodeIndex(ref)], st.reqs, led, ref);
  }

  lemma MarksAreBooked(q: TileQuery, st: State, led: Ledger, t: TileRef)
    requires |st.obs| <= 0x1_0000 && LedgerOk(q, st, led) && st.reqs == []
    ensures BuiltFrom(q, Marks(st.obs, t), led, t)
  {
    var order, marks := Contributors(st.obs, t, |st.obs|), Marks(st.obs, t);
    ContributorsFacts(st.obs, t, |st.obs|);
    assert st.obs[..|st.obs|] == st.obs;
    hide Marks, Contributors, TouchedTiles, DecodeIndex, LedgerOk, ContributorAt, InUse, Contributes;
    forall k | 0 <= k < |order|
      ensures order[k] in led && marks[k] == led[order[k]] && t in TouchedTiles(q, led[order[k]])
    {
      ContributorIsBooked(q, st, led, t, order[k], marks[k]);
    }
    forall r | r in led && t in TouchedTiles(q, led[r])
      ensures r in order
    {
      BookedContributes(q, st, led, t, r);
      InUseIndex(st.obs, r);
    }
    assert BuiltInOrder(q, marks, led, t, order);
  }

  lemma InUseIndex(obs: seq<Obstacle>, ref: ObstacleRef)
    requires InUse(obs, ref)
    ensures DecodeIndex(ref) < |obs|
  {
  }

  /** A new cache. */
  ghost function NewCache(maxObstacles: nat, tiles: set<TileRef>): (st: State)
    requires maxObstacles <= 0x1_0000
    ensures Inv(st) && st.mesh.Keys == tiles && st == InitialState(maxObstacles, tiles)
  {
    InitialInv(maxObstacles, tiles);
    InitialState(maxObstacles, tiles)
  }

  /** By any run whose batches fit: when nothing is queued any more, each tile is built from exactly the shapes, in slot
      order, of the additions that succeeded, touch the tile, and whose reference no later successful removal names. */
  lemma TilesFollowCalls(q: TileQuery, maxObstacles: nat, tiles: set<TileRef>, es: seq<Event>, t: TileRef)
    requires maxObstacles <= 0x1_0000 && GoodQuery(q, tiles) && t in tiles
    requires LegalRun(q, NewCache(maxObstacles, tiles), es) && FewRun(q, NewCache(maxObstacles, tiles), es)
    ensures var st := NewCache(maxObstacles, tiles);
      var s', led := Run(q, st, es), Standing(q, st, map[], es);
      s'.upd == [] && s'.reqs == [] ==> t in s'.mesh && BuiltFrom(q, s'.mesh[t], led, t)
  {
    var st := NewCache(maxObstacles, tiles);
    assert LedgerOk(q, st, map[]) && st.dropped == {};
    hide InitialState, LedgerOk, BuiltFrom, Run, Standing, FewRun, LegalRun, GoodQuery;
    RunInv(q, st, es);
    RunKeepsLedger(q, st, map[], es);
    FewRunIsFullRebuild(q, st, es);
    var s' := Run(q, st, es);
    if s'.upd == [] && s'.reqs == [] {
      MarksAreBooked(q, s', Standing(q, st, map[], es), t);
    }
  }

  // ----- Bounds -----

  /** A point of an obstacle. */
  predicate InShape(s: Shape, p: Vec) {
    match s
    case Cylinder(c, r, h) =>
      && (p.0 - c.0) * (p.0 - c.0) + (p.2 - c.2) * (p.2 - c.2) <= r * r && r >= 0.0
      && c.1 <= p.1 <= c.1 + h
    case Box(lo, hi) => InBounds(p, lo, hi)
  }

  predicate InBounds(p: Vec, lo: Vec, hi: Vec) {
    lo.0 <= p.0 <= hi.0 && lo.1 <= p.1 <= hi.1 && lo.2 <= p.2 <= hi.2
  }

  lemma SquareOrder(x: real, r: real)
    requires r >= 0.0 && x * x <= r * r
    ensures -r <= x <= r
  {
    assert x * x - r * r == (x - r) * (x + r);
    if x > r {
      Positive(x - r, x + r);
    } else if -x > r {
      Positive(r - x, -(x + r));
    }
  }

  lemma Positive(a: real, b: real)
    requires a > 0.0 && b > 0.0
    ensures a * b > 0.0
  {
  }

  lemma NotNegative(x: real)
    ensures x * x >= 0.0
  {
  }

  ghost predicate Contains(lo: Vec, hi: Vec, s: Shape) {
    forall x :: InShape(s, x) ==> InBounds(x, lo, hi)
  }

  /** The box contains the obstacle and is inside every box that does. */
  ghost predicate IsLeastBox(s: Shape, lo: Vec, hi: Vec) {
    Contains(lo, hi, s) && forall lo', hi' :: Contains(lo', hi', s) ==> InBounds(lo, lo', hi') && InBounds(hi, lo', hi')
  }

  lemma BoundsContain(s: Shape, p: Vec)
    requires InShape(s, p)
    ensures InBounds(p, Bounds(s).0, Bounds(s).1)
  {
    if s.Cylinder? {
      NotNegative(p.0 - s.pos.0);
      NotNegative(p.2 - s.pos.2);
      SquareOrder(p.0 - s.pos.0, s.radius);
      SquareOrder(p.2 - s.pos.2, s.radius);
    }
  }

  /** The bounds of an obstacle that has a point at all. */
  lemma BoundsAreLeast(s: Shape, p: Vec)
    requires InShape(s, p)
    ensures IsLeastBox(s, Bounds(s).0, Bounds(s).1)
  {
    var (lo, hi) := Bounds(s);
    BoundsContain(s, p);
    forall x | InShape(s, x)
      ensures InBounds(x, lo, hi)
    {
      BoundsContain(s, x);
    }
    match s
    case Cylinder(c, r, h) =>
      var left, right, near, far: Vec :=
        (c.0 - r, c.1, c.2), (c.0 + r, c.1 + h, c.2), (c.0, c.1, c.2 - r), (c.0, c.1, c.2 + r);
      NotNegative(p.0 - c.0);
      NotNegative(p.2 - c.2);
      NotNegative(r);
      assert InShape(s, left) && InShape(s, right) && InShape(s, near) && InShape(s, far);
    case Box(_, _) =>
      assert InShape(s, lo) && InShape(s, hi);
  }

  /** The tiles an obstacle touches are those of the least box around it. */
  lemma TouchedByLeastBox(q: TileQuery, s: Shape, p: Vec, lo: Vec, hi: Vec)
    requires InShape(s, p) && IsLeastBox(s, lo, hi)
    ensures TouchedTiles(q, s) == q(lo, hi)
  {
    BoundsAreLeast(s, p);
    hide InShape;
    var (lo', hi') := Bounds(s);
    assert Contains(lo, hi, s) && Contains(lo', hi', s);
    hide Contains;
    assert lo == lo' && hi == hi';
  }

  // ----- An example -----

  lemma OneRequest(q: TileQuery, obs: seq<Obstacle>, req: Request)
    ensures ProcessRequests(q, Batch(obs, [], {}), [req]) == ProcessRequest(q, Batch(obs, [], {}), req)
  {
    assert [req][..0] == [];
  }

  lemma OneTile(t: TileRef)
    ensures QueueTiles([t], []) == ([t], [t]) && SwapRemove([t], t) == []
  {
    var none: seq<TileRef> := [];
    assert [t][..0] == none && QueueTiles(none, none) == (none, none);
    assert QueueTiles([t], none) == (none + [t], none + [t]) && none + [t] == [t];
  }

  /** A cache of one slot, whose obstacle touches tile 7 alone. */
  function OneSlot(ob: Obstacle, free: seq<nat>, reqs: seq<Request>, upd: seq<TileRef>, shapes: seq<Shape>,
                   issued: set<ObstacleRef>): State
  {
    State([ob], free, reqs, upd, map[7 := shapes], {}, issued)
  }

  lemma OneSlotReads(q: TileQuery, ob: Obstacle, req: Request, shapes: seq<Shape>, issued: set<ObstacleRef>)
    requires TouchedTiles(q, ob.shape) == [7] && ob.salt == 1 && req.ref == 0x1_0000
    requires req.Remove? ==> ob.touched == [7]
    ensures RunBatch(q, OneSlot(ob, [], [req], [], shapes, issued)) ==
      OneSlot(ob.(touched := [7], pending := [7], state := if req.Add? then ob.state else Removing), [], [], [7],
              shapes, issued)
  {
    hide TouchedTiles, QueueTiles;
    OneRequest(q, [ob], req);
    OneTile(7);
    var st := OneSlot(ob, [], [req], [], shapes, issued);
    var b := ProcessRequest(q, Batch([ob], [], {}), req);
    assert b.asked == Elements([7]) == Elements(b.upd);
    assert st.dropped + (b.asked - Elements(b.upd)) == {};
  }

  lemma OneSlotBuilds(ob: Obstacle, shapes: seq<Shape>, issued: set<ObstacleRef>)
    requires ob.touched == [7] && ob.pending == [7] && ob.salt == 1 && (ob.state.Processing? || ob.state.Removing?)
    ensures BuildFirst(OneSlot(ob, [], [], [7], shapes, issued)) ==
      if ob.state.Processing? then OneSlot(ob.(pending := [], state := Processed), [], [], [], [ob.shape], issued)
      else OneSlot(ob.(pending := [], state := Empty, salt := 2), [0], [], [], [], issued)
  {
    OneTile(7);
    hide SwapRemove;
    var st := OneSlot(ob, [], [], [7], shapes, issued);
    assert st.obs[..0] == [] && Marks(st.obs, 7) == if ob.state.Processing? then [ob.shape] else [];
    assert FreeAfter(st.obs, 7, 0, []) == [];
    assert SettleAll(st.obs, 7) == [Settle(ob, 7)];
    assert [7][1..] == [] && st.mesh[7 := Marks(st.obs, 7)] == map[7 := Marks(st.obs, 7)];
    assert st.dropped - {7} == {};
  }

  /** A box that touches tile 7 is in it after one update, and after it is removed and one more update it is out of it
      and its slot is free under the next salt. */
  lemma RemovedBox(q: TileQuery, box: Shape)
    requires TouchedTiles(q, box) == [7]
    ensures var s1 := AddObstacle(InitialState(1, {7}), box).0;
      var s2 := Update(q, s1).0;
      var (s3, upToDate) := Update(q, RemoveObstacle(s2, 0x1_0000).0);
      && s2.mesh == map[7 := [box]] && upToDate && s3.mesh == map[7 := []]
      && |s3.obs| == 1 && s3.obs[0].state == Empty && s3.obs[0].salt == 2 && s3.free == [0]
  {
    var ob, refs := Obstacle(box, [], [], 1, Processing), {0x1_0000};
    var s1 := AddObstacle(InitialState(1, {7}), box).0;
    assert InitialState(1, {7}).free == [0] && {} + {0x1_0000} == refs;
    assert s1.mesh == map[7 := []] && s1.obs == [ob] && s1.free == [];
    assert s1 == OneSlot(ob, [], [Add(0x1_0000)], [], [], refs);
    hide TouchedTiles, RunBatch, BuildFirst, InitialState;
    OneSlotReads(q, ob, Add(0x1_0000), [], refs);
    OneSlotBuilds(ob.(touched := [7], pending := [7]), [], refs);
    var ob' := ob.(touched := [7], state := Processed);
    assert Update(q, s1).0 == OneSlot(ob', [], [], [], [box], refs);
    OneSlotReads(q, ob', Remove(0x1_0000), [box], refs);
    OneSlotBuilds(ob'.(pending := [7], state := Removing), [box], refs);
  }
}
