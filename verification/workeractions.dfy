/** What each kind of worker does when a command names it: `Picker.pick`
    and `sendNextRequest`, `CheckerWorker.check`, `rescan` and
    `sendToRepick`, the approval of `Sequencer` and `Loader`, and
    `Replenisher.replenish`. Each takes the worker by id; the worker must
    be of the kind whose method is called. */
module WorkerActions {
  import opened Wrappers
  import opened Orders
  import opened Workers
  import opened WorkerPool
  import opened RequestManager
  import Inv = Inventory
  import PQ = PriorityQueue

  /** A worker of `role` is filed under `id`. */
  predicate Acting(wh: Warehouse, id: string, role: Role)
  {
    IdsMatch(wh) && id in wh.workers && wh.workers[id].role == role
  }

  /** `pick(sku)`. An accepted pick appends `sku` to the held request's
      fascia state, takes one `sku` from stock (queueing its location for
      replenishing when that leaves 5 or fewer), and advances the cursor,
      marking the picker done at the eighth. A pick without a request, after
      the eighth, or of a SKU that is not next on the path changes nothing. */
  function Pick(wh: Warehouse, id: string, sku: string): (r: Result<Warehouse>)
    requires Acting(wh, id, Picker)
    ensures r.Success? ==> TablesKept(wh, r.value)
    ensures r.Success? ==> r.value.workers.Keys == wh.workers.Keys && r.value.requests.Keys == wh.requests.Keys
    ensures r.Success? ==> IdsMatch(r.value)
    ensures PickStep(wh.workers[id], sku) == Success(None) ==> r == Success(wh)
    ensures PickStep(wh.workers[id], sku).Failure? ==> r.Failure?
    ensures r.Success? && r != Success(wh) ==>
      var w := wh.workers[id];
      var rid := w.request.value;
      && PickStep(w, sku).Success? && PickStep(w, sku).value.Some?
      && r.value.workers[id] == PickStep(w, sku).value.value
      && rid in wh.requests
      && r.value.requests[rid] == UpdateFasciaState(wh.requests[rid], sku)
      && sku in wh.ledger.stock
      && r.value.ledger.stock == wh.ledger.stock[sku := wh.ledger.stock[sku] - 1]
      && r.value.picking == wh.picking && r.value.loadOrder == wh.loadOrder
    ensures (r.Success? && r != Success(wh) && wh.workers[id].request.Some? &&
             wh.workers[id].request.value in wh.requests && sku in wh.ledger.stock) ==>
      var rid := wh.workers[id].request.value;
      var left := wh.ledger.stock[sku] - 1;
      var loc := wh.ledger.locations[sku];
      var base := wh.(requests := wh.requests[rid := UpdateFasciaState(wh.requests[rid], sku)],
                      ledger := r.value.ledger);
      var back := r.value.(workers := r.value.workers[id := wh.workers[id]]);
      && (left > Inv.LOW_STOCK ==> back == base)
      && (left <= Inv.LOW_STOCK ==> Frame(base.(replenishQueue := wh.replenishQueue + [loc]), back, Replenisher))
      && (left <= Inv.LOW_STOCK && |wh.pool.replenishers| == 0 ==> r.value.replenishQueue == wh.replenishQueue + [loc])
  {
    var w := wh.workers[id];
    match PickStep(w, sku)
    case Failure(f) => Failure(f)
    case Success(None) => Success(wh)
    case Success(Some(w')) =>
      if w.request.value !in wh.requests then Failure(Dangling)
      else
        var r := PickAccepted(wh, id, sku, w');
        assert r.Success? ==> r != Success(wh) by {
          assert w'.cursor != w.cursor;
        }
        r
  }

  /** An accepted pick, once the picker's new state `w'` is known: the
      request gains `sku`, the stock loses one (queueing the location for
      replenishing at 5 or fewer), and the picker takes its new state. */
  function PickAccepted(wh: Warehouse, id: string, sku: string, w': Worker): (r: Result<Warehouse>)
    requires Acting(wh, id, Picker)
    requires PickStep(wh.workers[id], sku) == Success(Some(w'))
    requires wh.workers[id].request.value in wh.requests
    ensures r.Success? ==> TablesKept(wh, r.value)
    ensures r.Success? ==> r.value.workers.Keys == wh.workers.Keys && r.value.requests.Keys == wh.requests.Keys
    ensures r.Success? ==> IdsMatch(r.value)
    ensures sku !in wh.ledger.stock ==> r.Failure?
    ensures r.Success? ==>
      var rid := wh.workers[id].request.value;
      var left := wh.ledger.stock[sku] - 1;
      var loc := wh.ledger.locations[sku];
      var base := wh.(requests := wh.requests[rid := UpdateFasciaState(wh.requests[rid], sku)],
                      ledger := r.value.ledger);
      var back := r.value.(workers := r.value.workers[id := wh.workers[id]]);
      && r.value.workers[id] == w'
      && r.value.requests[rid] == UpdateFasciaState(wh.requests[rid], sku)
      && sku in wh.ledger.stock
      && r.value.ledger.stock == wh.ledger.stock[sku := left]
      && r.value.picking == wh.picking && r.value.loadOrder == wh.loadOrder
      && (left > Inv.LOW_STOCK ==> back == base)
      && (left <= Inv.LOW_STOCK ==> Frame(base.(replenishQueue := wh.replenishQueue + [loc]), back, Replenisher))
      && (left <= Inv.LOW_STOCK && |wh.pool.replenishers| == 0 ==> r.value.replenishQueue == wh.replenishQueue + [loc])
  {
    var w := wh.workers[id];
    var rid := w.request.value;
    var wh1 := wh.(requests := wh.requests[rid := UpdateFasciaState(wh.requests[rid], sku)]);
    match DecrementStock(wh1, sku)
    case Failure(f) => Failure(f)
    case Success(wh2) =>
      assert wh2.workers[id] == w;
      PutBack(wh2, id, w');
      Success(wh2.(workers := wh2.workers[id := w']))
  }

  /** The picker's `sendNextRequest` ("to Marshaling"): once done picking,
      the request goes to sequencing and the picker is released with its
      path cleared and its flag reset; before that, or without a request,
      nothing changes. */
  function PickerSendNext(wh: Warehouse, id: string): (r: Result<Warehouse>)
    requires Acting(wh, id, Picker)
    ensures r.Success? ==> TablesKept(wh, r.value)
    ensures r.Success? ==> r.value.workers.Keys == wh.workers.Keys && r.value.requests.Keys == wh.requests.Keys
    ensures r.Success? ==> IdsMatch(r.value)
    ensures wh.workers[id].request.None? || !wh.workers[id].donePicking ==> r == Success(wh)
    ensures wh.workers[id].request.Some? && wh.workers[id].donePicking && |wh.pool.sequencers| == 0 ==>
      && r.Success?
      && r.value.sequencing == wh.sequencing + [wh.workers[id].request.value]
    ensures r.Success? && wh.workers[id].request.Some? && wh.workers[id].donePicking ==>
      var w' := r.value.workers[id];
      && Idle(w') && w'.path == [] && !w'.donePicking
      && w'.valid == wh.workers[id].valid
    ensures r.Success? && wh.workers[id].request.Some? && wh.workers[id].donePicking ==>
      Frame(wh.(sequencing := wh.sequencing + [wh.workers[id].request.value]),
            r.value.(workers := r.value.workers[id := wh.workers[id]]), Sequencer)
  {
    var w := wh.workers[id];
    if w.request.None? || !w.donePicking then Success(wh)
    else
      match SendToSequencing(wh, w.request.value)
      case Failure(f) => Failure(f)
      case Success(wh1) =>
        assert wh1.workers[id] == w;
        PutBack(wh1, id, FinishTask(w).(path := [], donePicking := false));
        Success(wh1.(workers := wh1.workers[id := FinishTask(w).(path := [], donePicking := false)]))
  }

  /** `check` ("sequences" / "loads") against the held request's load order
      and current fascia state. */
  function Check(wh: Warehouse, id: string): (r: Result<Warehouse>)
    requires Acting(wh, id, Sequencer) || Acting(wh, id, Loader)
    ensures r.Success? ==> TablesKept(wh, r.value)
    ensures r.Success? ==> r.value.workers.Keys == wh.workers.Keys && r.value.requests.Keys == wh.requests.Keys
    ensures r.Success? ==> IdsMatch(r.value)
    ensures wh.workers[id].request.None? ==> r == Success(wh)
    ensures r.Success? ==> r.value == wh.(workers := r.value.workers)
    ensures r.Success? && wh.workers[id].request.Some? ==>
      wh.workers[id].request.value in wh.requests &&
      var req := wh.requests[wh.workers[id].request.value];
      CheckStep(wh.workers[id], req.loadingOrder, req.fasciaState) == Success(r.value.workers[id])
    ensures r.Success? ==> r.value.workers == wh.workers[id := r.value.workers[id]]
  {
    var w := wh.workers[id];
    match w.request
    case None => Success(wh)
    case Some(rid) =>
      if rid !in wh.requests then Failure(Dangling)
      else
        var req := wh.requests[rid];
        match CheckStep(w, req.loadingOrder, req.fasciaState)
        case Failure(f) => Failure(f)
        case Success(w') => Success(wh.(workers := wh.workers[id := w']))
  }

  /** `rescan`: the checker starts again from the first fascia with its
      results nulled, keeping its request. */
  function RescanAction(wh: Warehouse, id: string): (r: Warehouse)
    requires Acting(wh, id, Sequencer) || Acting(wh, id, Loader)
    ensures r == wh.(workers := wh.workers[id := Rescan(wh.workers[id])])
    ensures IdsMatch(r)
  {
    wh.(workers := wh.workers[id := Rescan(wh.workers[id])])
  }

  /** `clearValidFascias` followed by `finishTask`, as a checker does when
      it hands its request on. */
  function Release(w: Worker): (w': Worker)
    ensures Idle(w')
    ensures |w'.valid| == |w.valid| && Some(false) !in w'.valid && Some(true) !in w'.valid
    ensures w'.identity == w.identity && w'.role == w.role
  {
    var v := ClearValid(w.valid);
    assert Some(false) !in v && Some(true) !in v by {
      forall i | 0 <= i < |v| ensures v[i].None? { }
    }
    FinishTask(w.(valid := v))
  }

  /** `sendToRepick` ("rejects"): the held request goes back to the picking
      queue and the checker is released with its results nulled. Without a
      request the log line reads the id of null. */
  function SendToRepick(wh: Warehouse, id: string): (r: Result<Warehouse>)
    requires Acting(wh, id, Sequencer) || Acting(wh, id, Loader)
    ensures r.Success? ==> TablesKept(wh, r.value)
    ensures r.Success? ==> r.value.workers.Keys == wh.workers.Keys && r.value.requests.Keys == wh.requests.Keys
    ensures r.Success? ==> IdsMatch(r.value)
    ensures wh.workers[id].request.None? ==> r == Failure(NullPointer)
    ensures wh.workers[id].request.Some? && |wh.pool.pickers| == 0 ==>
      && r.Success?
      && r.value.picking == PQ.Insert(wh.picking, wh.workers[id].request.value)
    ensures r.Success? ==>
      var w' := r.value.workers[id];
      && Idle(w')
      && |w'.valid| == |wh.workers[id].valid|
      && Some(false) !in w'.valid && Some(true) !in w'.valid
    ensures r.Success? ==>
      Frame(wh.(picking := PQ.Insert(wh.picking, wh.workers[id].request.value)),
            r.value.(workers := r.value.workers[id := wh.workers[id]]), Picker)
  {
    var w := wh.workers[id];
    match w.request
    case None => Failure(NullPointer)
    case Some(rid) =>
      match SendToPicking(wh, rid)
      case Failure(f) => Failure(f)
      case Success(wh1) =>
        var w' := Release(w);
        assert wh1.workers[id] == w;
        PutBack(wh1, id, w');
        Success(wh1.(workers := wh1.workers[id := w']))
  }

  /** Putting a released worker's old record back undoes the release: what
      remains is the state the send produced. */
  lemma PutBack(wh1: Warehouse, id: string, w': Worker)
    requires id in wh1.workers
    ensures var r := wh1.(workers := wh1.workers[id := w']);
      r.(workers := r.workers[id := wh1.workers[id]]) == wh1
  {
    assert wh1.workers[id := w'][id := wh1.workers[id]] == wh1.workers;
  }

  /** The request `rid` with its fascia state set to its load order, as
      both approvals do first. */
  function Rearranged(wh: Warehouse, rid: int): (r: Warehouse)
    requires rid in wh.requests
    ensures r.requests == wh.requests[rid := Rearrange(wh.requests[rid])]
    ensures r.requests[rid].fasciaState == wh.requests[rid].loadingOrder
  {
    wh.(requests := wh.requests[rid := Rearrange(wh.requests[rid])])
  }

  /** The sequencer's `sendNextRequest` ("approves"): the request's fascia
      state becomes exactly its load order, the request goes to loading,
      and the sequencer is released with its results nulled. No check needs
      to have passed. Without a request nothing changes. */
  function SequencerApprove(wh: Warehouse, id: string): (r: Result<Warehouse>)
    requires Acting(wh, id, Sequencer)
    ensures r.Success? ==> TablesKept(wh, r.value)
    ensures r.Success? ==> r.value.workers.Keys == wh.workers.Keys && r.value.requests.Keys == wh.requests.Keys
    ensures r.Success? ==> IdsMatch(r.value)
    ensures wh.workers[id].request.None? ==> r == Success(wh)
    ensures r.Success? && wh.workers[id].request.Some? ==>
      var rid := wh.workers[id].request.value;
      && rid in wh.requests
      && r.value.requests[rid].fasciaState == wh.requests[rid].loadingOrder
      && Idle(r.value.workers[id])
      && Some(false) !in r.value.workers[id].valid
    ensures (wh.workers[id].request.Some? && wh.workers[id].request.value in wh.requests &&
      |wh.pool.loaders| == 0) ==>
      && r.Success?
      && r.value.loading == PQ.Insert(wh.loading, wh.workers[id].request.value)
    ensures r.Success? && wh.workers[id].request.Some? ==>
      var rid := wh.workers[id].request.value;
      rid in wh.requests &&
      Frame(Rearranged(wh, rid).(loading := PQ.Insert(wh.loading, rid)),
            r.value.(workers := r.value.workers[id := wh.workers[id]]), Loader)
  {
    var w := wh.workers[id];
    match w.request
    case None => Success(wh)
    case Some(rid) =>
      if rid !in wh.requests then Failure(Dangling)
      else
        match SendToLoading(Rearranged(wh, rid), rid)
        case Failure(f) => Failure(f)
        case Success(wh1) =>
          var w' := Release(w);
          assert wh1.workers[id] == w;
          PutBack(wh1, id, w');
          Success(wh1.(workers := wh1.workers[id := w']))
  }

  /** The loader's `sendNextRequest` ("approves"): the request's fascia
      state becomes exactly its load order, `completeRequest` pops the load
      order and logs the request's orders, and the loader is released with
      its results nulled. Without a request nothing changes. */
  function LoaderApprove(wh: Warehouse, id: string): (r: Result<Warehouse>)
    requires Acting(wh, id, Loader)
    ensures r.Success? ==> TablesKept(wh, r.value)
    ensures r.Success? ==> r.value.workers.Keys == wh.workers.Keys && r.value.requests.Keys == wh.requests.Keys
    ensures r.Success? ==> IdsMatch(r.value)
    ensures wh.workers[id].request.None? ==> r == Success(wh)
    ensures wh.workers[id].request.Some? && |wh.loadOrder| == 0 ==> r.Failure?
    ensures r.Success? && wh.workers[id].request.Some? ==>
      var rid := wh.workers[id].request.value;
      && rid in wh.requests
      && r.value.requests[rid].fasciaState == wh.requests[rid].loadingOrder
      && wh.loadOrder == [wh.loadOrder[0]] + r.value.loadOrder
      && r.value.ordersLog == wh.ordersLog + OrdersText(wh.requests[rid].orders)
      && Idle(r.value.workers[id])
      && r.value.workers == wh.workers[id := r.value.workers[id]]
      && r.value.requests == wh.requests[rid := r.value.requests[rid]]
      && r.value == wh.(requests := r.value.requests, loadOrder := r.value.loadOrder,
                        ordersLog := r.value.ordersLog, workers := r.value.workers)
  {
    var w := wh.workers[id];
    match w.request
    case None => Success(wh)
    case Some(rid) =>
      if rid !in wh.requests then Failure(Dangling)
      else
        match CompleteRequest(Rearranged(wh, rid), rid)
        case Failure(f) => Failure(f)
        case Success(wh1) =>
          var w' := Release(w);
          Success(wh1.(workers := wh1.workers[id := w']))
  }

  /** `replenish`: with no location assigned nothing changes and the
      worker stays busy or idle as it was. Otherwise the location's SKU is
      refilled by 25 if it is at 5 or below, and the worker is released
      either way. */
  function ReplenishAction(wh: Warehouse, id: string): (r: Result<Warehouse>)
    requires Acting(wh, id, Replenisher)
    ensures r.Success? ==> TablesKept(wh, r.value)
    ensures r.Success? ==> r.value.workers.Keys == wh.workers.Keys && r.value.requests.Keys == wh.requests.Keys
    ensures r.Success? ==> IdsMatch(r.value)
    ensures wh.workers[id].location == "" ==> r == Success(wh)
    ensures wh.workers[id].location != "" ==>
      (r.Failure? <==> Inv.Replenish(wh.ledger, wh.workers[id].location).Failure?)
    ensures r.Success? && wh.workers[id].location != "" ==>
      && r.value.ledger == Inv.Replenish(wh.ledger, wh.workers[id].location).value.0
      && Idle(r.value.workers[id])
      && r.value == wh.(ledger := r.value.ledger, workers := r.value.workers)
  {
    var w := wh.workers[id];
    if w.location == "" then Success(wh)
    else
      match Inv.Replenish(wh.ledger, w.location)
      case Failure(f) => Failure(f)
      case Success((l, _)) => Success(wh.(ledger := l, workers := wh.workers[id := FinishTask(w)]))
  }
}
