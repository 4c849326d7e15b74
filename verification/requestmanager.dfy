/** `RequestManager` together with the state it shares with the other
    managers: the whole warehouse as one immutable record, and the
    scheduler's transitions over it. Every `send*` enqueues a request and
    then wakes at most one idle worker of the matching role; the woken
    worker's `requestTask` either claims a request or re-queues the worker,
    so the cascade stops there. */
module RequestManager {
  import opened Wrappers
  import opened JavaInt
  import opened Orders
  import opened Workers
  import opened WorkerPool
  import Inv = Inventory
  import OM = OrderManager
  import PQ = PriorityQueue

  /** The `ArrayBlockingQueue` of waiting orders. */
  type Buffer = b: seq<Order> | |b| <= OM.CAPACITY

  /** Everything the simulation changes. Requests are handled by id: the
      three request queues and the load order hold ids, and `requests`
      maps each id to the request object. `ordersLog` is the text appended
      to `orders.csv`. */
  datatype Warehouse = Warehouse(
    table: seq<string>,               // SKU column of the traversal table, for `optimize`
    fasciaMap: OM.FasciaMap,
    nextOrderId: Int32,               // `Order.nextId`
    nextRequestId: Int32,             // `PickingRequest.nextId`
    buffer: Buffer,
    ledger: Inv.Ledger,
    picking: PQ.Queue,                // `pickingQueue`
    loadOrder: seq<int>,              // `loadingOrder`
    sequencing: seq<int>,             // `sequencingQueue`
    loading: PQ.Queue,                // `loadingQueue`
    replenishQueue: seq<string>,
    pool: Pool,
    workers: map<string, Worker>,     // the simulator's directory
    requests: map<int, Request>,
    ordersLog: string)

  /** `wh'` differs from `wh` at most where waking an idle worker of `role`
      can reach: the request queue that role takes from, that role's worker
      queue, and workers of that role. No worker is added or removed, and
      none changes identity or role. */
  predicate Frame(wh: Warehouse, wh': Warehouse, role: Role)
  {
    && wh'.workers.Keys == wh.workers.Keys
    && (forall id :: id in wh.workers ==>
          wh'.workers[id].role == wh.workers[id].role && wh'.workers[id].identity == wh.workers[id].identity)
    && (forall id :: id in wh.workers && wh.workers[id].role != role ==> wh'.workers[id] == wh.workers[id])
    && (forall other: Role :: other != role ==> QueueOf(wh'.pool, other) == QueueOf(wh.pool, other))
    && wh'.requests == wh.requests && wh'.ledger == wh.ledger && wh'.loadOrder == wh.loadOrder
    && wh'.ordersLog == wh.ordersLog && wh'.table == wh.table && wh'.fasciaMap == wh.fasciaMap
    && wh'.nextOrderId == wh.nextOrderId && wh'.nextRequestId == wh.nextRequestId
    && wh'.buffer == wh.buffer
    && (role != Picker ==> wh'.picking == wh.picking)
    && (role != Sequencer ==> wh'.sequencing == wh.sequencing)
    && (role != Loader ==> wh'.loading == wh.loading)
    && (role != Replenisher ==> wh'.replenishQueue == wh.replenishQueue)
  }

  /** The ledger's location and SKU tables, and the set of stocked SKUs,
      are as they were: after construction nothing adds or removes a
      location or a SKU. */
  predicate TablesKept(wh: Warehouse, wh': Warehouse)
  {
    && wh'.ledger.skus == wh.ledger.skus
    && wh'.ledger.locations == wh.ledger.locations
    && wh'.ledger.stock.Keys == wh.ledger.stock.Keys
  }

  /** Every directory entry is filed under its worker's own id. */
  predicate IdsMatch(wh: Warehouse)
  {
    forall id :: id in wh.workers ==> wh.workers[id].identity == id
  }

  lemma FrameKeepsIds(wh: Warehouse, wh': Warehouse, role: Role)
    requires IdsMatch(wh) && Frame(wh, wh', role)
    ensures IdsMatch(wh')
  {
  }

  lemma FrameTrans(a: Warehouse, b: Warehouse, c: Warehouse, role: Role)
    requires Frame(a, b, role) && Frame(b, c, role)
    ensures Frame(a, c, role)
  {
  }

  /** `getPickingRequest`: the lowest id in the picking queue, removed; None
      when the queue is empty. */
  function GetPickingRequest(wh: Warehouse): (r: (Option<int>, Warehouse))
    ensures |wh.picking| == 0 ==> r == (None, wh)
    ensures |wh.picking| > 0 ==>
      && r.0.Some? && r.0.value in wh.picking
      && (forall x :: x in wh.picking ==> r.0.value <= x)
      && multiset(r.1.picking) + multiset{r.0.value} == multiset(wh.picking)
      && r.1 == wh.(picking := r.1.picking)
  {
    if |wh.picking| == 0 then (None, wh)
    else
      PQ.HeadIsMinimum(wh.picking);
      assert wh.picking == [wh.picking[0]] + wh.picking[1..];
      (Some(wh.picking[0]), wh.(picking := wh.picking[1..]))
  }

  /** `getSequencingRequest`: the earliest queued id, removed. */
  function GetSequencingRequest(wh: Warehouse): (r: (Option<int>, Warehouse))
    ensures |wh.sequencing| == 0 ==> r == (None, wh)
    ensures |wh.sequencing| > 0 ==>
      && r.0.Some? && wh.sequencing == [r.0.value] + r.1.sequencing
      && r.1 == wh.(sequencing := r.1.sequencing)
  {
    if |wh.sequencing| == 0 then (None, wh)
    else (Some(wh.sequencing[0]), wh.(sequencing := wh.sequencing[1..]))
  }

  /** `getReplenishingRequest`: the earliest queued location, removed. */
  function GetReplenishingRequest(wh: Warehouse): (r: (Option<string>, Warehouse))
    ensures |wh.replenishQueue| == 0 ==> r == (None, wh)
    ensures |wh.replenishQueue| > 0 ==>
      && r.0.Some? && wh.replenishQueue == [r.0.value] + r.1.replenishQueue
      && r.1 == wh.(replenishQueue := r.1.replenishQueue)
  {
    if |wh.replenishQueue| == 0 then (None, wh)
    else (Some(wh.replenishQueue[0]), wh.(replenishQueue := wh.replenishQueue[1..]))
  }

  /** `readyToLoad`: the request next in the load order is the lowest id
      waiting to be loaded. False on an empty load order; with a non-empty
      load order and an empty loading queue the head of the loading queue
      is null and `equals` on it throws. */
  function ReadyToLoad(wh: Warehouse): (r: Result<bool>)
    ensures |wh.loadOrder| == 0 ==> r == Success(false)
    ensures r.Failure? <==> |wh.loadOrder| > 0 && |wh.loading| == 0
    ensures r.Success? ==>
      (r.value <==> |wh.loadOrder| > 0 && |wh.loading| > 0 && wh.loadOrder[0] == wh.loading[0])
  {
    if |wh.loadOrder| == 0 then Success(false)
    else if |wh.loading| == 0 then Failure(NullPointer)
    else Success(wh.loading[0] == wh.loadOrder[0])
  }

  /** `getLoadingRequest`: the loading queue is polled only when
      `readyToLoad` holds, and then it yields the head of the load order;
      otherwise nothing changes. */
  function GetLoadingRequest(wh: Warehouse): (r: Result<(Option<int>, Warehouse)>)
    ensures r.Failure? <==> ReadyToLoad(wh).Failure?
    ensures r.Success? ==> (r.value.0.Some? <==> ReadyToLoad(wh).value)
    ensures r.Success? && r.value.0.None? ==> r.value.1 == wh
    ensures r.Success? && r.value.0.Some? ==>
      && r.value.0.value == wh.loadOrder[0]
      && wh.loading == [r.value.0.value] + r.value.1.loading
      && r.value.1 == wh.(loading := r.value.1.loading)
  {
    match ReadyToLoad(wh)
    case Failure(f) => Failure(f)
    case Success(ready) =>
      if ready then Success((Some(wh.loading[0]), wh.(loading := wh.loading[1..])))
      else Success((None, wh))
  }

  /** `queueWorker`: the worker goes to the back of its role's queue. */
  function QueueWorker(wh: Warehouse, w: Worker): (r: Warehouse)
    ensures QueueOf(r.pool, w.role) == QueueOf(wh.pool, w.role) + [w.identity]
    ensures r == wh.(pool := r.pool)
    ensures Frame(wh, r, w.role)
  {
    wh.(pool := Enqueue(wh.pool, Some(w.role), w.identity))
  }

  /** The worker `w` after `currReq = getRequest()` and, on a non-null
      request, `isAvail = false` and `process()`: a picker captures the
      request's picking order. The expected and given lists of a checker
      are the request's own lists and need no copy. */
  function Claim(wh: Warehouse, w: Worker, rid: int): (r: Result<Worker>)
    requires w.role != Replenisher
    ensures r.Failure? <==> rid !in wh.requests
    ensures r.Success? ==>
      && r.value.request == Some(rid) && !r.value.available
      && (w.role == Picker ==> r.value.path == wh.requests[rid].pickingOrder)
      && r.value.identity == w.identity && r.value.role == w.role
      && r.value.cursor == w.cursor && r.value.valid == w.valid && r.value.location == w.location
  {
    if rid !in wh.requests then Failure(Dangling)
    else if w.role == Picker then Success(w.(request := Some(rid), available := false, path := wh.requests[rid].pickingOrder))
    else Success(w.(request := Some(rid), available := false))
  }

  /** The end of `requestTask` for a picker or checker that polled `got`:
      a request is claimed; null leaves the worker without a request and
      re-queues it. */
  function Settle(wh: Warehouse, w: Worker, got: Option<int>): (r: Result<Warehouse>)
    requires w.role != Replenisher && w.identity in wh.workers && wh.workers[w.identity] == w
    ensures r.Success? ==> r.value.workers.Keys == wh.workers.Keys
    ensures got.None? ==> r.Success? && r.value.workers[w.identity] == w.(request := None)
    ensures got.None? ==> QueueOf(r.value.pool, w.role) == QueueOf(wh.pool, w.role) + [w.identity]
    ensures got.Some? ==> (r.Failure? <==> got.value !in wh.requests)
    ensures got.Some? && r.Success? ==>
      && r.value.workers[w.identity] == Claim(wh, w, got.value).value
      && r.value.pool == wh.pool
    ensures r.Success? ==> Frame(wh, r.value, w.role)
    ensures r.Success? ==> r.value == wh.(pool := r.value.pool, workers := r.value.workers)
  {
    match got
    case None =>
      var wh1 := wh.(workers := wh.workers[w.identity := w.(request := None)]);
      Success(QueueWorker(wh1, w))
    case Some(rid) =>
      match Claim(wh, w, rid)
      case Failure(f) => Failure(f)
      case Success(w') => Success(wh.(workers := wh.workers[w.identity := w']))
  }

  /** `Replenisher.requestTask`: the earliest queued location becomes the
      replenisher's task and it turns unavailable; with none queued it goes
      back to the replenisher queue. */
  function TakeLocation(wh: Warehouse, w: Worker): (r: Warehouse)
    requires w.role == Replenisher && w.identity in wh.workers && wh.workers[w.identity] == w
    ensures r.workers.Keys == wh.workers.Keys
    ensures Frame(wh, r, Replenisher)
    ensures forall other :: other in wh.workers && other != w.identity ==> r.workers[other] == wh.workers[other]
  {
    var (loc, wh1) := GetReplenishingRequest(wh);
    if loc.Some? then
      wh1.(workers := wh1.workers[w.identity := w.(location := loc.value, available := false)])
    else QueueWorker(wh1, w)
  }

  /** `requestTask` of the worker `id`: take the next unit of work of its
      role (a request id, or a location for a replenisher) or, when there
      is none, go back to the worker queue. */
  function RequestTask(wh: Warehouse, id: string): (r: Result<Warehouse>)
    requires id in wh.workers && wh.workers[id].identity == id
    ensures r.Success? ==> Frame(wh, r.value, wh.workers[id].role)
    ensures r.Success? ==> forall other :: other in wh.workers && other != id ==>
      r.value.workers[other] == wh.workers[other]
  {
    var w := wh.workers[id];
    match w.role
    case Replenisher => Success(TakeLocation(wh, w))
    case Picker =>
      var (rid, wh1) := GetPickingRequest(wh);
      Settle(wh1, w, rid)
    case Sequencer =>
      var (rid, wh1) := GetSequencingRequest(wh);
      Settle(wh1, w, rid)
    case Loader =>
      match GetLoadingRequest(wh)
      case Failure(f) => Failure(f)
      case Success((rid, wh1)) => Settle(wh1, w, rid)
  }

  /** `doNextTask`: only an available worker asks for work. */
  function DoNextTask(wh: Warehouse, id: string): (r: Result<Warehouse>)
    requires id in wh.workers && wh.workers[id].identity == id
    ensures !wh.workers[id].available ==> r == Success(wh)
    ensures r.Success? ==> Frame(wh, r.value, wh.workers[id].role)
    ensures r.Success? ==> forall other :: other in wh.workers && other != id ==>
      r.value.workers[other] == wh.workers[other]
  {
    if wh.workers[id].available then RequestTask(wh, id) else Success(wh)
  }

  /** `next<Role>()` followed by `doNextTask` on the worker it returns, if
      any. A queued id that names no worker of that role is a dangling
      handle. */
  function Wake(wh: Warehouse, role: Role): (r: Result<Warehouse>)
    requires IdsMatch(wh)
    ensures |QueueOf(wh.pool, role)| == 0 ==> r == Success(wh)
    ensures r.Success? ==> Frame(wh, r.value, role)
  {
    var (next, pool) := Next(wh.pool, role);
    match next
    case None => Success(wh)
    case Some(id) =>
      var wh1 := wh.(pool := pool);
      if id !in wh1.workers || wh1.workers[id].role != role then Failure(Dangling)
      else
        match DoNextTask(wh1, id)
        case Failure(f) => Failure(f)
        case Success(wh2) =>
          FrameTrans(wh, wh1, wh2, role);
          Success(wh2)
  }

  /** `sendToPicking`: the id joins the picking queue, then one idle picker
      is woken. With no idle picker the queue simply grows by the id. */
  function SendToPicking(wh: Warehouse, rid: int): (r: Result<Warehouse>)
    requires IdsMatch(wh)
    ensures |wh.pool.pickers| == 0 ==> r == Success(wh.(picking := PQ.Insert(wh.picking, rid)))
    ensures r.Success? ==> Frame(wh.(picking := PQ.Insert(wh.picking, rid)), r.value, Picker)
  {
    Wake(wh.(picking := PQ.Insert(wh.picking, rid)), Picker)
  }

  /** `sendToSequencing`: the id goes to the back of the sequencing FIFO,
      then one idle sequencer is woken. */
  function SendToSequencing(wh: Warehouse, rid: int): (r: Result<Warehouse>)
    requires IdsMatch(wh)
    ensures |wh.pool.sequencers| == 0 ==> r == Success(wh.(sequencing := wh.sequencing + [rid]))
    ensures r.Success? ==> Frame(wh.(sequencing := wh.sequencing + [rid]), r.value, Sequencer)
  {
    Wake(wh.(sequencing := wh.sequencing + [rid]), Sequencer)
  }

  /** `sendToLoading`: the id joins the loading queue, then one idle loader
      is woken; it takes the request only if `readyToLoad` holds. */
  function SendToLoading(wh: Warehouse, rid: int): (r: Result<Warehouse>)
    requires IdsMatch(wh)
    ensures |wh.pool.loaders| == 0 ==> r == Success(wh.(loading := PQ.Insert(wh.loading, rid)))
    ensures r.Success? ==> Frame(wh.(loading := PQ.Insert(wh.loading, rid)), r.value, Loader)
  {
    Wake(wh.(loading := PQ.Insert(wh.loading, rid)), Loader)
  }

  /** `sendToReplenish`: the location goes to the back of the replenish
      FIFO, then one idle replenisher is woken. */
  function SendToReplenish(wh: Warehouse, loc: string): (r: Result<Warehouse>)
    requires IdsMatch(wh)
    ensures |wh.pool.replenishers| == 0 ==> r == Success(wh.(replenishQueue := wh.replenishQueue + [loc]))
    ensures r.Success? ==> Frame(wh.(replenishQueue := wh.replenishQueue + [loc]), r.value, Replenisher)
  {
    Wake(wh.(replenishQueue := wh.replenishQueue + [loc]), Replenisher)
  }

  /** `addRequest` for a newly built request: it is stored, appended to the
      load order, and sent to picking. */
  function AddRequest(wh: Warehouse, req: Request): (r: Result<Warehouse>)
    requires IdsMatch(wh)
    ensures r.Success? ==> Frame(wh.(requests := wh.requests[req.id := req],
                                     loadOrder := wh.loadOrder + [req.id],
                                     picking := PQ.Insert(wh.picking, req.id)), r.value, Picker)
    ensures r.Success? ==> r.value.loadOrder == wh.loadOrder + [req.id]
    ensures r.Success? ==> r.value.requests == wh.requests[req.id := req]
    ensures |wh.pool.pickers| == 0 ==> r.Success? && r.value.picking == PQ.Insert(wh.picking, req.id)
  {
    var wh1 := wh.(requests := wh.requests[req.id := req], loadOrder := wh.loadOrder + [req.id]);
    SendToPicking(wh1, req.id)
  }

  /** The strings of `parts`, one after another. */
  function Concat(parts: seq<string>): string
    decreases |parts|
  {
    if |parts| == 0 then "" else Concat(parts[..|parts| - 1]) + parts[|parts| - 1]
  }

  lemma {:induction false} ConcatAppend(a: seq<string>, b: seq<string>)
    ensures Concat(a + b) == Concat(a) + Concat(b)
    decreases |b|
  {
    if |b| == 0 {
      assert a + b == a;
    } else {
      ConcatAppend(a, b[..|b| - 1]);
      assert (a + b)[..|a + b| - 1] == a + b[..|b| - 1];
    }
  }

  /** What `completeRequest` writes for a request's orders: each order's
      `toString`, in order, with nothing between them. */
  function OrdersText(orders: seq<Order>): string
  {
    Concat(seq(|orders|, i requires 0 <= i < |orders| => OrderToString(orders[i])))
  }

  /** The text for a group is the text for its first part followed by the
      text for the rest. */
  lemma OrdersTextAppend(a: seq<Order>, b: seq<Order>)
    ensures OrdersText(a + b) == OrdersText(a) + OrdersText(b)
  {
    var sa := seq(|a|, i requires 0 <= i < |a| => OrderToString(a[i]));
    var sb := seq(|b|, i requires 0 <= i < |b| => OrderToString(b[i]));
    assert seq(|a + b|, i requires 0 <= i < |a + b| => OrderToString((a + b)[i])) == sa + sb;
    ConcatAppend(sa, sb);
  }

  /** `completeRequest(req)`: the head of the load order is popped whether
      or not it is `req` (a mismatch is only logged), and the text of
      `req`'s orders is appended to the log. An empty load order throws
      when the mismatch message reads the null head's id. */
  function CompleteRequest(wh: Warehouse, rid: int): (r: Result<Warehouse>)
    ensures |wh.loadOrder| == 0 ==> r == Failure(NullPointer)
    ensures |wh.loadOrder| > 0 ==> (r.Success? <==> rid in wh.requests)
    ensures r.Success? ==>
      && wh.loadOrder == [wh.loadOrder[0]] + r.value.loadOrder
      && r.value.ordersLog == wh.ordersLog + OrdersText(wh.requests[rid].orders)
      && r.value == wh.(loadOrder := r.value.loadOrder, ordersLog := r.value.ordersLog)
  {
    if |wh.loadOrder| == 0 then Failure(NullPointer)
    else if rid !in wh.requests then Failure(Dangling)
    else Success(wh.(loadOrder := wh.loadOrder[1..], ordersLog := wh.ordersLog + OrdersText(wh.requests[rid].orders)))
  }

  /** `im.decrement(sku)` with its follow-up: when the count drops to 5 or
      below, the SKU's location is sent to replenishing. */
  function DecrementStock(wh: Warehouse, sku: string): (r: Result<Warehouse>)
    requires IdsMatch(wh)
    ensures r.Success? ==> TablesKept(wh, r.value)
    ensures sku !in wh.ledger.stock ==> r.Failure?
    ensures r.Success? ==>
      && sku in wh.ledger.stock
      && r.value.ledger.stock == wh.ledger.stock[sku := wh.ledger.stock[sku] - 1]
      && (wh.ledger.stock[sku] - 1 > Inv.LOW_STOCK ==> r.value == wh.(ledger := r.value.ledger))
      && (wh.ledger.stock[sku] - 1 <= Inv.LOW_STOCK ==>
            Frame(wh.(ledger := r.value.ledger,
                      replenishQueue := wh.replenishQueue + [wh.ledger.locations[sku]]), r.value, Replenisher))
    ensures (r.Success? && sku in wh.ledger.stock && wh.ledger.stock[sku] - 1 <= Inv.LOW_STOCK &&
             |wh.pool.replenishers| == 0) ==> r.value.replenishQueue == wh.replenishQueue + [wh.ledger.locations[sku]]
  {
    match Inv.Decrement(wh.ledger, sku)
    case Failure(f) => Failure(f)
    case Success((l, trigger)) =>
      var wh1 := wh.(ledger := l);
      if trigger.Some? then SendToReplenish(wh1, trigger.value) else Success(wh1)
  }

  /** An idle picker with nothing in the picking queue keeps no request and
      goes to the back of the picker queue; with a request queued it takes
      the lowest id, becomes unavailable, and copies that request's
      picking order. */
  lemma PickerRequestTask(wh: Warehouse, id: string)
    requires IdsMatch(wh) && id in wh.workers
    requires wh.workers[id].role == Picker && wh.workers[id].available
    requires |wh.picking| > 0 ==> wh.picking[0] in wh.requests
    ensures DoNextTask(wh, id).Success?
    ensures var wh' := DoNextTask(wh, id).value;
      var w' := wh'.workers[id];
      && (|wh.picking| == 0 ==>
            && w' == wh.workers[id].(request := None)
            && QueueOf(wh'.pool, Picker) == QueueOf(wh.pool, Picker) + [id]
            && wh'.picking == wh.picking)
      && (|wh.picking| > 0 ==>
            && w'.request == Some(wh.picking[0]) && !w'.available
            && (forall x :: x in wh.picking ==> w'.request.value <= x)
            && w'.path == wh.requests[wh.picking[0]].pickingOrder
            && wh'.pool == wh.pool
            && wh'.picking == wh.picking[1..])
  {
    if |wh.picking| > 0 {
      PQ.HeadIsMinimum(wh.picking);
    }
  }

  /** An idle sequencer takes the earliest request of the sequencing FIFO,
      or is re-queued when there is none. */
  lemma SequencerRequestTask(wh: Warehouse, id: string)
    requires IdsMatch(wh) && id in wh.workers
    requires wh.workers[id].role == Sequencer && wh.workers[id].available
    requires |wh.sequencing| > 0 ==> wh.sequencing[0] in wh.requests
    ensures DoNextTask(wh, id).Success?
    ensures var wh' := DoNextTask(wh, id).value;
      var w' := wh'.workers[id];
      && (|wh.sequencing| == 0 ==>
            && w' == wh.workers[id].(request := None)
            && QueueOf(wh'.pool, Sequencer) == QueueOf(wh.pool, Sequencer) + [id])
      && (|wh.sequencing| > 0 ==>
            && w'.request == Some(wh.sequencing[0]) && !w'.available
            && wh'.pool == wh.pool
            && wh'.sequencing == wh.sequencing[1..])
  {
  }

  /** An idle loader takes a request only when it is the head of the load
      order and the lowest id in the loading queue; otherwise it is
      re-queued and the loading queue is left alone. */
  lemma LoaderRequestTask(wh: Warehouse, id: string)
    requires IdsMatch(wh) && id in wh.workers
    requires wh.workers[id].role == Loader && wh.workers[id].available
    requires |wh.loadOrder| > 0 ==> |wh.loading| > 0
    requires |wh.loadOrder| > 0 && |wh.loading| > 0 && wh.loadOrder[0] == wh.loading[0] ==>
      wh.loadOrder[0] in wh.requests
    ensures DoNextTask(wh, id).Success?
    ensures var wh' := DoNextTask(wh, id).value;
      var w' := wh'.workers[id];
      var ready := |wh.loadOrder| > 0 && wh.loadOrder[0] == wh.loading[0];
      && (!ready ==>
            && w' == wh.workers[id].(request := None)
            && QueueOf(wh'.pool, Loader) == QueueOf(wh.pool, Loader) + [id]
            && wh'.loading == wh.loading)
      && (ready ==>
            && w'.request == Some(wh.loadOrder[0]) && !w'.available
            && wh'.pool == wh.pool
            && wh'.loading == wh.loading[1..])
  {
  }

  /** An idle replenisher takes the earliest queued location, or keeps the
      empty location and is re-queued. */
  lemma ReplenisherRequestTask(wh: Warehouse, id: string)
    requires IdsMatch(wh) && id in wh.workers
    requires wh.workers[id].role == Replenisher && wh.workers[id].available
    ensures DoNextTask(wh, id).Success?
    ensures var wh' := DoNextTask(wh, id).value;
      var w' := wh'.workers[id];
      && (|wh.replenishQueue| == 0 ==>
            && w' == wh.workers[id]
            && QueueOf(wh'.pool, Replenisher) == QueueOf(wh.pool, Replenisher) + [id])
      && (|wh.replenishQueue| > 0 ==>
            && w'.location == wh.replenishQueue[0] && !w'.available
            && w'.request == wh.workers[id].request
            && wh'.pool == wh.pool
            && wh'.replenishQueue == wh.replenishQueue[1..])
  {
  }

  /** With an idle picker at the head of the picker queue, a request sent
      to picking is claimed at once: the picker takes the lowest id of the
      queue plus the new one, and the queue keeps its size. */
  lemma IdlePickerClaimsAtOnce(wh: Warehouse, rid: int)
    requires IdsMatch(wh) && |wh.pool.pickers| > 0
    requires wh.pool.pickers[0] in wh.workers
    requires wh.workers[wh.pool.pickers[0]].role == Picker && wh.workers[wh.pool.pickers[0]].available
    requires rid in wh.requests && forall x :: x in wh.picking ==> x in wh.requests
    ensures SendToPicking(wh, rid).Success?
    ensures var wh' := SendToPicking(wh, rid).value;
      var w' := wh'.workers[wh.pool.pickers[0]];
      && |wh'.picking| == |wh.picking|
      && w'.request.Some? && !w'.available
      && multiset(wh'.picking) + multiset{w'.request.value} == multiset(wh.picking) + multiset{rid}
      && (forall x :: x in wh'.picking ==> w'.request.value <= x)
  {
    var h := wh.pool.pickers[0];
    var q := PQ.Insert(wh.picking, rid);
    var wh1 := wh.(picking := q);
    var (next, pool) := Next(wh1.pool, Picker);
    var wh2 := wh1.(pool := pool);
    assert q[0] in q;
    assert q[0] in wh.requests;
    PickerRequestTask(wh2, h);
  }

  /** A loader woken for a request that is not next in the load order
      takes nothing: the request waits in the loading queue and the loader
      goes back to the loader queue. */
  lemma LoaderWaitsForLoadOrder(wh: Warehouse, rid: int)
    requires IdsMatch(wh) && |wh.pool.loaders| > 0
    requires wh.pool.loaders[0] in wh.workers
    requires wh.workers[wh.pool.loaders[0]].role == Loader && wh.workers[wh.pool.loaders[0]].available
    requires |wh.loadOrder| > 0 && wh.loadOrder[0] != PQ.Insert(wh.loading, rid)[0]
    ensures SendToLoading(wh, rid).Success?
    ensures var wh' := SendToLoading(wh, rid).value;
      var h := wh.pool.loaders[0];
      && wh'.loading == PQ.Insert(wh.loading, rid)
      && wh'.workers[h] == wh.workers[h].(request := None)
      && QueueOf(wh'.pool, Loader) == wh.pool.loaders[1..] + [h]
  {
    var q := PQ.Insert(wh.loading, rid);
    var wh1 := wh.(loading := q);
    var (next, pool) := Next(wh1.pool, Loader);
    var wh2 := wh1.(pool := pool);
    LoaderRequestTask(wh2, wh.pool.loaders[0]);
  }
}
