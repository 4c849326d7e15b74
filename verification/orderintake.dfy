/** An order arriving at the warehouse: `OrderManager.enqueue` together
    with the request it creates and hands to `RequestManager.addRequest`
    when the buffer was full. */
module OrderIntake {
  import opened Wrappers
  import opened JavaInt
  import opened Orders
  import opened WorkerPool
  import opened RequestManager
  import OM = OrderManager
  import WarehousePicking
  import PQ = PriorityQueue

  /** `enqueue(order)`: a buffer with room takes the order; a full buffer
      is emptied into a new request (with the next request id, the batch's
      loading order and its optimised picking order), which is stored,
      added to the load order and sent to picking. */
  function SubmitOrder(wh: Warehouse, order: Order): (r: Result<Warehouse>)
    requires IdsMatch(wh)
    ensures r.Success? ==> TablesKept(wh, r.value)
    ensures |wh.buffer| < OM.CAPACITY ==> r == Success(wh.(buffer := wh.buffer + [order]))
    ensures r.Success? ==> IdsMatch(r.value) && r.value.nextOrderId == wh.nextOrderId
    ensures |wh.buffer| == OM.CAPACITY && OM.GenerateLoadingOrder(wh.fasciaMap, wh.buffer + [order]).Failure? ==>
      r.Failure?
    ensures (|wh.buffer| == OM.CAPACITY && |wh.pool.pickers| == 0 &&
      OM.GenerateLoadingOrder(wh.fasciaMap, wh.buffer + [order]).Success?) ==>
      r.Success? && r.value.picking == PQ.Insert(wh.picking, wh.nextRequestId)
    ensures |wh.buffer| == OM.CAPACITY && r.Success? ==>
      var id := wh.nextRequestId;
      id in r.value.requests &&
      var req := r.value.requests[id];
      && r.value.buffer == []
      && r.value.nextRequestId == Inc(id)
      && r.value.loadOrder == wh.loadOrder + [id]
      && r.value.requests == wh.requests[id := req]
      && req.id == id && req.orders == wh.buffer + [order] && req.fasciaState == []
      && Success(req.loadingOrder) == OM.GenerateLoadingOrder(wh.fasciaMap, wh.buffer + [order])
      && req.pickingOrder == WarehousePicking.Optimize(req.loadingOrder, wh.table)
  {
    match OM.Enqueue(wh.fasciaMap, wh.buffer, order)
    case Failure(f) => Failure(f)
    case Success((buffer, None)) => Success(wh.(buffer := buffer))
    case Success((_, Some(batch))) =>
      var (req, next) := NewRequest(wh.nextRequestId, batch.orders, batch.loadingOrder, wh.table);
      match AddRequest(wh.(nextRequestId := next), req)
      case Failure(f) => Failure(f)
      case Success(wh1) => Success(wh1.(buffer := []))
  }

  /** `Simulator.processOrder`: a valid (colour, model) pair becomes a new
      order with the next order id and is submitted; any other pair changes
      nothing, not even the order counter. */
  function ProcessOrder(wh: Warehouse, colour: string, model: string): (r: Result<Warehouse>)
    requires IdsMatch(wh)
    ensures r.Success? ==> TablesKept(wh, r.value)
    ensures !OM.ValidOrder(wh.fasciaMap, colour, model) ==> r == Success(wh)
    ensures OM.ValidOrder(wh.fasciaMap, colour, model) ==>
      r == SubmitOrder(wh.(nextOrderId := Inc(wh.nextOrderId)), Order(wh.nextOrderId, colour, model))
    ensures r.Success? ==> IdsMatch(r.value)
  {
    if OM.ValidOrder(wh.fasciaMap, colour, model) then
      var (order, next) := NewOrder(wh.nextOrderId, colour, model);
      SubmitOrder(wh.(nextOrderId := next), order)
    else Success(wh)
  }

  /** Four valid orders into an empty buffer, with no idle picker: the
      first three only wait; the fourth produces exactly one request, with
      the four orders in arrival order and consecutive order ids, which
      joins the end of the load order and the picking queue. */
  lemma FourOrdersOneRequest(wh: Warehouse, specs: seq<(string, string)>)
    requires IdsMatch(wh) && wh.buffer == [] && |wh.pool.pickers| == 0
    requires |specs| == 4
    requires forall i :: 0 <= i < 4 ==> OM.ValidOrder(wh.fasciaMap, specs[i].0, specs[i].1)
    ensures var r := ProcessOrders(wh, specs);
      var id := wh.nextRequestId;
      && r.Success?
      && r.value.buffer == []
      && id in r.value.requests
      && r.value.requests == wh.requests[id := r.value.requests[id]]
      && r.value.requests[id].orders == NewOrders(wh.nextOrderId, specs).0
      && r.value.loadOrder == wh.loadOrder + [id]
      && r.value.picking == PQ.Insert(wh.picking, id)
      && r.value.nextOrderId == NewOrders(wh.nextOrderId, specs).1
  {
    var n0 := wh.nextOrderId;
    var n1, n2, n3 := Inc(n0), Inc(Inc(n0)), Inc(Inc(Inc(n0)));
    var o0, o1, o2, o3 := Order(n0, specs[0].0, specs[0].1), Order(n1, specs[1].0, specs[1].1),
                          Order(n2, specs[2].0, specs[2].1), Order(n3, specs[3].0, specs[3].1);
    FourNewOrders(n0, specs);
    ThreeOrdersWait(wh, specs);
    var wh3 := wh.(nextOrderId := n3, buffer := [o0, o1, o2]);
    assert [o0, o1, o2] + [o3] == [o0, o1, o2, o3];
    FourOrdersLoad(wh.fasciaMap, n0, specs);
    FullBufferMakesRequest(wh3, specs[3].0, specs[3].1);
    LastOrder(wh3, specs[3..]);
    assert ProcessOrders(wh, specs) == ProcessOrder(wh3, specs[3].0, specs[3].1);
  }

  /** Four valid pairs give orders whose loading order exists. */
  lemma FourOrdersLoad(fm: OM.FasciaMap, n0: Int32, specs: seq<(string, string)>)
    requires |specs| == 4
    requires forall i :: 0 <= i < 4 ==> OM.ValidOrder(fm, specs[i].0, specs[i].1)
    ensures OM.GenerateLoadingOrder(fm, NewOrders(n0, specs).0).Success?
  {
    FourNewOrders(n0, specs);
    var os := NewOrders(n0, specs).0;
    assert forall i :: 0 <= i < 4 ==> os[i].colour == specs[i].0 && os[i].model == specs[i].1;
  }

  /** A single pair is processed by one `processOrder`. */
  lemma LastOrder(wh: Warehouse, specs: seq<(string, string)>)
    requires IdsMatch(wh) && |specs| == 1
    ensures ProcessOrders(wh, specs) == ProcessOrder(wh, specs[0].0, specs[0].1)
  {
    assert specs[1..] == [];
  }

  /** A valid order arriving at a full buffer, with no idle picker, turns
      the buffer and the order into one stored request that waits in the
      picking queue. */
  lemma FullBufferMakesRequest(wh: Warehouse, colour: string, model: string)
    requires IdsMatch(wh) && |wh.buffer| == OM.CAPACITY && |wh.pool.pickers| == 0
    requires OM.ValidOrder(wh.fasciaMap, colour, model)
    requires OM.GenerateLoadingOrder(wh.fasciaMap, wh.buffer + [Order(wh.nextOrderId, colour, model)]).Success?
    ensures var r := ProcessOrder(wh, colour, model);
      var id := wh.nextRequestId;
      && r.Success?
      && r.value.buffer == []
      && id in r.value.requests
      && r.value.requests == wh.requests[id := r.value.requests[id]]
      && r.value.requests[id].orders == wh.buffer + [Order(wh.nextOrderId, colour, model)]
      && r.value.loadOrder == wh.loadOrder + [id]
      && r.value.picking == PQ.Insert(wh.picking, id)
      && r.value.nextOrderId == Inc(wh.nextOrderId)
  {
  }

  /** The orders four pairs become, from the counter at `n0`. */
  lemma FourNewOrders(n0: Int32, specs: seq<(string, string)>)
    requires |specs| == 4
    ensures NewOrders(n0, specs) ==
      ([Order(n0, specs[0].0, specs[0].1), Order(Inc(n0), specs[1].0, specs[1].1),
        Order(Inc(Inc(n0)), specs[2].0, specs[2].1), Order(Inc(Inc(Inc(n0))), specs[3].0, specs[3].1)],
       Inc(Inc(Inc(Inc(n0)))))
  {
    var s1, s2, s3 := specs[1..], specs[2..], specs[3..];
    assert s1[1..] == s2 && s2[1..] == s3 && s3[1..] == [];
    assert s1[0] == specs[1] && s2[0] == specs[2] && s3[0] == specs[3];
    var n1, n2, n3 := Inc(n0), Inc(Inc(n0)), Inc(Inc(Inc(n0)));
    var o0, o1, o2, o3 := Order(n0, specs[0].0, specs[0].1), Order(n1, specs[1].0, specs[1].1),
                          Order(n2, specs[2].0, specs[2].1), Order(n3, specs[3].0, specs[3].1);
    assert NewOrders(Inc(n3), s3[1..]) == ([], Inc(n3));
    assert [o3] + [] == [o3];
    assert NewOrders(n3, s3) == ([o3], Inc(n3));
    assert [o2] + [o3] == [o2, o3];
    assert NewOrders(n2, s2) == ([o2, o3], Inc(n3));
    assert [o1] + [o2, o3] == [o1, o2, o3];
    assert NewOrders(n1, s1) == ([o1, o2, o3], Inc(n3));
    assert [o0] + [o1, o2, o3] == [o0, o1, o2, o3];
  }

  /** The first three of four valid orders only wait in the buffer, so the
      run comes down to the fourth order. */
  lemma ThreeOrdersWait(wh: Warehouse, specs: seq<(string, string)>)
    requires IdsMatch(wh) && wh.buffer == []
    requires |specs| == 4
    requires forall i :: 0 <= i < 3 ==> OM.ValidOrder(wh.fasciaMap, specs[i].0, specs[i].1)
    ensures var n0 := wh.nextOrderId;
      var wh3 := wh.(nextOrderId := Inc(Inc(Inc(n0))),
                     buffer := [Order(n0, specs[0].0, specs[0].1), Order(Inc(n0), specs[1].0, specs[1].1),
                                Order(Inc(Inc(n0)), specs[2].0, specs[2].1)]);
      IdsMatch(wh3) && ProcessOrders(wh, specs) == ProcessOrders(wh3, specs[3..])
  {
    var s1, s2, s3 := specs[1..], specs[2..], specs[3..];
    assert s1[1..] == s2 && s2[1..] == s3;
    assert s1[0] == specs[1] && s2[0] == specs[2];
    var n0 := wh.nextOrderId;
    var n1, n2, n3 := Inc(n0), Inc(Inc(n0)), Inc(Inc(Inc(n0)));
    var o0, o1, o2 := Order(n0, specs[0].0, specs[0].1), Order(n1, specs[1].0, specs[1].1),
                      Order(n2, specs[2].0, specs[2].1);
    var wh1 := wh.(nextOrderId := n1, buffer := [o0]);
    var wh2 := wh1.(nextOrderId := n2, buffer := [o0, o1]);
    QueueOrder(wh, specs[0].0, specs[0].1);
    assert [] + [o0] == [o0];
    QueueOrder(wh1, specs[1].0, specs[1].1);
    assert [o0] + [o1] == [o0, o1];
    QueueOrder(wh2, specs[2].0, specs[2].1);
    assert [o0, o1] + [o2] == [o0, o1, o2];
    assert ProcessOrders(wh2, s2) == ProcessOrders(wh2.(nextOrderId := n3, buffer := [o0, o1, o2]), s3);
    assert ProcessOrders(wh1, s1) == ProcessOrders(wh2, s2);
  }

  /** A valid order arriving at a buffer with room takes the next order id
      and waits in the buffer; nothing else changes. */
  lemma QueueOrder(wh: Warehouse, colour: string, model: string)
    requires IdsMatch(wh) && |wh.buffer| < OM.CAPACITY
    requires OM.ValidOrder(wh.fasciaMap, colour, model)
    ensures ProcessOrder(wh, colour, model) ==
      Success(wh.(nextOrderId := Inc(wh.nextOrderId),
                  buffer := wh.buffer + [Order(wh.nextOrderId, colour, model)]))
  {
    var whx := wh.(nextOrderId := Inc(wh.nextOrderId));
    assert SubmitOrder(whx, Order(wh.nextOrderId, colour, model)) ==
      Success(whx.(buffer := whx.buffer + [Order(wh.nextOrderId, colour, model)]));
  }

  /** `processOrder` for each pair in turn, stopping at the first failure. */
  function ProcessOrders(wh: Warehouse, specs: seq<(string, string)>): (r: Result<Warehouse>)
    requires IdsMatch(wh)
    ensures r.Success? ==> IdsMatch(r.value)
    decreases |specs|
  {
    if |specs| == 0 then Success(wh)
    else
      match ProcessOrder(wh, specs[0].0, specs[0].1)
      case Failure(f) => Failure(f)
      case Success(wh1) => ProcessOrders(wh1, specs[1..])
  }
}
