/** `Order` and `PickingRequest`. Both classes number their instances from a
    class-wide counter; here each counter is an explicit value that the
    constructor receives and returns incremented. */
module Orders {
  import opened JavaInt
  import opened Text
  import opened Wrappers
  import WarehousePicking

  /** One customer order for a front and a rear fascia. */
  datatype Order = Order(id: Int32, colour: string, model: string)

  /** `new Order(colour, model)` with the counter at `nextId`: the order and
      the counter's next value. */
  function NewOrder(nextId: Int32, colour: string, model: string): (Order, Int32)
  {
    (Order(nextId, colour, model), Inc(nextId))
  }

  /** `Order.setNextId(val)`: the counter's new value. */
  function SetNextId(val: Int32): Int32
  {
    val
  }

  /** Orders created one after another, from the counter at `nextId`. */
  function NewOrders(nextId: Int32, specs: seq<(string, string)>): (r: (seq<Order>, Int32))
    ensures |r.0| == |specs|
    ensures forall i :: 0 <= i < |specs| ==> r.0[i].colour == specs[i].0 && r.0[i].model == specs[i].1
    ensures |specs| > 0 ==> r.0[0].id == nextId
    ensures forall i :: 0 <= i < |specs| - 1 ==> r.0[i + 1].id == Inc(r.0[i].id)
    ensures r.1 == if |specs| == 0 then nextId else Inc(r.0[|specs| - 1].id)
    decreases |specs|
  {
    if |specs| == 0 then ([], nextId)
    else
      var (o, next) := NewOrder(nextId, specs[0].0, specs[0].1);
      var (os, last) := NewOrders(next, specs[1..]);
      ([o] + os, last)
  }

  /** Consecutive orders get consecutive ids, so ids strictly increase (as
      long as the counter does not pass the top of the `int` range); each
      order keeps its colour and model as given. After `setNextId(1)` the
      first order is order 1. */
  lemma {:induction false} OrderIdsConsecutive(nextId: Int32, specs: seq<(string, string)>)
    requires nextId + |specs| <= MAX_INT
    ensures NewOrders(nextId, specs).1 == nextId + |specs|
    ensures forall i :: 0 <= i < |specs| ==>
      NewOrders(nextId, specs).0[i] == Order(nextId + i, specs[i].0, specs[i].1)
    ensures forall i, j :: 0 <= i < j < |specs| ==>
      NewOrders(nextId, specs).0[i].id < NewOrders(nextId, specs).0[j].id
  {
    forall i | 0 <= i < |specs|
      ensures NewOrders(nextId, specs).0[i].id == nextId + i
    {
      IdAt(nextId, specs, i);
    }
  }

  /** The `i`-th order created takes id `nextId + i` while the counter stays
      inside the `int` range. */
  lemma {:induction false} IdAt(nextId: Int32, specs: seq<(string, string)>, i: nat)
    requires nextId + |specs| <= MAX_INT
    requires i < |specs|
    ensures NewOrders(nextId, specs).0[i].id == nextId + i
    decreases i
  {
    if i > 0 {
      IdAt(nextId, specs, i - 1);
    }
  }

  /** After `setNextId(1)` the orders created are numbered 1, 2, 3, ... */
  lemma ResetThenOrders(specs: seq<(string, string)>)
    requires |specs| < MAX_INT
    ensures forall i :: 0 <= i < |specs| ==> NewOrders(SetNextId(1), specs).0[i].id == i + 1
    ensures NewOrders(SetNextId(1), specs).1 == |specs| + 1
  {
    OrderIdsConsecutive(SetNextId(1), specs);
  }

  /** `Order.toString`: `Order #<id>: <colour>, <model>`. */
  function OrderToString(o: Order): string
  {
    "Order #" + IntToString(o.id) + ": " + o.colour + ", " + o.model
  }

  /** For a colour and a model without spaces, the text of `toString`
      splits on spaces into exactly `Order`, `#<id>:`, `<colour>,` and
      `<model>`: the fields and both separators are where the format puts
      them. */
  lemma OrderToStringFields(o: Order)
    requires ' ' !in o.colour && ' ' !in o.model
    ensures Split(OrderToString(o), ' ') == ["Order", "#" + IntToString(o.id) + ":", o.colour + ",", o.model]
  {
    var d := IntToString(o.id);
    var ws := ["Order", "#" + d + ":", o.colour + ",", o.model];
    assert ' ' !in ws[1] by {
      assert forall k :: 0 <= k < |d| ==> ws[1][k + 1] == d[k];
    }
    assert ' ' !in ws[2] by {
      assert forall k :: 0 <= k < |o.colour| ==> ws[2][k] == o.colour[k];
    }
    assert Join(ws, [' ']) == OrderToString(o) by {
      assert Join(ws[3..], [' ']) == o.model;
      assert Join(ws[2..], [' ']) == o.colour + "," + " " + o.model;
      assert Join(ws[1..], [' ']) == "#" + d + ":" + " " + (o.colour + "," + " " + o.model);
    }
    SplitJoin(ws, ' ');
  }

  /** The text of `toString` starts with the id and ends with colour and
      model; it emits no line separator of its own. */
  lemma OrderToStringShape(o: Order)
    ensures OrderToString(o)[..7] == "Order #"
    ensures OrderToString(o)[7..7 + |IntToString(o.id)|] == IntToString(o.id)
    ensures OrderToString(o)[|OrderToString(o)| - |o.model|..] == o.model
    ensures ('\n' !in o.colour && '\n' !in o.model) ==> '\n' !in OrderToString(o)
  {
    var s := OrderToString(o);
    var d := IntToString(o.id);
    assert s == "Order #" + d + ": " + o.colour + ", " + o.model;
    assert s[7..7 + |d|] == d;
    if '\n' !in o.colour && '\n' !in o.model {
      forall i | 0 <= i < |s|
        ensures s[i] != '\n'
      {
        if i < 7 {
        } else if i < 7 + |d| {
          assert s[i] == d[i - 7];
        } else if i < 9 + |d| {
        } else if i < 9 + |d| + |o.colour| {
          assert s[i] == o.colour[i - 9 - |d|];
        } else if i < 11 + |d| + |o.colour| {
        } else {
          assert s[i] == o.model[i - 11 - |d| - |o.colour|];
        }
      }
    }
  }

  /** A picking request: four orders, the eight SKUs in loading order, the
      same SKUs in picking order, and the SKUs its current holder has
      handled so far. */
  datatype Request = Request(
    id: Int32,
    orders: seq<Order>,
    loadingOrder: seq<string>,
    pickingOrder: seq<string>,
    fasciaState: seq<string>)

  /** `new PickingRequest(orderGroup, loadingOrder)` with the counter at
      `nextId`; `table` is the traversal table the optimizer reads. */
  function NewRequest(nextId: Int32, orders: seq<Order>, loadingOrder: seq<string>, table: seq<string>)
    : (r: (Request, Int32))
    ensures r.0.id == nextId && r.1 == Inc(nextId)
    ensures r.0.orders == orders && r.0.loadingOrder == loadingOrder
    ensures r.0.pickingOrder == WarehousePicking.Optimize(loadingOrder, table)
    ensures r.0.fasciaState == []
  {
    (Request(nextId, orders, loadingOrder, WarehousePicking.Optimize(loadingOrder, table), []), Inc(nextId))
  }

  /** `new PickingRequest(id)`: takes the id it is given and leaves the
      counter alone. Its order group and SKU lists are null in Java and
      empty here. */
  function BareRequest(id: Int32): (r: Request)
    ensures r.id == id && r.fasciaState == []
  {
    Request(id, [], [], [], [])
  }

  /** `updateFasciaState(sku)`: appends exactly `sku`, nothing else changes. */
  function UpdateFasciaState(r: Request, sku: string): (r': Request)
    ensures |r'.fasciaState| == |r.fasciaState| + 1
    ensures r'.fasciaState[..|r.fasciaState|] == r.fasciaState
    ensures r'.fasciaState[|r.fasciaState|] == sku
    ensures r'.id == r.id && r'.orders == r.orders
    ensures r'.loadingOrder == r.loadingOrder && r'.pickingOrder == r.pickingOrder
  {
    r.(fasciaState := r.fasciaState + [sku])
  }

  /** `clearFasciaState`: the state is empty, nothing else changes. */
  function ClearFasciaState(r: Request): (r': Request)
    ensures r'.fasciaState == []
    ensures r'.id == r.id && r'.orders == r.orders
    ensures r'.loadingOrder == r.loadingOrder && r'.pickingOrder == r.pickingOrder
  {
    r.(fasciaState := [])
  }

  /** `updateFasciaState` for each SKU of `skus` in turn. */
  function AppendAll(r: Request, skus: seq<string>): (r': Request)
    ensures r'.fasciaState == r.fasciaState + skus
    ensures r'.id == r.id && r'.orders == r.orders
    ensures r'.loadingOrder == r.loadingOrder && r'.pickingOrder == r.pickingOrder
    decreases |skus|
  {
    if |skus| == 0 then r
    else
      var r1 := AppendAll(r, skus[..|skus| - 1]);
      assert skus == skus[..|skus| - 1] + [skus[|skus| - 1]];
      UpdateFasciaState(r1, skus[|skus| - 1])
  }

  /** The approval step of Sequencer and Loader: clear the state, then add
      the loading order SKU by SKU. The state ends up exactly the loading
      order, whatever it held before. */
  function Rearrange(r: Request): (r': Request)
    ensures r'.fasciaState == r.loadingOrder
    ensures r'.id == r.id && r'.orders == r.orders
    ensures r'.loadingOrder == r.loadingOrder && r'.pickingOrder == r.pickingOrder
  {
    AppendAll(ClearFasciaState(r), r.loadingOrder)
  }

  /** `compareTo`: `Integer.compare` of the ids. */
  function CompareTo(a: Request, b: Request): (c: int)
    ensures c < 0 <==> a.id < b.id
    ensures c == 0 <==> a.id == b.id
    ensures c > 0 <==> a.id > b.id
  {
    CompareIsTotalOrder(a.id, b.id, b.id);
    Compare(a.id, b.id)
  }

  /** Each order id followed by ", ", as the loop of `getOrderString` builds it. */
  function IdsWithCommas(orders: seq<Order>): string
    decreases |orders|
  {
    if |orders| == 0 then "" else IntToString(orders[0].id) + ", " + IdsWithCommas(orders[1..])
  }

  function IdStrings(orders: seq<Order>): (r: seq<string>)
    ensures |r| == |orders|
    ensures forall i :: 0 <= i < |r| ==> r[i] == IntToString(orders[i].id)
  {
    seq(|orders|, i requires 0 <= i < |orders| => IntToString(orders[i].id))
  }

  /** `getOrderString`: the loop's text minus its last two characters. On an
      empty group that is `"".substring(0, -2)`, which throws. */
  function OrderString(r: Request): Result<string>
  {
    var s := IdsWithCommas(r.orders);
    if |s| < 2 then Failure(IndexOutOfBounds) else Success(s[..|s| - 2])
  }

  lemma {:induction false} IdsWithCommasJoin(orders: seq<Order>)
    requires |orders| > 0
    ensures |IdsWithCommas(orders)| >= 2
    ensures IdsWithCommas(orders)[..|IdsWithCommas(orders)| - 2] == Join(IdStrings(orders), ", ")
    decreases |orders|
  {
    var s := IdsWithCommas(orders);
    var a := IntToString(orders[0].id);
    var rest := IdsWithCommas(orders[1..]);
    assert s == a + ", " + rest;
    if |orders| == 1 {
      assert rest == "";
      assert IdStrings(orders) == [a];
    } else {
      IdsWithCommasJoin(orders[1..]);
      assert IdStrings(orders)[1..] == IdStrings(orders[1..]);
      assert s[..|s| - 2] == a + ", " + rest[..|rest| - 2];
    }
  }

  /** `getOrderString` is the order ids joined by ", ", and it throws
      exactly when the request holds no orders. */
  lemma OrderStringIsJoin(r: Request)
    ensures |r.orders| > 0 ==> OrderString(r) == Success(Join(IdStrings(r.orders), ", "))
    ensures |r.orders| == 0 ==> OrderString(r) == Failure(IndexOutOfBounds)
  {
    if |r.orders| > 0 {
      IdsWithCommasJoin(r.orders);
    }
  }
}
