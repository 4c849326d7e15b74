/** `OrderManager`: the translation table from (colour, model) to the two
    fascia SKUs, the validity check, and the three-slot order buffer that
    turns every fourth order into a picking request. */
module OrderManager {
  import opened Wrappers
  import opened Orders

  /** Capacity of the `ArrayBlockingQueue` of waiting orders. */
  const CAPACITY: nat := 3

  /** A translation-table line already split on commas: `Colour,Model,FrontSKU,RearSKU`. */
  datatype TranslationRow = TranslationRow(colour: string, model: string, front: string, rear: string)

  /** colour -> model -> (front SKU, rear SKU). */
  type FasciaMap = map<string, map<string, (string, string)>>

  /** One line of `populateFasciaMap`'s loop. */
  function Put(fm: FasciaMap, row: TranslationRow): FasciaMap
  {
    if row.colour in fm then fm[row.colour := fm[row.colour][row.model := (row.front, row.rear)]]
    else fm[row.colour := map[row.model := (row.front, row.rear)]]
  }

  /** The loop of `populateFasciaMap` over the lines after the header. */
  function AddRows(rows: seq<TranslationRow>): FasciaMap
    decreases |rows|
  {
    if |rows| == 0 then map[] else Put(AddRows(rows[..|rows| - 1]), rows[|rows| - 1])
  }

  /** `populateFasciaMap`: skips the first line; a file without even that
      line makes `nextLine` throw. */
  function PopulateFasciaMap(lines: seq<TranslationRow>): Result<FasciaMap>
  {
    if |lines| == 0 then Failure(NoSuchElement) else Success(AddRows(lines[1..]))
  }

  /** `validOrder`. */
  predicate ValidOrder(fm: FasciaMap, colour: string, model: string)
  {
    colour in fm && model in fm[colour]
  }

  /** A (colour, model) pair has an entry exactly when some line names it,
      and the entry is `[front, rear]` of the last line that does. */
  lemma {:induction false} AddRowsLookup(rows: seq<TranslationRow>, colour: string, model: string)
    ensures ValidOrder(AddRows(rows), colour, model) <==>
      exists i :: 0 <= i < |rows| && rows[i].colour == colour && rows[i].model == model
    ensures forall i ::
      (0 <= i < |rows| && rows[i].colour == colour && rows[i].model == model &&
       (forall j :: i < j < |rows| ==> !(rows[j].colour == colour && rows[j].model == model))) ==>
        ValidOrder(AddRows(rows), colour, model) &&
        AddRows(rows)[colour][model] == (rows[i].front, rows[i].rear)
    decreases |rows|
  {
    if |rows| > 0 {
      var init := rows[..|rows| - 1];
      var last := rows[|rows| - 1];
      AddRowsLookup(init, colour, model);
      forall i | 0 <= i < |init|
        ensures init[i] == rows[i]
      {
      }
      if exists i :: 0 <= i < |rows| && rows[i].colour == colour && rows[i].model == model {
        var i :| 0 <= i < |rows| && rows[i].colour == colour && rows[i].model == model;
        if i < |init| {
          assert init[i].colour == colour && init[i].model == model;
        }
      }
    }
  }

  /** An order is valid exactly when a line after the header names its
      colour and model. */
  lemma ValidOrderIffListed(lines: seq<TranslationRow>, colour: string, model: string)
    requires PopulateFasciaMap(lines).Success?
    ensures ValidOrder(PopulateFasciaMap(lines).value, colour, model) <==>
      exists i :: 1 <= i < |lines| && lines[i].colour == colour && lines[i].model == model
  {
    var rows := lines[1..];
    AddRowsLookup(rows, colour, model);
    if exists i :: 0 <= i < |rows| && rows[i].colour == colour && rows[i].model == model {
      var i :| 0 <= i < |rows| && rows[i].colour == colour && rows[i].model == model;
      assert lines[i + 1] == rows[i];
    }
    if exists i :: 1 <= i < |lines| && lines[i].colour == colour && lines[i].model == model {
      var i :| 1 <= i < |lines| && lines[i].colour == colour && lines[i].model == model;
      assert rows[i - 1] == lines[i];
    }
  }

  /** The loop of `generateLoadingOrder`: front and rear SKUs of each order,
      in order. An order with an unknown colour or model dereferences null. */
  function CollectFascia(fm: FasciaMap, group: seq<Order>): (r: Result<(seq<string>, seq<string>)>)
    ensures r.Success? <==> forall i :: 0 <= i < |group| ==> ValidOrder(fm, group[i].colour, group[i].model)
    ensures r.Success? ==>
      && |r.value.0| == |group| && |r.value.1| == |group|
      && forall i :: 0 <= i < |group| ==>
        && r.value.0[i] == fm[group[i].colour][group[i].model].0
        && r.value.1[i] == fm[group[i].colour][group[i].model].1
    decreases |group|
  {
    if |group| == 0 then Success(([], []))
    else
      var init := group[..|group| - 1];
      var o := group[|group| - 1];
      match CollectFascia(fm, init)
      case Failure(f) => Failure(f)
      case Success((fronts, rears)) =>
        if ValidOrder(fm, o.colour, o.model) then
          var pair := fm[o.colour][o.model];
          Success((fronts + [pair.0], rears + [pair.1]))
        else Failure(NullPointer)
  }

  /** `generateLoadingOrder`: all rear SKUs in order, then all front SKUs
      in order. */
  function GenerateLoadingOrder(fm: FasciaMap, group: seq<Order>): (r: Result<seq<string>>)
    ensures r.Success? <==> forall i :: 0 <= i < |group| ==> ValidOrder(fm, group[i].colour, group[i].model)
    ensures r.Success? ==>
      && |r.value| == 2 * |group|
      && forall i :: 0 <= i < |group| ==>
        && r.value[i] == fm[group[i].colour][group[i].model].1
        && r.value[|group| + i] == fm[group[i].colour][group[i].model].0
  {
    match CollectFascia(fm, group)
    case Failure(f) => Failure(f)
    case Success((fronts, rears)) => Success(rears + fronts)
  }

  /** What `enqueue` hands on when the buffer was full: the batch of orders
      and its loading order. */
  datatype Batch = Batch(orders: seq<Order>, loadingOrder: seq<string>)

  /** `enqueue(order)`: the buffer afterwards, and the batch to turn into a
      picking request if the buffer was full. */
  function Enqueue(fm: FasciaMap, buffer: seq<Order>, order: Order): (r: Result<(seq<Order>, Option<Batch>)>)
    requires |buffer| <= CAPACITY
    ensures |buffer| < CAPACITY ==> r == Success((buffer + [order], None))
    ensures |buffer| == CAPACITY && r.Success? ==>
      && r.value.0 == []
      && r.value.1.Some?
      && r.value.1.value.orders == buffer + [order]
      && GenerateLoadingOrder(fm, buffer + [order]) == Success(r.value.1.value.loadingOrder)
    ensures r.Success? ==> |r.value.0| <= CAPACITY
    ensures |buffer| == CAPACITY ==> (r.Failure? <==> GenerateLoadingOrder(fm, buffer + [order]).Failure?)
  {
    if |buffer| < CAPACITY then Success((buffer + [order], None))
    else
      var group := buffer + [order];
      match GenerateLoadingOrder(fm, group)
      case Failure(f) => Failure(f)
      case Success(lo) => Success(([], Some(Batch(group, lo))))
  }

  /** Four valid orders into an empty buffer: the first three are only
      buffered, the fourth empties the buffer and yields exactly one batch
      holding the four orders in arrival order, with loading order
      [rear1..rear4, front1..front4]. */
  lemma FourOrdersMakeOneBatch(fm: FasciaMap, o1: Order, o2: Order, o3: Order, o4: Order)
    requires ValidOrder(fm, o1.colour, o1.model) && ValidOrder(fm, o2.colour, o2.model)
    requires ValidOrder(fm, o3.colour, o3.model) && ValidOrder(fm, o4.colour, o4.model)
    ensures Enqueue(fm, [], o1) == Success(([o1], None))
    ensures Enqueue(fm, [o1], o2) == Success(([o1, o2], None))
    ensures Enqueue(fm, [o1, o2], o3) == Success(([o1, o2, o3], None))
    ensures Enqueue(fm, [o1, o2, o3], o4).Success?
    ensures
      var (buffer, batch) := Enqueue(fm, [o1, o2, o3], o4).value;
      && buffer == []
      && batch == Some(Batch([o1, o2, o3, o4], batch.value.loadingOrder))
      && batch.value.loadingOrder == [
           fm[o1.colour][o1.model].1, fm[o2.colour][o2.model].1,
           fm[o3.colour][o3.model].1, fm[o4.colour][o4.model].1,
           fm[o1.colour][o1.model].0, fm[o2.colour][o2.model].0,
           fm[o3.colour][o3.model].0, fm[o4.colour][o4.model].0]
  {
    assert [] + [o1] == [o1];
    assert [o1] + [o2] == [o1, o2];
    assert [o1, o2] + [o3] == [o1, o2, o3];
    var group := [o1, o2, o3, o4];
    assert [o1, o2, o3] + [o4] == group;
    var lo := GenerateLoadingOrder(fm, group).value;
    assert |lo| == 8;
  }
}
