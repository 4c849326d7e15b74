/** `InventoryManager`: stock per SKU on the picking floor, and the
    location/SKU tables built from the traversal table. The files are
    parameters: `Row`s are traversal-table lines (location = the first
    seven characters, SKU = the text after the eighth), `StockLine`s are
    lines of the initial-stock file. */
module Inventory {
  import opened Wrappers
  import opened Text

  /** Stock of every SKU the initial file does not mention. */
  const DEFAULT_STOCK: int := 30
  /** At or below this count a SKU's location is queued for replenishing. */
  const LOW_STOCK: int := 5
  /** What one replenishing adds. */
  const REFILL: int := 25

  datatype Row = Row(location: string, sku: string)
  datatype StockLine = StockLine(location: string, amount: int)

  datatype LedgerData = LedgerData(
    stock: map<string, int>,         // `inventory`: SKU -> remaining fascia
    skus: map<string, string>,       // location -> SKU
    locations: map<string, string>)  // SKU -> location

  /** What construction establishes and every operation keeps: each
      location's SKU has a stock entry, and each stocked SKU has a location.
      Under it `saveInventory`, `checkFasciaLevel` and `replenish` never
      unbox a null. */
  predicate Wf(l: LedgerData)
  {
    && (forall loc :: loc in l.skus ==> l.skus[loc] in l.stock)
    && (forall s :: s in l.stock ==> s in l.locations)
  }

  type Ledger = l: LedgerData | Wf(l) witness LedgerData(map[], map[], map[])

  /** `genLocMap`: both tables, filled line by line; a later line for the
      same key overrides an earlier one. */
  function GenLocMap(rows: seq<Row>): (r: (map<string, string>, map<string, string>))
    ensures forall loc :: loc in r.0 ==> r.0[loc] in r.1
    decreases |rows|
  {
    if |rows| == 0 then (map[], map[])
    else
      var (skus, locations) := GenLocMap(rows[..|rows| - 1]);
      var row := rows[|rows| - 1];
      (skus[row.location := row.sku], locations[row.sku := row.location])
  }

  predicate UniqueLocations(rows: seq<Row>)
  {
    forall i, j :: 0 <= i < j < |rows| ==> rows[i].location != rows[j].location
  }

  predicate UniqueSkus(rows: seq<Row>)
  {
    forall i, j :: 0 <= i < j < |rows| ==> rows[i].sku != rows[j].sku
  }

  /** The two tables have exactly the table's locations and SKUs as keys. */
  lemma {:induction false} GenLocMapKeys(rows: seq<Row>)
    ensures forall loc :: loc in GenLocMap(rows).0 <==> exists i :: 0 <= i < |rows| && rows[i].location == loc
    ensures forall s :: s in GenLocMap(rows).1 <==> exists i :: 0 <= i < |rows| && rows[i].sku == s
    decreases |rows|
  {
    if |rows| > 0 {
      var init := rows[..|rows| - 1];
      GenLocMapKeys(init);
      forall loc
        ensures loc in GenLocMap(rows).0 <==> exists i :: 0 <= i < |rows| && rows[i].location == loc
      {
        if loc in GenLocMap(init).0 {
          var i :| 0 <= i < |init| && init[i].location == loc;
          assert rows[i].location == loc;
        }
        if exists i :: 0 <= i < |rows| && rows[i].location == loc {
          var i :| 0 <= i < |rows| && rows[i].location == loc;
          if i < |init| {
            assert init[i].location == loc;
          }
        }
      }
      forall s
        ensures s in GenLocMap(rows).1 <==> exists i :: 0 <= i < |rows| && rows[i].sku == s
      {
        if s in GenLocMap(init).1 {
          var i :| 0 <= i < |init| && init[i].sku == s;
          assert rows[i].sku == s;
        }
        if exists i :: 0 <= i < |rows| && rows[i].sku == s {
          var i :| 0 <= i < |rows| && rows[i].sku == s;
          if i < |init| {
            assert init[i].sku == s;
          }
        }
      }
    }
  }

  /** When no location and no SKU repeats, every line is recorded in both
      tables. */
  lemma {:induction false} GenLocMapRecordsRows(rows: seq<Row>)
    requires UniqueLocations(rows) && UniqueSkus(rows)
    ensures forall i :: 0 <= i < |rows| ==>
      && rows[i].location in GenLocMap(rows).0 && GenLocMap(rows).0[rows[i].location] == rows[i].sku
      && rows[i].sku in GenLocMap(rows).1 && GenLocMap(rows).1[rows[i].sku] == rows[i].location
    decreases |rows|
  {
    if |rows| > 0 {
      var init := rows[..|rows| - 1];
      var last := rows[|rows| - 1];
      assert UniqueLocations(init) && UniqueSkus(init);
      GenLocMapRecordsRows(init);
      forall i | 0 <= i < |init|
        ensures init[i] == rows[i] && rows[i].location != last.location && rows[i].sku != last.sku
      {
      }
    }
  }

  /** ... and so the location-to-SKU and SKU-to-location tables are
      inverse to each other. */
  lemma GenLocMapBijection(rows: seq<Row>)
    requires UniqueLocations(rows) && UniqueSkus(rows)
    ensures forall loc :: loc in GenLocMap(rows).0 ==>
      GenLocMap(rows).1[GenLocMap(rows).0[loc]] == loc
    ensures forall s :: s in GenLocMap(rows).1 ==>
      GenLocMap(rows).1[s] in GenLocMap(rows).0 && GenLocMap(rows).0[GenLocMap(rows).1[s]] == s
  {
    var r := GenLocMap(rows);
    GenLocMapKeys(rows);
    GenLocMapRecordsRows(rows);
    forall loc | loc in r.0
      ensures r.1[r.0[loc]] == loc
    {
      var i :| 0 <= i < |rows| && rows[i].location == loc;
    }
    forall s | s in r.1
      ensures r.1[s] in r.0 && r.0[r.1[s]] == s
    {
      var i :| 0 <= i < |rows| && rows[i].sku == s;
    }
  }

  /** The stock map before and after reading the initial file: every SKU
      of the table at the default, then each line's amount for its
      location's SKU, later lines overriding earlier ones. */
  function InitialStock(skus: map<string, string>, lines: seq<StockLine>): (r: map<string, int>)
    requires forall i :: 0 <= i < |lines| ==> lines[i].location in skus
    ensures r.Keys == skus.Values
    decreases |lines|
  {
    if |lines| == 0 then map s | s in skus.Values :: DEFAULT_STOCK
    else
      var line := lines[|lines| - 1];
      assert skus[line.location] in skus.Values;
      InitialStock(skus, lines[..|lines| - 1])[skus[line.location] := line.amount]
  }

  /** A SKU that no line of the initial file names starts at 30. */
  lemma {:induction false} InitialStockDefault(skus: map<string, string>, lines: seq<StockLine>, s: string)
    requires forall i :: 0 <= i < |lines| ==> lines[i].location in skus
    requires s in skus.Values
    requires forall i :: 0 <= i < |lines| ==> skus[lines[i].location] != s
    ensures InitialStock(skus, lines)[s] == DEFAULT_STOCK
    decreases |lines|
  {
    if |lines| > 0 {
      var init := lines[..|lines| - 1];
      assert forall i :: 0 <= i < |init| ==> init[i] == lines[i];
      InitialStockDefault(skus, init, s);
    }
  }

  /** A SKU named by some line starts at the amount of the last such
      line: later lines override earlier ones. */
  lemma {:induction false} InitialStockLast(skus: map<string, string>, lines: seq<StockLine>, s: string, i: nat)
    requires forall k :: 0 <= k < |lines| ==> lines[k].location in skus
    requires i < |lines| && skus[lines[i].location] == s
    requires forall j :: i < j < |lines| ==> skus[lines[j].location] != s
    ensures InitialStock(skus, lines)[s] == lines[i].amount
    decreases |lines|
  {
    if i < |lines| - 1 {
      var init := lines[..|lines| - 1];
      assert forall k :: 0 <= k < |init| ==> init[k] == lines[k];
      InitialStockLast(skus, init, s, i);
    }
  }

  /** `initialiseInventory`. Every line of the initial file must name a
      location of the traversal table: Java would otherwise store the
      amount under a null key. */
  function Initialise(rows: seq<Row>, lines: seq<StockLine>): (l: Ledger)
    requires forall i :: 0 <= i < |lines| ==> lines[i].location in GenLocMap(rows).0
    ensures l.skus == GenLocMap(rows).0 && l.locations == GenLocMap(rows).1
    ensures l.stock == InitialStock(GenLocMap(rows).0, lines)
  {
    var (skus, locations) := GenLocMap(rows);
    var stock := InitialStock(skus, lines);
    var l := LedgerData(stock, skus, locations);
    assert forall loc :: loc in skus ==> skus[loc] in skus.Values;
    l
  }

  /** `decrement(sku)`: one fewer of `sku`, and the location to queue for
      replenishing when the count is now at or below 5. An unknown SKU
      unboxes a null. */
  function Decrement(l: Ledger, sku: string): (r: Result<(Ledger, Option<string>)>)
    ensures sku !in l.stock <==> r.Failure?
    ensures r.Success? ==>
      var (l', trigger) := r.value;
      && l'.skus == l.skus && l'.locations == l.locations
      && l'.stock.Keys == l.stock.Keys
      && l'.stock[sku] == l.stock[sku] - 1
      && (forall s :: s in l.stock && s != sku ==> l'.stock[s] == l.stock[s])
      && (trigger.Some? <==> l'.stock[sku] <= LOW_STOCK)
      && (trigger.Some? ==> trigger.value == l.locations[sku])
  {
    if sku !in l.stock then Failure(NullPointer)
    else
      var n := l.stock[sku] - 1;
      var l' := l.(stock := l.stock[sku := n]);
      Success((l', if n <= LOW_STOCK then Some(l.locations[sku]) else None))
  }

  /** `replenish(loc)`: a location whose SKU is at or below 5 gains 25 and
      the answer is true; otherwise nothing changes and the answer is false.
      An unknown location unboxes a null. */
  function Replenish(l: Ledger, loc: string): (r: Result<(Ledger, bool)>)
    ensures loc !in l.skus <==> r.Failure?
    ensures r.Success? ==>
      var (l', refilled) := r.value;
      var sku := l.skus[loc];
      && l'.skus == l.skus && l'.locations == l.locations
      && l'.stock.Keys == l.stock.Keys
      && (refilled <==> l.stock[sku] <= LOW_STOCK)
      && l'.stock[sku] == (if refilled then l.stock[sku] + REFILL else l.stock[sku])
      && (forall s :: s in l.stock && s != sku ==> l'.stock[s] == l.stock[s])
  {
    if loc !in l.skus then Failure(NullPointer)
    else
      var sku := l.skus[loc];
      if l.stock[sku] <= LOW_STOCK then
        Success((l.(stock := l.stock[sku := l.stock[sku] + REFILL]), true))
      else Success((l, false))
  }

  /** `order` visits every key of `keys` exactly once, as iterating a hash
      map's key or entry set does. */
  predicate Enumerates(order: seq<string>, keys: set<string>)
  {
    && (forall i, j :: 0 <= i < j < |order| ==> order[i] != order[j])
    && (forall i :: 0 <= i < |order| ==> order[i] in keys)
    && (forall k :: k in keys ==> k in order)
  }

  /** The SKUs at or below 5, whose locations need replenishing. */
  function LowSkus(l: Ledger): set<string>
  {
    set s | s in l.stock && l.stock[s] <= LOW_STOCK
  }

  /** The locations whose SKU is not at 30, which `saveInventory` writes. */
  function Unsaved(l: Ledger): set<string>
  {
    set loc | loc in l.skus && l.stock[l.skus[loc]] != DEFAULT_STOCK
  }

  /** `checkAllFasciaLevels` visiting the SKUs in `keyOrder` (the hash
      map's iteration order): the locations queued, in queue order. */
  function CheckAllFasciaLevels(l: Ledger, keyOrder: seq<string>): (r: seq<string>)
    requires forall i :: 0 <= i < |keyOrder| ==> keyOrder[i] in l.stock
    ensures |r| <= |keyOrder|
    ensures forall loc :: loc in r ==>
      exists s :: s in keyOrder && l.stock[s] <= LOW_STOCK && l.locations[s] == loc
    decreases |keyOrder|
  {
    if |keyOrder| == 0 then []
    else
      var s := keyOrder[0];
      var rest := CheckAllFasciaLevels(l, keyOrder[1..]);
      assert forall t :: t in keyOrder[1..] ==> t in keyOrder;
      if l.stock[s] <= LOW_STOCK then [l.locations[s]] + rest else rest
  }

  /** Every stocked SKU at or below 5 gets its location queued: the check
      at construction misses none. */
  lemma {:induction false} CheckAllFindsEveryLowSku(l: Ledger, keyOrder: seq<string>, s: string)
    requires forall i :: 0 <= i < |keyOrder| ==> keyOrder[i] in l.stock
    requires s in keyOrder && l.stock[s] <= LOW_STOCK
    ensures l.locations[s] in CheckAllFasciaLevels(l, keyOrder)
    decreases |keyOrder|
  {
    if keyOrder[0] != s {
      CheckAllFindsEveryLowSku(l, keyOrder[1..], s);
    }
  }

  /** Visiting distinct SKUs, one location is queued per visited SKU at or
      below 5. */
  lemma {:induction false} CheckAllCount(l: Ledger, keyOrder: seq<string>)
    requires forall i :: 0 <= i < |keyOrder| ==> keyOrder[i] in l.stock
    requires forall i, j :: 0 <= i < j < |keyOrder| ==> keyOrder[i] != keyOrder[j]
    ensures |CheckAllFasciaLevels(l, keyOrder)| ==
      |set s | s in keyOrder && s in l.stock && l.stock[s] <= LOW_STOCK|
    decreases |keyOrder|
  {
    if |keyOrder| > 0 {
      var rest := keyOrder[1..];
      CheckAllCount(l, rest);
      var all := set s | s in keyOrder && s in l.stock && l.stock[s] <= LOW_STOCK;
      var later := set s | s in rest && s in l.stock && l.stock[s] <= LOW_STOCK;
      assert keyOrder[0] !in rest;
      if l.stock[keyOrder[0]] <= LOW_STOCK {
        assert all == later + {keyOrder[0]};
      } else {
        assert all == later;
      }
    }
  }

  /** Visiting the stock's key set once each, the queue holds one location
      per SKU at or below 5, and every such SKU's location is in it. */
  lemma CheckAllExact(l: Ledger, keyOrder: seq<string>)
    requires Enumerates(keyOrder, l.stock.Keys)
    ensures |CheckAllFasciaLevels(l, keyOrder)| == |LowSkus(l)|
    ensures forall s :: s in LowSkus(l) ==> l.locations[s] in CheckAllFasciaLevels(l, keyOrder)
  {
    CheckAllCount(l, keyOrder);
    assert (set s | s in keyOrder && s in l.stock && l.stock[s] <= LOW_STOCK) == LowSkus(l);
    forall s | s in LowSkus(l)
      ensures l.locations[s] in CheckAllFasciaLevels(l, keyOrder)
    {
      CheckAllFindsEveryLowSku(l, keyOrder, s);
    }
  }

  /** `saveInventory` visiting locations in `locOrder`: the `(location,
      amount)` pairs written, one per location whose SKU is not at 30. */
  function SaveEntries(l: Ledger, locOrder: seq<string>): (r: seq<(string, int)>)
    ensures |r| <= |locOrder|
    ensures forall e :: e in r ==>
      (e.0 in locOrder && e.0 in l.skus && e.1 == l.stock[l.skus[e.0]] && e.1 != DEFAULT_STOCK)
    decreases |locOrder|
  {
    if |locOrder| == 0 then []
    else
      var loc := locOrder[0];
      var rest := SaveEntries(l, locOrder[1..]);
      if loc in l.skus && l.stock[l.skus[loc]] != DEFAULT_STOCK
      then [(loc, l.stock[l.skus[loc]])] + rest
      else rest
  }

  /** Every location visited whose SKU differs from 30 is written. */
  lemma {:induction false} SaveEntriesComplete(l: Ledger, locOrder: seq<string>, loc: string)
    requires loc in locOrder && loc in l.skus && l.stock[l.skus[loc]] != DEFAULT_STOCK
    ensures (loc, l.stock[l.skus[loc]]) in SaveEntries(l, locOrder)
    decreases |locOrder|
  {
    if locOrder[0] != loc {
      SaveEntriesComplete(l, locOrder[1..], loc);
    }
  }

  /** Visiting distinct locations, no location is written twice. */
  lemma {:induction false} SaveEntriesDistinct(l: Ledger, locOrder: seq<string>)
    requires forall i, j :: 0 <= i < j < |locOrder| ==> locOrder[i] != locOrder[j]
    ensures forall i, j :: 0 <= i < j < |SaveEntries(l, locOrder)| ==>
      SaveEntries(l, locOrder)[i].0 != SaveEntries(l, locOrder)[j].0
    decreases |locOrder|
  {
    if |locOrder| > 0 {
      var loc := locOrder[0];
      var rest := locOrder[1..];
      assert forall k :: 0 <= k < |rest| ==> rest[k] == locOrder[k + 1];
      SaveEntriesDistinct(l, rest);
      var r := SaveEntries(l, locOrder);
      var tail := SaveEntries(l, rest);
      if loc in l.skus && l.stock[l.skus[loc]] != DEFAULT_STOCK {
        assert r == [(loc, l.stock[l.skus[loc]])] + tail;
        forall i, j | 0 <= i < j < |r|
          ensures r[i].0 != r[j].0
        {
          assert r[j] == tail[j - 1];
          if i == 0 {
            assert tail[j - 1] in tail;
            assert loc !in rest;
          } else {
            assert r[i] == tail[i - 1];
          }
        }
      }
    }
  }

  /** Visiting distinct locations, one line is written per visited location
      whose SKU is not at 30. */
  lemma {:induction false} SaveEntriesCount(l: Ledger, locOrder: seq<string>)
    requires forall i, j :: 0 <= i < j < |locOrder| ==> locOrder[i] != locOrder[j]
    ensures |SaveEntries(l, locOrder)| ==
      |set loc | loc in locOrder && loc in l.skus && l.stock[l.skus[loc]] != DEFAULT_STOCK|
    decreases |locOrder|
  {
    if |locOrder| > 0 {
      var loc := locOrder[0];
      var rest := locOrder[1..];
      assert forall k :: 0 <= k < |rest| ==> rest[k] == locOrder[k + 1];
      SaveEntriesCount(l, rest);
      var all := set k | k in locOrder && k in l.skus && l.stock[l.skus[k]] != DEFAULT_STOCK;
      var later := set k | k in rest && k in l.skus && l.stock[l.skus[k]] != DEFAULT_STOCK;
      assert loc !in rest;
      if loc in l.skus && l.stock[l.skus[loc]] != DEFAULT_STOCK {
        assert all == later + {loc};
      } else {
        assert all == later;
      }
    }
  }

  /** Visiting the location table's key set once each, `saveInventory`
      writes every location whose SKU is not at 30 exactly once. */
  lemma SaveEntriesExact(l: Ledger, locOrder: seq<string>)
    requires Enumerates(locOrder, l.skus.Keys)
    ensures |SaveEntries(l, locOrder)| == |Unsaved(l)|
    ensures forall i, j :: 0 <= i < j < |SaveEntries(l, locOrder)| ==>
      SaveEntries(l, locOrder)[i].0 != SaveEntries(l, locOrder)[j].0
    ensures forall loc :: loc in Unsaved(l) ==> (loc, l.stock[l.skus[loc]]) in SaveEntries(l, locOrder)
  {
    SaveEntriesDistinct(l, locOrder);
    SaveEntriesCount(l, locOrder);
    assert (set loc | loc in locOrder && loc in l.skus && l.stock[l.skus[loc]] != DEFAULT_STOCK) == Unsaved(l);
    forall loc | loc in Unsaved(l)
      ensures (loc, l.stock[l.skus[loc]]) in SaveEntries(l, locOrder)
    {
      SaveEntriesComplete(l, locOrder, loc);
    }
  }

  /** One line of `final.csv`. */
  function SaveLine(loc: string, amount: int): string
  {
    loc + "," + IntToString(amount)
  }

  /** A line of `final.csv` ends in an amount without a comma, so its last
      comma is the one after the location. */
  lemma LastComma(loc: string, amount: int)
    ensures var s := SaveLine(loc, amount);
      s[|loc|] == ',' && forall k :: |loc| < k < |s| ==> s[k] != ','
  {
    var s := SaveLine(loc, amount);
    var digits := IntToString(amount);
    assert forall k :: |loc| < k < |s| ==> s[k] == digits[k - |loc| - 1];
  }

  /** A line of `final.csv` determines its location. */
  lemma SaveLineLocation(a: string, x: int, b: string, y: int)
    requires SaveLine(a, x) == SaveLine(b, y)
    ensures a == b
  {
    LastComma(a, x);
    LastComma(b, y);
    assert |a| == |b|;
    assert a == SaveLine(a, x)[..|a|];
    assert b == SaveLine(b, y)[..|b|];
  }

  /** The lines of `final.csv`: `location,amount`. */
  function SaveLines(l: Ledger, locOrder: seq<string>): (r: seq<string>)
    ensures |r| == |SaveEntries(l, locOrder)|
    ensures forall i :: 0 <= i < |r| ==>
      r[i] == SaveLine(SaveEntries(l, locOrder)[i].0, SaveEntries(l, locOrder)[i].1)
  {
    var entries := SaveEntries(l, locOrder);
    seq(|entries|, i requires 0 <= i < |entries| => SaveLine(entries[i].0, entries[i].1))
  }

  /** Visiting the location table's key set once each, every location
      whose SKU is not at 30 gets its line. */
  lemma SaveLinesComplete(l: Ledger, locOrder: seq<string>, loc: string)
    requires Enumerates(locOrder, l.skus.Keys) && loc in Unsaved(l)
    ensures SaveLine(loc, l.stock[l.skus[loc]]) in SaveLines(l, locOrder)
  {
    SaveEntriesComplete(l, locOrder, loc);
    var entries := SaveEntries(l, locOrder);
    var i :| 0 <= i < |entries| && entries[i] == (loc, l.stock[l.skus[loc]]);
    assert SaveLines(l, locOrder)[i] == SaveLine(loc, l.stock[l.skus[loc]]);
  }

  /** Every line written is the line of a location whose SKU is not at 30. */
  lemma SaveLinesSound(l: Ledger, locOrder: seq<string>, i: nat)
    requires i < |SaveLines(l, locOrder)|
    ensures var loc := SaveEntries(l, locOrder)[i].0;
      && loc in Unsaved(l)
      && SaveLines(l, locOrder)[i] == SaveLine(loc, l.stock[l.skus[loc]])
  {
    var entries := SaveEntries(l, locOrder);
    assert entries[i] in entries;
  }

  /** Visiting distinct locations, no line repeats. */
  lemma SaveLinesDistinct(l: Ledger, locOrder: seq<string>)
    requires forall i, j :: 0 <= i < j < |locOrder| ==> locOrder[i] != locOrder[j]
    ensures forall i, j :: 0 <= i < j < |SaveLines(l, locOrder)| ==>
      SaveLines(l, locOrder)[i] != SaveLines(l, locOrder)[j]
  {
    SaveEntriesDistinct(l, locOrder);
    var entries := SaveEntries(l, locOrder);
    var lines := SaveLines(l, locOrder);
    forall i, j | 0 <= i < j < |lines|
      ensures lines[i] != lines[j]
    {
      if lines[i] == lines[j] {
        SaveLineLocation(entries[i].0, entries[i].1, entries[j].0, entries[j].1);
      }
    }
  }

  /** Visiting the location table's key set once each, `final.csv` holds
      one line `location,amount` for each location whose SKU is not at 30,
      with that SKU's amount, and no other line; no line repeats. */
  lemma SaveLinesExact(l: Ledger, locOrder: seq<string>)
    requires Enumerates(locOrder, l.skus.Keys)
    ensures |SaveLines(l, locOrder)| == |Unsaved(l)|
    ensures forall loc :: loc in Unsaved(l) ==> SaveLine(loc, l.stock[l.skus[loc]]) in SaveLines(l, locOrder)
    ensures forall line :: line in SaveLines(l, locOrder) ==>
      exists loc :: loc in Unsaved(l) && line == SaveLine(loc, l.stock[l.skus[loc]])
    ensures forall i, j :: 0 <= i < j < |SaveLines(l, locOrder)| ==>
      SaveLines(l, locOrder)[i] != SaveLines(l, locOrder)[j]
  {
    SaveEntriesExact(l, locOrder);
    SaveLinesDistinct(l, locOrder);
    var lines := SaveLines(l, locOrder);
    forall loc | loc in Unsaved(l)
      ensures SaveLine(loc, l.stock[l.skus[loc]]) in lines
    {
      SaveLinesComplete(l, locOrder, loc);
    }
    forall line | line in lines
      ensures exists loc :: loc in Unsaved(l) && line == SaveLine(loc, l.stock[l.skus[loc]])
    {
      var i :| 0 <= i < |lines| && lines[i] == line;
      SaveLinesSound(l, locOrder, i);
    }
  }
}
