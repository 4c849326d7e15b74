# Fascia warehouse simulator, modelled in Dafny

The system simulates a warehouse that ships minivan fascias, one front and one rear per
order. It reads an event file line by line:

- `Order <model> <colour>` adds an order.
- `<Role> <id> <verb> …` reports what a picker, sequencer, loader or replenisher did.

Orders wait in a three-slot buffer. Every fourth order turns the buffer into a *picking
request*: four orders, their eight SKUs in truck loading order (rears first, then fronts), and
the same SKUs in the order a picker walks the floor. That walking order comes from the
traversal table.

A request moves through these queues:

- the picking queue, a priority queue by request id;
- the sequencing FIFO;
- the loading queue, a priority queue that a loader may take from only when the request at
  its head is next in the load order.

Picking a fascia lowers its stock. A SKU at five or fewer gets its location queued for a
replenisher. Idle workers wait in one FIFO per role and are woken when work for their role
arrives.

The model is purely functional. The whole warehouse is one immutable `Warehouse` record.
Every operation is a total function. Each one that can throw in Java returns a `Result`, and
a Java exception (null dereference, index out of bounds, empty-deque pop) becomes a `Failure`
that ends the run. Operations that cannot throw, such as `RescanAction`, `CreateWorker` and
`QueueWorker`, return the new `Warehouse` directly.

The modules follow the Java classes:

| module | Java class(es) |
|---|---|
| `Orders` | `Order`, `PickingRequest` |
| `WarehousePicking` | `WarehousePicking.optimize` |
| `Inventory` | `InventoryManager` |
| `OrderManager` | the translation table, `validOrder`, the order buffer, `generateLoadingOrder` |
| `OrderIntake` | `enqueue` together with `addRequest` |
| `WorkerPool` | `WorkerManager` |
| `Workers` | the per-worker state of `Worker`, `Picker` and `CheckerWorker` |
| `RequestManager` | the queues, the wake-up cascade and `requestTask` |
| `WorkerActions` | each worker's command methods |
| `Simulator` | pattern matching and dispatch of event lines, and construction |

Helper modules model Java behaviour the code relies on:

- `Wrappers`: `Option` and `Result`.
- `JavaInt`: 32-bit `int` with wrap-around, used by the two id counters.
- `Text`: `split` on one character, joining, decimal printing, the regex class `\w`.
- `PriorityQueue`: a `PriorityQueue` as a sorted sequence of ids.

The files the Java code reads become parameters:

- the traversal table, as rows of (location, SKU);
- the translation table, as rows;
- the initial stock lines;
- the event lines.

`HashMap` iteration order also becomes a parameter, wherever the code iterates a map.

`orders.csv` is the `ordersLog` string. `final.csv` is the list of lines that `Simulate`
returns.

## Model

| member | source | states |
|---|---|---|
| `Orders.NewOrders` | project/src/project/Order.java:17-22 | creating orders from a list of (colour, model) pairs yields one order per pair, in order, with its colour and model; the first takes the counter's value, each next id is the previous one incremented with 32-bit wrap-around, and the counter ends one past the last id |
| `Orders.OrderIdsConsecutive` | project/src/project/Order.java:17-22 | successive orders get ids nextId, nextId+1, … with their own colour and model; the ids strictly increase; the counter ends at nextId plus the number of orders |
| `Orders.ResetThenOrders` | project/src/project/Order.java:24-26 | after `setNextId(1)` the orders created are numbered 1, 2, 3, … and the counter ends one past the last |
| `Orders.OrderToStringFields` | project/src/project/Order.java:31-33 | for a colour and model without spaces, the text splits on spaces into exactly `Order`, `#<id>:`, `<colour>,` and `<model>` |
| `Orders.OrderToStringShape` | project/src/project/Order.java:31-33 | the text is `Order #`, then the id's digits, …, and ends with the model; it contains no line break of its own |
| `JavaInt.IncWraps` | project/src/project/PickingRequest.java:32-33 | counted from the bottom of the `int` range, the counter's increment adds one modulo 2^32; so it grows below the top and wraps to the bottom at the top |
| `Orders.NewRequest` | project/src/project/PickingRequest.java:28-36 | a new request takes the counter as its id and advances the counter; it keeps the orders and loading order it is given; its picking order is `optimize` of the loading order; its fascia state starts empty |
| `Orders.BareRequest` | project/src/project/PickingRequest.java:38-41 | the id-only constructor takes the given id and has an empty fascia state |
| `Orders.UpdateFasciaState` | project/src/project/PickingRequest.java:43-45 | exactly the given SKU is appended to the fascia state; nothing else changes |
| `Orders.ClearFasciaState` | project/src/project/PickingRequest.java:51-53 | the fascia state is emptied; nothing else changes |
| `Orders.AppendAll` | project/src/project/Loader.java:27-29 | adding SKUs one by one leaves the old state followed by those SKUs |
| `Orders.Rearrange` | project/src/project/Sequencer.java:24-28 | clearing, then re-adding the loading order, leaves the fascia state exactly equal to the loading order, whatever it was before |
| `Orders.CompareTo` | project/src/project/PickingRequest.java:72-74 | the comparison is negative, zero or positive exactly when the first id is smaller than, equal to or greater than the second |
| `JavaInt.CompareIsTotalOrder` | project/src/project/PickingRequest.java:72-74 | `Integer.compare` returns -1, 0 or 1, agrees with `<`, is antisymmetric and is transitive |
| `Orders.OrderStringIsJoin` | project/src/project/PickingRequest.java:79-85 | the order string is the order ids joined by ", "; on a request with no orders it throws |
| `WarehousePicking.Optimize` | project/src/project/WarehousePicking.java:16-56 | every SKU in the output is both an input SKU and listed in the traversal table |
| `WarehousePicking.OptimizeCount` | project/src/project/WarehousePicking.java:28-50 | each SKU appears in the output (its count in the input) × (its count in the table) times |
| `WarehousePicking.OptimizeIsPermutationOfKnown` | project/src/project/WarehousePicking.java:40-50 | with a table of distinct SKUs, the output is a permutation of the input SKUs that the table lists |
| `WarehousePicking.OptimizeLength` | project/src/project/WarehousePicking.java:40-50 | the output is never longer than the input, and has the same length exactly when the table lists every input SKU |
| `WarehousePicking.OptimizeOrdered` | project/src/project/WarehousePicking.java:39-50 | the output follows traversal-table order |
| `WarehousePicking.OptimizeContiguous` | project/src/project/WarehousePicking.java:45-48 | all copies of one SKU sit next to each other in the output |
| `WarehousePicking.OptimizeOrdersByTable` | project/test/project/WarehousePickingTest.java:13-25 | SKUs 5, 9, 1 come out as 1, 5, 9 |
| `WarehousePicking.OptimizeKeepsDuplicates` | project/test/project/WarehousePickingTest.java:28-40 | SKUs 5, 5, 1 come out as 1, 5, 5 |
| `WarehousePicking.OptimizeDropsUnknown` | project/test/project/WarehousePickingTest.java:43-50 | a SKU the table does not list is dropped |
| `Inventory.GenLocMap` | project/src/project/InventoryManager.java:89-106 | every location's SKU has an entry in the SKU-to-location table |
| `Inventory.GenLocMapKeys` | project/src/project/InventoryManager.java:97-104 | the keys of the two tables are exactly the traversal table's locations and SKUs |
| `Inventory.GenLocMapRecordsRows` | project/src/project/InventoryManager.java:99-103 | when no location and no SKU repeats, every line is recorded in both directions |
| `Inventory.GenLocMapBijection` | project/src/project/InventoryManager.java:81-88 | in that case the two tables are inverse to each other |
| `Inventory.InitialStock` | project/src/project/InventoryManager.java:62-76 | the stock map has exactly the table's SKUs as keys |
| `Inventory.InitialStockDefault` | project/src/project/InventoryManager.java:62-64 | a SKU that no line of the initial file names starts at 30 |
| `Inventory.InitialStockLast` | project/src/project/InventoryManager.java:70-76 | a SKU that lines name starts at the amount on the last such line |
| `Inventory.Initialise` | project/src/project/InventoryManager.java:56-78 | the ledger holds the two traversal tables and the initial stock |
| `Inventory.Decrement` | project/src/project/InventoryManager.java:132-137 | exactly the given SKU loses one; a location is reported for replenishing exactly when the new count is 5 or less, and that location is the SKU's own; an unknown SKU throws |
| `Inventory.Replenish` | project/src/project/InventoryManager.java:144-152 | the location's SKU gains 25, and the answer is true, exactly when its count was 5 or less; nothing else changes; an unknown location throws |
| `Inventory.CheckAllFasciaLevels` | project/src/project/InventoryManager.java:179-196 | every queued location belongs to a visited SKU at 5 or less |
| `Inventory.CheckAllFindsEveryLowSku` | project/src/project/InventoryManager.java:179-183 | every visited SKU at 5 or less gets its location queued |
| `Inventory.CheckAllExact` | project/src/project/InventoryManager.java:179-196 | visiting the stock's keys once each, exactly one location is queued per SKU at 5 or less, and every such SKU's location is queued |
| `Inventory.SaveEntries` | project/src/project/InventoryManager.java:113-124 | every written pair is a visited location together with its SKU's current amount, and that amount is not 30 |
| `Inventory.SaveEntriesComplete` | project/src/project/InventoryManager.java:116-121 | every visited location whose SKU is not at 30 is written |
| `Inventory.SaveEntriesExact` | project/src/project/InventoryManager.java:116-121 | visiting the location table's keys once each, every location whose SKU is not at 30 is written with its amount, no location twice, and nothing else |
| `Inventory.SaveLinesExact` | project/src/project/InventoryManager.java:113-124 | the lines of `final.csv` are exactly one `location,amount` per location whose SKU is not at 30, with no repeated line |
| `PriorityQueue.Insert` | project/src/project/RequestManager.java:69-71 | adding keeps the queue sorted and adds exactly the new id to its contents |
| `PriorityQueue.HeadIsMinimum` | project/src/project/RequestManager.java:139-143 | polling yields the lowest queued id |
| `PriorityQueue.InsertHead` | project/src/project/RequestManager.java:79-80 | after an add, the head is the new id when it is smaller than all others, and the old head otherwise |
| `PriorityQueue.LowerIdFirst` | project/src/project/CheckerWorker.java:87-93 | a re-queued request with a lower id than every waiting one goes ahead of them all |
| `OrderManager.AddRowsLookup` | project/src/project/OrderManager.java:73-91 | a (colour, model) pair has an entry exactly when some line names it, and the entry holds the front and rear SKUs of the last such line |
| `OrderManager.ValidOrderIffListed` | project/src/project/OrderManager.java:150-157 | an order is valid exactly when a translation line after the header names its colour and model |
| `OrderManager.CollectFascia` | project/src/project/OrderManager.java:134-140 | collection succeeds exactly when every order is valid; it then gives each order's front and rear SKU, in order |
| `OrderManager.GenerateLoadingOrder` | project/src/project/OrderManager.java:131-145 | the loading order is all rear SKUs in order, then all front SKUs in order; it throws exactly when some order is not in the table |
| `OrderManager.Enqueue` | project/src/project/OrderManager.java:106-125 | a buffer with room gains the order; a full buffer empties into a batch of its three orders plus the new one, with their loading order; the buffer never exceeds three |
| `OrderManager.FourOrdersMakeOneBatch` | project/src/project/OrderManager.java:23-27 | four valid orders into an empty buffer: the first three wait, and the fourth produces one batch of all four in arrival order with loading order [rear1..rear4, front1..front4] |
| `OrderIntake.SubmitOrder` | project/src/project/OrderManager.java:106-125 | the fourth order creates a request with the next request id, the four orders, the loading order and the optimised picking order; the request is stored, appended to the load order and sent to picking, and the buffer empties |
| `OrderIntake.ProcessOrder` | project/src/project/Simulator.java:108-116 | an invalid (colour, model) pair changes nothing, not even the order counter; a valid one becomes an order with the next id and is submitted |
| `OrderIntake.QueueOrder` | project/src/project/Simulator.java:109-111 | a valid order arriving at a buffer with room takes the next order id and waits in the buffer; nothing else changes |
| `OrderIntake.FourOrdersOneRequest` | project/src/project/OrderManager.java:110-123 | four valid orders with no idle picker give exactly one request; its orders are the four, with consecutive ids; it is appended to the load order and the picking queue |
| `WorkerPool.Enqueue` | project/src/project/WorkerManager.java:31-48 | the worker goes to the back of its own role's queue; other queues are untouched; a worker of no known class is queued nowhere |
| `WorkerPool.Next` | project/src/project/WorkerManager.java:50-64 | the front id of the role's queue is removed and returned; null when that queue is empty; other queues are untouched |
| `WorkerPool.FifoOrder` | project/src/project/WorkerManager.java:31-64 | each queue is first-in first-out: ids come out in the order they went in, and the queue is then empty |
| `Workers.RoleOf` | project/src/project/Simulator.java:159-176 | a role name maps to its worker class, and any other text maps to none |
| `Workers.RoleOfTypeName` | project/src/project/Simulator.java:254 | reading back a worker's type string gives back its role |
| `Workers.NewWorker` | project/src/project/Worker.java:36-45 | a new worker is available, with no request, an empty location and cursor 0 |
| `Workers.FinishTask` | project/src/project/Worker.java:51-57 | the worker is idle again; the picker's path and flag and the checker's results are left as they were |
| `Workers.ToStringFields` | project/src/project/Worker.java:167-174 | the text splits into role and id, plus "working on PickingRequest #id" when busy; it throws exactly for a busy worker without a request |
| `Workers.ToStringReplenisher` | project/src/project/Replenisher.java:63-72 | a busy replenisher's text splits into role, id, "replenishing location:" and its location |
| `Workers.ClearValid` | project/src/project/CheckerWorker.java:78-82 | every recorded result is nulled, and the list keeps its length |
| `Workers.CheckStep` | project/src/project/CheckerWorker.java:50-76 | records whether the expected SKU at the cursor appears anywhere in the given SKUs, and advances the cursor; does nothing without a request, after a false result, or after eight checks; throws when the cursor is past the expected list |
| `Workers.Rescan` | project/src/project/CheckerWorker.java:41-45 | the cursor goes back to 0, every result is nulled, and the request is kept |
| `Workers.ChecksBlocked` | project/src/project/CheckerWorker.java:54-56 | after a false result, any number of checks changes nothing |
| `Workers.ChecksAllPresent` | project/src/project/CheckerWorker.java:53-72 | when every expected SKU is present, n checks record n true results, capped at eight |
| `Workers.ChecksStopAtMissing` | project/src/project/CheckerWorker.java:53-72 | checks record true up to the first missing SKU, false at it, and then stop |
| `Workers.RescanUnblocks` | project/src/project/CheckerWorker.java:41-72 | after a rescan, the next check records again from the first fascia |
| `Workers.PickStep` | project/src/project/Picker.java:31-57 | a pick is accepted exactly when the picker holds a request, is not done, and the SKU is the one at the cursor; acceptance advances the cursor and sets done at 8; a listed SKU with the cursor past the path, or a rejected pick on an empty path, throws |
| `Workers.PickingWholePath` | project/src/project/Picker.java:80-86 | picking an eight-SKU path in order ends at cursor 8 with the picker done |
| `Workers.ShortPathNeverDone` | project/src/project/Picker.java:39-50 | a path shorter than eight can never be completed |
| `RequestManager.GetPickingRequest` | project/src/project/RequestManager.java:139-143 | removes and returns the lowest id in the picking queue; null when the queue is empty |
| `RequestManager.GetSequencingRequest` | project/src/project/RequestManager.java:149-151 | removes and returns the earliest id in the sequencing queue |
| `RequestManager.GetReplenishingRequest` | project/src/project/RequestManager.java:168-170 | removes and returns the earliest queued location |
| `RequestManager.ReadyToLoad` | project/src/project/RequestManager.java:177-182 | true exactly when the head of the load order is the lowest id in the loading queue; false on an empty load order; throws when the load order is non-empty and the loading queue is empty |
| `RequestManager.GetLoadingRequest` | project/src/project/RequestManager.java:157-162 | the loading queue is polled exactly when ready-to-load holds, and then yields the head of the load order; otherwise nothing changes |
| `RequestManager.QueueWorker` | project/src/project/RequestManager.java:220-222 | the worker goes to the back of its role's queue, and nothing else changes |
| `RequestManager.Claim` | project/src/project/Worker.java:76-81 | the worker takes the request and becomes unavailable; a picker copies the request's picking order |
| `RequestManager.Settle` | project/src/project/Worker.java:75-86 | with a request, the worker claims it; without one, it keeps no request and is re-queued |
| `RequestManager.TakeLocation` | project/src/project/Replenisher.java:20-32 | a replenisher takes the earliest queued location or is re-queued; other workers are untouched |
| `RequestManager.RequestTask` | project/src/project/Worker.java:75-86 | only the requesting worker, its role's worker queue and its role's request queue change |
| `RequestManager.DoNextTask` | project/src/project/Worker.java:62-70 | a busy worker ignores the call; only its role's state changes |
| `RequestManager.Wake` | project/src/project/RequestManager.java:82-85 | with no idle worker of the role nothing happens; otherwise only that role's state changes |
| `RequestManager.SendToPicking` | project/src/project/RequestManager.java:79-86 | the id joins the picking queue, then only pickers are affected; with no idle picker the queue just grows |
| `RequestManager.SendToSequencing` | project/src/project/RequestManager.java:94-101 | the id goes to the back of the sequencing FIFO, then only sequencers are affected |
| `RequestManager.SendToLoading` | project/src/project/RequestManager.java:110-119 | the id joins the loading queue, then only loaders are affected |
| `RequestManager.SendToReplenish` | project/src/project/RequestManager.java:127-133 | the location goes to the back of the replenish FIFO, then only replenishers are affected |
| `RequestManager.AddRequest` | project/src/project/RequestManager.java:61-64 | the request is stored, appended to the load order and sent to picking |
| `RequestManager.OrdersTextAppend` | project/src/project/RequestManager.java:207-209 | the text written for a group of orders is the text for its first part followed by the text for the rest |
| `RequestManager.CompleteRequest` | project/src/project/RequestManager.java:190-218 | the head of the load order is popped even when it is not the given request, and the request's orders are appended to the log; an empty load order throws |
| `RequestManager.DecrementStock` | project/src/project/InventoryManager.java:169-196 | one fewer of the SKU; when that leaves 5 or fewer, its location is sent to replenishing and only replenishers are affected |
| `RequestManager.PickerRequestTask` | project/src/project/Picker.java:20-23 | an idle picker takes the lowest id and copies its picking order, or is re-queued when the picking queue is empty |
| `RequestManager.SequencerRequestTask` | project/src/project/Sequencer.java:13-15 | an idle sequencer takes the earliest sequencing request, or is re-queued |
| `RequestManager.LoaderRequestTask` | project/src/project/Loader.java:14-16 | an idle loader takes a request only when it is the head of the load order; otherwise it is re-queued and the loading queue is left alone |
| `RequestManager.ReplenisherRequestTask` | project/src/project/Replenisher.java:20-32 | an idle replenisher takes the earliest queued location, or is re-queued |
| `RequestManager.IdlePickerClaimsAtOnce` | project/src/project/RequestManager.java:82-85 | with an idle picker waiting, a request sent to picking is claimed at once: the picker takes the lowest id, and the queue keeps its size |
| `RequestManager.LoaderWaitsForLoadOrder` | project/src/project/RequestManager.java:110-119 | a loader woken for a request that is not next in the load order takes nothing and returns to the back of the loader queue |
| `WorkerActions.Pick` | project/src/project/Picker.java:31-57 | an accepted pick appends the SKU to the request, takes one from stock and advances the picker; when that leaves 5 or fewer the SKU's location is queued for replenishing (at the back of the queue when no replenisher is idle) and only replenishers are affected, otherwise nothing else changes; any other pick changes nothing or throws |
| `WorkerActions.PickAccepted` | project/src/project/Picker.java:39-47 | the accepted branch: the request gains the SKU, the stock loses one with the replenishing follow-up, the picker takes its advanced state, and nothing else changes beyond the replenishers' side |
| `WorkerActions.PickerSendNext` | project/src/project/Picker.java:60-73 | a picker that is done sends its request to the back of the sequencing queue, after which only sequencers are affected, and is released with its path cleared and its flag reset; otherwise nothing changes |
| `WorkerActions.Check` | project/src/project/CheckerWorker.java:32-36 | a check compares the held request's loading order with its current fascia state, and only the checker changes |
| `WorkerActions.RescanAction` | project/src/project/CheckerWorker.java:41-45 | only the checker is rescanned |
| `WorkerActions.Release` | project/src/project/CheckerWorker.java:91-92 | the worker is idle, with every recorded result nulled |
| `WorkerActions.SendToRepick` | project/src/project/CheckerWorker.java:87-93 | the held request goes back into the picking queue, after which only pickers are affected, and the checker is released; without a request it throws |
| `WorkerActions.Rearranged` | project/src/project/Loader.java:25-29 | only the request's fascia state changes, and it becomes its loading order |
| `WorkerActions.SequencerApprove` | project/src/project/Sequencer.java:18-36 | the request's state becomes its loading order, the request goes into the loading queue, after which only loaders are affected, and the sequencer is released; no check needs to have passed; without a request nothing changes |
| `WorkerActions.LoaderApprove` | project/src/project/Loader.java:19-40 | the request's state becomes its loading order, the load order is popped, the orders are logged, and the loader is released; nothing else changes, and no worker is woken; without a request nothing changes |
| `WorkerActions.ReplenishAction` | project/src/project/Replenisher.java:38-50 | with no location nothing changes; otherwise the location is refilled when its count is 5 or less, and the worker is released either way |
| `Simulator.ParseRender` | project/src/project/Simulator.java:121-151 | every well-formed command is read back from its event line |
| `Simulator.RenderParse` | project/src/project/Simulator.java:80-91 | every line that parses is the event line of its well-formed command |
| `Simulator.ValidIffParses` | project/src/project/Simulator.java:93-100 | a line matches one of the thirteen command patterns exactly when it parses |
| `Simulator.LoaderScanValid` | project/src/project/Simulator.java:35 | "Loader Larry loads" is a valid command |
| `Simulator.GluedRoleRejected` | project/src/project/Simulator.java:20-39 | "LoaderLarry loads" is not a valid command |
| `Simulator.WorkerExists` | project/src/project/Simulator.java:249-260 | false exactly for an unknown id, true exactly for an id of the named role, and null exactly for an id of another role |
| `Simulator.CreateWorker` | project/src/project/Simulator.java:159-176 | a new idle worker of the named role is filed under its id; nothing else changes |
| `Simulator.Execute` | project/src/project/Simulator.java:121-151 | an order line is processed as an order; `ready` adds the id when it is new; any other action is ignored for an unknown id and throws for an id of another role |
| `Simulator.Step` | project/src/project/Simulator.java:80-91 | an invalid line changes nothing, and a valid line runs its parsed command |
| `Simulator.RunAppend` | project/src/project/Simulator.java:68-73 | running two event lists in turn is running their concatenation |
| `Simulator.InvalidLinesIgnored` | project/src/project/Simulator.java:88-90 | an invalid line can be removed from an event file without changing the outcome |
| `Simulator.Simulate` | project/src/project/Simulator.java:68-75 | the final state is the run's result, whose location table is the initial one; `final.csv` holds exactly one line `location,amount` for each location whose SKU is not at 30 in that state, and no line twice |
| `Simulator.Init` | project/src/project/Simulator.java:49-54 | construction fails exactly when the translation table is empty; it otherwise yields empty queues, no workers and the initialised ledger; the replenish queue holds one location per SKU at 5 or less, every such SKU's location, and nothing else |
| `Simulator.InitQueuesLowStock` | project/src/project/InventoryManager.java:42-44 | after construction every SKU at 5 or less has its location in the replenish queue |
| `Simulator.ReadyCreatesWorker` | project/src/project/Simulator.java:125-131 | `ready` from a new id creates the worker, which then asks for work |
| `Simulator.NewPickerWithNothingToPickWaits` | project/src/project/Worker.java:82-85 | a new picker with nothing to pick is filed idle at the back of the picker queue |
| `Simulator.ReadyKeepsExistingWorker` | project/src/project/Simulator.java:126-131 | `ready` never replaces an existing worker, even one of another role; a busy worker ignores it |
| `Simulator.UnknownOrderIgnored` | project/src/project/Simulator.java:112-115 | an order line for a pair not in the translation table changes nothing |
| `Simulator.ActionFromOtherRole` | project/src/project/Simulator.java:133-150 | an action naming an id of another role ends the run with a null-pointer failure; one naming an unknown id is skipped |
| `Simulator.VerbDispatch` | project/src/project/Simulator.java:178-238 | each verb reaches its own operation: `picks` → pick; `to Marshaling` → the picker's send; `sequences`/`loads` → check; `rescans`, `rejects`, `approves` → rescan, repick and the role's own approval; `replenishes` → replenish |

## Left out

- File reading and writing, logging, `System.out`, and `Main` are not modelled.
  - The input files are given as parsed rows and lines.
  - `final.csv` is returned as a list of lines.
  - `orders.csv` is a string the model appends to.
- `HashMap` iteration order is unspecified in Java. It is a parameter (`keyOrder`, `locOrder`) wherever the code iterates a map: `checkAllFasciaLevels` and `saveInventory`. Only the order is left open: `Simulator.Init` and `Simulator.Simulate` require each parameter to list every key of its map exactly once (`Inventory.Enumerates`), as a key or entry set does.
- Parsing of raw CSV text (`substring`, `Integer.parseInt`, `split(",")`) is not modelled. The tables arrive already split into fields. One `Inventory.Row` feeds both readers of the traversal table: `genLocMap` takes the SKU as the text after the eighth character, while `optimize` takes the fifth comma-separated field. The model assumes these agree, which holds when every location is seven characters holding three commas and no SKU contains a comma.
- A line of the initial-stock file whose location is not in the traversal table is excluded by a precondition of `Inventory.Initialise`. In Java it would store an amount under a null key. When that amount is 5 or less, the constructor would also crash: `checkAllFasciaLevels` passes the null location to `sendToReplenish`, and `ArrayDeque.add` throws on null (RequestManager.java:128).
- Inventory counts are unbounded integers. Stock can go negative, as in Java, but 32-bit overflow of a stock count is not modelled.
- `Orders.OrderIdsConsecutive`: requires that the counter does not pass the top of the `int` range. Wrap-around itself is modelled by `JavaInt.Inc` and stated by `JavaInt.IncWraps`.
- Two requests with the same id are not modelled. That would need the request counter to wrap all the way round. The request store is a map by id.
- `new PickingRequest(int)` leaves the order group and SKU lists null. `Orders.BareRequest` uses empty lists instead, and no simulator command builds such a request.
- `Failure(Dangling)` stands for a queued id that names no worker, or no request, of the expected kind. Java's typed deques and object references rule this out, and simulator commands cannot produce it.
- Unreachable Java branches are not modelled:
  - `WorkerManager.enqueueWorker`'s "not a known worker class" branch is reachable only as `WorkerPool.Enqueue` with `None`.
  - The `default` branches of `createWorker`, `parseWorkerCommand` and the two checker parsers cannot be reached: every line that passes `isValidCommand` names one of the four roles and one of that role's verbs.
- The Java regular expressions are modelled as sequences of tokens over the line split on single spaces. This is exact for these anchored patterns, whose words are `\w+` or literals.
- The Javadoc of `Order.toString` speaks of a line separator. The code writes none, and the model follows the code: `completeRequest` appends the orders' texts with nothing between them.
- The Javadoc of `completeRequest` suggests a mismatched request is put back. The code only logs the mismatch and pops the load order anyway, and the model follows the code.
- `Simulator.Init`: the static counters `Order.nextId` and `PickingRequest.nextId` are parameters rather than fixed at 1: they are static fields that outlive one simulator, and `Order.setNextId` can reset the first.
- `WorkerActions.Check`: states only the checker-side effect and the frame. The checker's step itself is stated by `Workers.CheckStep`.
- `WorkerActions.RescanAction`: states only that the checker alone is rescanned. The rescan itself is stated by `Workers.Rescan`.
- `RequestManager.RequestTask`: states a frame (only the requesting role's state changes). What the worker takes is stated per role by `PickerRequestTask`, `SequencerRequestTask`, `LoaderRequestTask` and `ReplenisherRequestTask`.
- `RequestManager.DoNextTask`: states that a busy worker ignores the call, and a frame otherwise. An idle worker's effect is stated by the four per-role lemmas above.
- `RequestManager.Wake`: states the empty-queue case and a frame. The woken worker's effect is stated by `RequestManager.IdlePickerClaimsAtOnce` and `RequestManager.LoaderWaitsForLoadOrder`.
- `Simulator.Act` and `Simulator.Run` carry only the id invariant and `TablesKept` (no location or SKU is added or removed). Dispatch is stated by `Simulator.VerbDispatch`, and running by `RunAppend` and `InvalidLinesIgnored`.
