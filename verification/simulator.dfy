/** `Simulator`: building the warehouse from its tables, recognising the
    commands of an event file, and handing each one to the order manager
    or to the worker it names. */
module Simulator {
  import opened Wrappers
  import opened JavaInt
  import opened Text
  import opened Workers
  import opened WorkerPool
  import opened RequestManager
  import opened WorkerActions
  import opened OrderIntake
  import Inv = Inventory
  import OM = OrderManager
  import PQ = PriorityQueue

  /** One element of a command pattern: a fixed word, any of the four role
      names, or a match of `\w+`. */
  datatype Token = Lit(text: string) | AnyRole | AnyWord

  /** The command patterns, in the order they are tried. Every pattern is
      anchored at both ends and its words are separated by single spaces,
      so a pattern is a sequence of tokens. */
  const Patterns: seq<seq<Token>> := [
    [Lit("Order"), AnyWord, AnyWord],
    [AnyRole, AnyWord, Lit("ready")],
    [Lit("Picker"), AnyWord, Lit("picks"), AnyWord],
    [Lit("Picker"), AnyWord, Lit("to"), Lit("Marshaling")],
    [Lit("Sequencer"), AnyWord, Lit("sequences")],
    [Lit("Sequencer"), AnyWord, Lit("rescans")],
    [Lit("Sequencer"), AnyWord, Lit("rejects")],
    [Lit("Sequencer"), AnyWord, Lit("approves")],
    [Lit("Loader"), AnyWord, Lit("loads")],
    [Lit("Loader"), AnyWord, Lit("rescans")],
    [Lit("Loader"), AnyWord, Lit("rejects")],
    [Lit("Loader"), AnyWord, Lit("approves")],
    [Lit("Replenisher"), AnyWord, Lit("replenishes")]]

  predicate TokenMatches(t: Token, word: string)
  {
    match t
    case Lit(text) => word == text
    case AnyRole => RoleOf(word).Some?
    case AnyWord => IsWord(word)
  }

  /** `words` is exactly the pattern's sequence of tokens. */
  predicate Matches(p: seq<Token>, words: seq<string>)
  {
    |words| == |p| && forall i :: 0 <= i < |p| ==> TokenMatches(p[i], words[i])
  }

  /** `isValidCommand`: some pattern matches the whole command. */
  predicate IsValidCommand(c: string)
  {
    exists k :: 0 <= k < |Patterns| && Matches(Patterns[k], Split(c, ' '))
  }

  /** What a worker command asks of the worker. `Scans` is `sequences` for
      a sequencer and `loads` for a loader. */
  datatype Action = Ready | PickFascia(sku: string) | ToMarshaling | Scans | Rescans | Rejects | Approves | Replenishes

  /** A recognised command. An order names the model before the colour. */
  datatype Command =
    | OrderCommand(model: string, colour: string)
    | WorkerCommand(role: Role, id: string, action: Action)

  /** Which actions each role accepts. */
  predicate Allowed(role: Role, a: Action)
  {
    match a
    case Ready => true
    case PickFascia(sku) => role == Picker && IsWord(sku)
    case ToMarshaling => role == Picker
    case Scans => role == Sequencer || role == Loader
    case Rescans => role == Sequencer || role == Loader
    case Rejects => role == Sequencer || role == Loader
    case Approves => role == Sequencer || role == Loader
    case Replenishes => role == Replenisher
  }

  /** A command some event line can express. */
  predicate WellFormed(cmd: Command)
  {
    match cmd
    case OrderCommand(model, colour) => IsWord(model) && IsWord(colour)
    case WorkerCommand(role, id, a) => IsWord(id) && Allowed(role, a)
  }

  /** The words after the worker's id. */
  function ActionWords(role: Role, a: Action): seq<string>
  {
    match a
    case Ready => ["ready"]
    case PickFascia(sku) => ["picks", sku]
    case ToMarshaling => ["to", "Marshaling"]
    case Scans => if role == Sequencer then ["sequences"] else ["loads"]
    case Rescans => ["rescans"]
    case Rejects => ["rejects"]
    case Approves => ["approves"]
    case Replenishes => ["replenishes"]
  }

  function CommandWords(cmd: Command): seq<string>
  {
    match cmd
    case OrderCommand(model, colour) => ["Order", model, colour]
    case WorkerCommand(role, id, a) => [TypeName(role), id] + ActionWords(role, a)
  }

  /** The event line for a command. */
  function Render(cmd: Command): string
  {
    Join(CommandWords(cmd), " ")
  }

  function ParseAction(role: Role, rest: seq<string>): Option<Action>
  {
    if rest == ["ready"] then Some(Ready)
    else
      match role
      case Picker =>
        if |rest| == 2 && rest[0] == "picks" && IsWord(rest[1]) then Some(PickFascia(rest[1]))
        else if rest == ["to", "Marshaling"] then Some(ToMarshaling)
        else None
      case Sequencer =>
        if rest == ["sequences"] then Some(Scans) else CheckerAction(rest)
      case Loader =>
        if rest == ["loads"] then Some(Scans) else CheckerAction(rest)
      case Replenisher =>
        if rest == ["replenishes"] then Some(Replenishes) else None
  }

  /** The three verbs sequencers and loaders share. */
  function CheckerAction(rest: seq<string>): Option<Action>
  {
    if rest == ["rescans"] then Some(Rescans)
    else if rest == ["rejects"] then Some(Rejects)
    else if rest == ["approves"] then Some(Approves)
    else None
  }

  /** The command a line's space-separated words express; None for a
      line the simulator rejects. */
  function ParseWords(ws: seq<string>): Option<Command>
  {
    if |ws| == 3 && ws[0] == "Order" && IsWord(ws[1]) && IsWord(ws[2]) then
      Some(OrderCommand(ws[1], ws[2]))
    else if |ws| < 3 || RoleOf(ws[0]).None? || !IsWord(ws[1]) then None
    else
      match ParseAction(RoleOf(ws[0]).value, ws[2..])
      case None => None
      case Some(a) => Some(WorkerCommand(RoleOf(ws[0]).value, ws[1], a))
  }

  /** The command an event line expresses. */
  function Parse(c: string): Option<Command>
  {
    ParseWords(Split(c, ' '))
  }

  lemma WordHasNoSpace(w: string)
    requires IsWord(w)
    ensures ' ' !in w
  {
  }

  /** The words of a well-formed command contain no space, so splitting
      its line gives them back. */
  lemma SplitRender(cmd: Command)
    requires WellFormed(cmd)
    ensures Split(Render(cmd), ' ') == CommandWords(cmd)
  {
    var ws := CommandWords(cmd);
    match cmd {
      case OrderCommand(model, colour) =>
        WordHasNoSpace(model);
        WordHasNoSpace(colour);
      case WorkerCommand(role, id, a) =>
        WordHasNoSpace(id);
        if a.PickFascia? {
          WordHasNoSpace(a.sku);
        }
    }
    assert forall i :: 0 <= i < |ws| ==> ' ' !in ws[i];
    SplitJoin(ws, ' ');
  }

  /** An allowed action's words read back as the action. */
  lemma ParseActionWords(role: Role, a: Action)
    requires Allowed(role, a)
    ensures ParseAction(role, ActionWords(role, a)) == Some(a)
  {
    match a {
      case Ready =>
      case PickFascia(sku) =>
      case ToMarshaling =>
      case Scans =>
      case Rescans =>
      case Rejects =>
      case Approves =>
      case Replenishes =>
    }
  }

  /** Every well-formed command is read back from its event line. */
  lemma ParseRender(cmd: Command)
    requires WellFormed(cmd)
    ensures Parse(Render(cmd)) == Some(cmd)
  {
    SplitRender(cmd);
    var ws := CommandWords(cmd);
    if cmd.WorkerCommand? {
      RoleOfTypeName(cmd.role);
      assert ws[2..] == ActionWords(cmd.role, cmd.action);
      ParseActionWords(cmd.role, cmd.action);
    }
  }

  /** Every line that parses is the rendering of a well-formed command. */
  lemma RenderParse(c: string)
    requires Parse(c).Some?
    ensures WellFormed(Parse(c).value)
    ensures Render(Parse(c).value) == c
  {
    var ws := Split(c, ' ');
    var cmd := Parse(c).value;
    if cmd.WorkerCommand? {
      assert ws == [ws[0], ws[1]] + ws[2..];
    }
    assert CommandWords(cmd) == ws;
    JoinSplit(c, ' ');
  }

  /** The index of the pattern a worker command matches. */
  function PatternOf(role: Role, a: Action): (k: nat)
    ensures 1 <= k < |Patterns|
  {
    match a
    case Ready => 1
    case PickFascia(_) => 2
    case ToMarshaling => 3
    case Scans => if role == Sequencer then 4 else 8
    case Rescans => if role == Sequencer then 5 else 9
    case Rejects => if role == Sequencer then 6 else 10
    case Approves => if role == Sequencer then 7 else 11
    case Replenishes => 12
  }

  /** Words some pattern matches parse. */
  lemma MatchParses(k: nat, ws: seq<string>)
    requires k < |Patterns| && Matches(Patterns[k], ws)
    ensures ParseWords(ws).Some?
  {
    var p := Patterns[k];
    assert TokenMatches(p[0], ws[0]) && TokenMatches(p[1], ws[1]) && TokenMatches(p[2], ws[2]);
    if |p| == 4 {
      assert TokenMatches(p[3], ws[3]);
    }
    if k >= 1 {
      assert ws[0] != "Order";
    }
  }

  /** The words an action is parsed from are the action's words. */
  lemma ParsedAction(role: Role, rest: seq<string>)
    requires ParseAction(role, rest).Some?
    ensures Allowed(role, ParseAction(role, rest).value)
    ensures rest == ActionWords(role, ParseAction(role, rest).value)
  {
  }

  /** The words of a worker command match the pattern `PatternOf` names. */
  lemma WorkerWordsMatch(role: Role, id: string, a: Action)
    requires IsWord(id) && Allowed(role, a)
    ensures Matches(Patterns[PatternOf(role, a)], [TypeName(role), id] + ActionWords(role, a))
  {
    var ws := [TypeName(role), id] + ActionWords(role, a);
    var p := Patterns[PatternOf(role, a)];
    RoleOfTypeName(role);
    assert TokenMatches(p[0], ws[0]) && TokenMatches(p[1], ws[1]) && TokenMatches(p[2], ws[2]);
    if a.PickFascia? || a.ToMarshaling? {
      assert TokenMatches(p[3], ws[3]);
    }
  }

  /** Words that parse match the pattern of their command. */
  lemma ParsedMatches(ws: seq<string>)
    requires ParseWords(ws).Some?
    ensures var cmd := ParseWords(ws).value;
      Matches(Patterns[if cmd.OrderCommand? then 0 else PatternOf(cmd.role, cmd.action)], ws)
  {
    var cmd := ParseWords(ws).value;
    if cmd.WorkerCommand? {
      ParsedAction(cmd.role, ws[2..]);
      assert ws == [ws[0], ws[1]] + ws[2..];
      assert ws[0] == TypeName(cmd.role);
      WorkerWordsMatch(cmd.role, cmd.id, cmd.action);
    }
  }

  /** A line is a valid command exactly when it parses. */
  lemma ValidIffParses(c: string)
    ensures IsValidCommand(c) <==> Parse(c).Some?
  {
    var ws := Split(c, ' ');
    if IsValidCommand(c) {
      var k :| 0 <= k < |Patterns| && Matches(Patterns[k], ws);
      MatchParses(k, ws);
    }
    if Parse(c).Some? {
      ParsedMatches(ws);
    }
  }

  /** A loader's scan line is a valid command. */
  lemma LoaderScanValid()
    ensures IsValidCommand("Loader Larry loads")
  {
    var cmd := WorkerCommand(Loader, "Larry", Scans);
    assert IsWord("Larry");
    assert Render(cmd) == "Loader Larry loads";
    ParseRender(cmd);
    ValidIffParses("Loader Larry loads");
  }

  /** The same line with the role and the id glued together is not. */
  lemma GluedRoleRejected()
    ensures !IsValidCommand("LoaderLarry loads")
  {
    assert Join(["LoaderLarry", "loads"], " ") == "LoaderLarry loads";
    SplitJoin(["LoaderLarry", "loads"], ' ');
    ValidIffParses("LoaderLarry loads");
  }

  /** `workerExists(id, type)`: Some(false) when no worker is filed under
      `id`, Some(true) when one of role `role` is, and None (a null Boolean)
      when the id belongs to a worker of another role. */
  function WorkerExists(wh: Warehouse, id: string, role: Role): (r: Option<bool>)
    ensures r == Some(false) <==> id !in wh.workers
    ensures r == Some(true) <==> id in wh.workers && wh.workers[id].role == role
    ensures r.None? <==> id in wh.workers && wh.workers[id].role != role
  {
    if id !in wh.workers then Some(false)
    else if wh.workers[id].role == role then Some(true)
    else None
  }

  /** `createWorker(id, type)`: a new idle worker filed under its id. */
  function CreateWorker(wh: Warehouse, id: string, role: Role): (r: Warehouse)
    requires IdsMatch(wh)
    ensures IdsMatch(r)
    ensures r.workers.Keys == wh.workers.Keys + {id}
    ensures Idle(r.workers[id]) && r.workers[id].role == role && r.workers[id].identity == id
    ensures forall other :: other in wh.workers && other != id ==> r.workers[other] == wh.workers[other]
    ensures r.pool == wh.pool && r.requests == wh.requests
  {
    wh.(workers := wh.workers[id := NewWorker(id, role)])
  }

  /** `parseWorkerCommand`. `ready` creates the worker when the id is new
      and then asks the worker filed under the id for its next task, even
      when that worker has another role. Any other action is ignored for
      an unknown id and unboxes a null Boolean for an id of another role. */
  function Execute(wh: Warehouse, cmd: Command): (r: Result<Warehouse>)
    requires IdsMatch(wh) && WellFormed(cmd)
    ensures r.Success? ==> TablesKept(wh, r.value)
    ensures r.Success? ==> IdsMatch(r.value)
    ensures cmd.OrderCommand? ==> r == ProcessOrder(wh, cmd.colour, cmd.model)
    ensures cmd.WorkerCommand? && r.Success? ==>
      r.value.workers.Keys == if cmd.action == Ready then wh.workers.Keys + {cmd.id} else wh.workers.Keys
    ensures cmd.WorkerCommand? && cmd.action != Ready ==>
      (cmd.id !in wh.workers ==> r == Success(wh))
      && (cmd.id in wh.workers && wh.workers[cmd.id].role != cmd.role ==> r == Failure(NullPointer))
  {
    match cmd
    case OrderCommand(model, colour) => ProcessOrder(wh, colour, model)
    case WorkerCommand(role, id, Ready) =>
      var wh1 := if WorkerExists(wh, id, role) == Some(false) then CreateWorker(wh, id, role) else wh;
      (match DoNextTask(wh1, id)
       case Failure(f) => Failure(f)
       case Success(wh2) =>
         FrameKeepsIds(wh1, wh2, wh1.workers[id].role);
         Success(wh2))
    case WorkerCommand(role, id, a) =>
      match WorkerExists(wh, id, role)
      case None => Failure(NullPointer)
      case Some(false) => Success(wh)
      case Some(true) => Act(wh, role, id, a)
  }

  /** The action of a worker of the named role, `parsePickerCommand`,
      `parseSequencerCommand`, `parseLoaderCommand` and
      `parseReplenisherCommand` together. */
  function Act(wh: Warehouse, role: Role, id: string, a: Action): (r: Result<Warehouse>)
    requires IdsMatch(wh) && id in wh.workers && wh.workers[id].role == role
    requires Allowed(role, a) && a != Ready
    ensures r.Success? ==> TablesKept(wh, r.value)
    ensures r.Success? ==> IdsMatch(r.value) && r.value.workers.Keys == wh.workers.Keys
  {
    match a
    case PickFascia(sku) => Pick(wh, id, sku)
    case ToMarshaling => PickerSendNext(wh, id)
    case Scans => Check(wh, id)
    case Rescans => Success(RescanAction(wh, id))
    case Rejects => SendToRepick(wh, id)
    case Approves => if role == Sequencer then SequencerApprove(wh, id) else LoaderApprove(wh, id)
    case Replenishes => ReplenishAction(wh, id)
  }

  /** `parseCommand`: a line that is not a valid command changes nothing. */
  function Step(wh: Warehouse, c: string): (r: Result<Warehouse>)
    requires IdsMatch(wh)
    ensures r.Success? ==> TablesKept(wh, r.value)
    ensures r.Success? ==> IdsMatch(r.value)
    ensures !IsValidCommand(c) ==> r == Success(wh)
    ensures IsValidCommand(c) ==>
      Parse(c).Some? && WellFormed(Parse(c).value) && r == Execute(wh, Parse(c).value)
  {
    ValidIffParses(c);
    var parsed := Parse(c);
    if parsed.None? then Success(wh)
    else
      RenderParse(c);
      Execute(wh, parsed.value)
  }

  /** The loop of `runSimulation`: the lines in order, stopping at the
      first exception. */
  function Run(wh: Warehouse, lines: seq<string>): (r: Result<Warehouse>)
    requires IdsMatch(wh)
    ensures r.Success? ==> TablesKept(wh, r.value)
    ensures r.Success? ==> IdsMatch(r.value)
    decreases |lines|
  {
    if |lines| == 0 then Success(wh)
    else
      match Step(wh, lines[0])
      case Failure(f) => Failure(f)
      case Success(wh1) => Run(wh1, lines[1..])
  }

  /** Running two event files one after the other is running their
      concatenation. */
  lemma {:induction false} RunAppend(wh: Warehouse, a: seq<string>, b: seq<string>)
    requires IdsMatch(wh)
    ensures Run(wh, a + b) ==
      match Run(wh, a)
      case Failure(f) => Failure(f)
      case Success(wh1) => Run(wh1, b)
    decreases |a|
  {
    if |a| == 0 {
      assert a + b == b;
    } else {
      assert (a + b)[1..] == a[1..] + b;
      match Step(wh, a[0])
      case Failure(_) =>
      case Success(wh1) => RunAppend(wh1, a[1..], b);
    }
  }

  /** Lines that are not valid commands can be dropped from an event file
      without changing the outcome. */
  lemma {:induction false} InvalidLinesIgnored(wh: Warehouse, a: seq<string>, bad: string, b: seq<string>)
    requires IdsMatch(wh) && !IsValidCommand(bad)
    ensures Run(wh, a + [bad] + b) == Run(wh, a + b)
  {
    RunAppend(wh, a + [bad], b);
    RunAppend(wh, a, [bad]);
    RunAppend(wh, a, b);
    match Run(wh, a)
    case Failure(_) =>
    case Success(wh1) =>
      assert Run(wh1, [bad]) == Success(wh1) by {
        assert [bad][1..] == [];
      }
  }

  /** `runSimulation`: the final state and the lines of `final.csv`, the
      locations visited once each in `locOrder`, the iteration order of
      the location table. The file holds one line `location,amount` for
      each location whose SKU is not at 30 in the final state, and no other
      line. */
  function Simulate(wh: Warehouse, lines: seq<string>, locOrder: seq<string>): (r: Result<(Warehouse, seq<string>)>)
    requires IdsMatch(wh)
    requires Inv.Enumerates(locOrder, wh.ledger.skus.Keys)
    ensures r.Success? <==> Run(wh, lines).Success?
    ensures r.Success? ==>
      r.value.0 == Run(wh, lines).value && r.value.1 == Inv.SaveLines(r.value.0.ledger, locOrder)
    ensures r.Success? ==>
      var l := r.value.0.ledger;
      var out := r.value.1;
      && l.skus == wh.ledger.skus
      && |out| == |Inv.Unsaved(l)|
      && (forall loc :: loc in Inv.Unsaved(l) ==> Inv.SaveLine(loc, l.stock[l.skus[loc]]) in out)
      && (forall line :: line in out ==>
            exists loc :: loc in Inv.Unsaved(l) && line == Inv.SaveLine(loc, l.stock[l.skus[loc]]))
      && (forall i, j :: 0 <= i < j < |out| ==> out[i] != out[j])
  {
    match Run(wh, lines)
    case Failure(f) => Failure(f)
    case Success(wh1) =>
      Inv.SaveLinesExact(wh1.ledger, locOrder);
      Success((wh1, Inv.SaveLines(wh1.ledger, locOrder)))
  }

  /** The SKU column of the traversal table, in file order. */
  function TableSkus(rows: seq<Inv.Row>): (r: seq<string>)
    ensures |r| == |rows| && forall i :: 0 <= i < |rows| ==> r[i] == rows[i].sku
  {
    seq(|rows|, i requires 0 <= i < |rows| => rows[i].sku)
  }

  /** The constructor: the fascia map from the translation table, the
      ledger from the traversal table and the initial stock, and the
      locations of every SKU at or below 5 queued for replenishing (there
      is no replenisher yet, so each is only queued). `keyOrder` is the
      ledger's iteration order; the two counters are the classes' static
      ids. */
  function Init(rows: seq<Inv.Row>, translation: seq<OM.TranslationRow>, lines: seq<Inv.StockLine>,
                keyOrder: seq<string>, orderId: Int32, requestId: Int32): (r: Result<Warehouse>)
    requires forall i :: 0 <= i < |lines| ==> lines[i].location in Inv.GenLocMap(rows).0
    requires Inv.Enumerates(keyOrder, Inv.Initialise(rows, lines).stock.Keys)
    ensures r.Success? <==> |translation| > 0
    ensures r.Success? ==>
      var wh := r.value;
      && IdsMatch(wh)
      && wh.workers == map[] && wh.requests == map[] && wh.pool == EmptyPool
      && wh.buffer == [] && wh.picking == [] && wh.loadOrder == [] && wh.sequencing == []
      && wh.loading == [] && wh.ordersLog == ""
      && wh.ledger == Inv.Initialise(rows, lines)
      && wh.fasciaMap == OM.PopulateFasciaMap(translation).value
      && wh.nextOrderId == orderId && wh.nextRequestId == requestId
      && |wh.replenishQueue| == |Inv.LowSkus(wh.ledger)|
      && (forall s :: s in Inv.LowSkus(wh.ledger) ==> wh.ledger.locations[s] in wh.replenishQueue)
      && (forall loc :: loc in wh.replenishQueue ==>
            exists s :: s in Inv.LowSkus(wh.ledger) && wh.ledger.locations[s] == loc)
  {
    match OM.PopulateFasciaMap(translation)
    case Failure(f) => Failure(f)
    case Success(fm) =>
      var ledger := Inv.Initialise(rows, lines);
      Inv.CheckAllExact(ledger, keyOrder);
      Success(Warehouse(TableSkus(rows), fm, orderId, requestId, [], ledger, [], [], [], [],
                        Inv.CheckAllFasciaLevels(ledger, keyOrder), EmptyPool, map[], map[], ""))
  }

  /** After construction every SKU at or below 5 has its location waiting
      in the replenish queue. */
  lemma InitQueuesLowStock(rows: seq<Inv.Row>, translation: seq<OM.TranslationRow>, lines: seq<Inv.StockLine>,
                           keyOrder: seq<string>, orderId: Int32, requestId: Int32, s: string)
    requires forall i :: 0 <= i < |lines| ==> lines[i].location in Inv.GenLocMap(rows).0
    requires Inv.Enumerates(keyOrder, Inv.Initialise(rows, lines).stock.Keys)
    requires |translation| > 0
    requires s in Inv.Initialise(rows, lines).stock && Inv.Initialise(rows, lines).stock[s] <= Inv.LOW_STOCK
    ensures var wh := Init(rows, translation, lines, keyOrder, orderId, requestId).value;
      wh.ledger.locations[s] in wh.replenishQueue
  {
    Inv.CheckAllFindsEveryLowSku(Inv.Initialise(rows, lines), keyOrder, s);
  }

  /** `ready` from a new id: the worker is created idle and asks for work
      at once. */
  lemma ReadyCreatesWorker(wh: Warehouse, role: Role, id: string)
    requires IdsMatch(wh) && IsWord(id) && id !in wh.workers
    ensures Execute(wh, WorkerCommand(role, id, Ready)) == DoNextTask(CreateWorker(wh, id, role), id)
  {
  }

  /** A new picker with nothing to pick is filed idle and queued behind the
      pickers already waiting. */
  lemma NewPickerWithNothingToPickWaits(wh: Warehouse, id: string)
    requires IdsMatch(wh) && IsWord(id) && id !in wh.workers && |wh.picking| == 0
    ensures var r := Execute(wh, WorkerCommand(Picker, id, Ready));
      && r.Success?
      && r.value.workers == wh.workers[id := NewWorker(id, Picker)]
      && r.value.pool.pickers == wh.pool.pickers + [id]
  {
    var wh1 := CreateWorker(wh, id, Picker);
    PickerRequestTask(wh1, id);
    var wh2 := DoNextTask(wh1, id).value;
    assert wh2.workers[id] == NewWorker(id, Picker);
    assert wh2.workers == wh1.workers;
  }

  /** `ready` from a worker already filed under the id never replaces it:
      a busy worker ignores it, and an idle one of any role asks for its
      own next task. */
  lemma ReadyKeepsExistingWorker(wh: Warehouse, role: Role, id: string)
    requires IdsMatch(wh) && IsWord(id) && id in wh.workers
    ensures Execute(wh, WorkerCommand(role, id, Ready)) == DoNextTask(wh, id)
    ensures !wh.workers[id].available ==> Execute(wh, WorkerCommand(role, id, Ready)) == Success(wh)
  {
  }

  /** An order line with a pair the translation table does not list
      changes nothing. */
  lemma UnknownOrderIgnored(wh: Warehouse, model: string, colour: string)
    requires IdsMatch(wh) && IsWord(model) && IsWord(colour)
    requires !OM.ValidOrder(wh.fasciaMap, colour, model)
    ensures Step(wh, Render(OrderCommand(model, colour))) == Success(wh)
  {
    ParseRender(OrderCommand(model, colour));
    ValidIffParses(Render(OrderCommand(model, colour)));
  }

  /** An action from an id of another role crashes the run; from an
      unknown id it is ignored. */
  lemma ActionFromOtherRole(wh: Warehouse, cmd: Command, rest: seq<string>)
    requires IdsMatch(wh) && WellFormed(cmd) && cmd.WorkerCommand? && cmd.action != Ready
    ensures cmd.id in wh.workers && wh.workers[cmd.id].role != cmd.role ==>
      Run(wh, [Render(cmd)] + rest) == Failure(NullPointer)
    ensures cmd.id !in wh.workers ==>
      Run(wh, [Render(cmd)] + rest) == Run(wh, rest)
  {
    ParseRender(cmd);
    ValidIffParses(Render(cmd));
    assert ([Render(cmd)] + rest)[1..] == rest;
  }

  /** An event line from a known worker of the named role reaches the
      operation its verb names: `picks` the pick, `to Marshaling` the
      picker's hand-over, `sequences`/`loads` the check, `rescans`,
      `rejects` and `approves` the checker's three outcomes (the approval
      being the sequencer's or the loader's), `replenishes` the refill. */
  lemma VerbDispatch(wh: Warehouse, role: Role, id: string, a: Action)
    requires IdsMatch(wh) && IsWord(id) && Allowed(role, a) && a != Ready
    requires id in wh.workers && wh.workers[id].role == role
    ensures var r := Step(wh, Render(WorkerCommand(role, id, a)));
      && (a.PickFascia? ==> r == Pick(wh, id, a.sku))
      && (a == ToMarshaling ==> r == PickerSendNext(wh, id))
      && (a == Scans ==> r == Check(wh, id))
      && (a == Rescans ==> r == Success(RescanAction(wh, id)))
      && (a == Rejects ==> r == SendToRepick(wh, id))
      && (a == Approves && role == Sequencer ==> r == SequencerApprove(wh, id))
      && (a == Approves && role == Loader ==> r == LoaderApprove(wh, id))
      && (a == Replenishes ==> r == ReplenishAction(wh, id))
  {
    var cmd := WorkerCommand(role, id, a);
    ParseRender(cmd);
    ValidIffParses(Render(cmd));
  }
}
