/** The state one worker keeps (`Worker` with the extra fields of `Picker`
    and `CheckerWorker`) and the steps that touch only that state. Steps
    that also touch the queues, the ledger or a request live in
    `WorkerActions`. */
module Workers {
  import opened Wrappers
  import opened Text

  /** Number of fascias in a picking request: the picker is done and the
      checker stops at this cursor. */
  const FASCIAS: nat := 8

  /** The four concrete subclasses of `Worker`. */
  datatype Role = Picker | Sequencer | Loader | Replenisher

  /** The `type` string each subclass stores. */
  function TypeName(role: Role): string
  {
    match role
    case Picker => "Picker"
    case Sequencer => "Sequencer"
    case Loader => "Loader"
    case Replenisher => "Replenisher"
  }

  /** The role a command's first token names, if any: the inverse of
      `TypeName`. */
  function RoleOf(s: string): (r: Option<Role>)
    ensures r.Some? ==> TypeName(r.value) == s
    ensures r.None? ==> forall role: Role :: TypeName(role) != s
  {
    if s == "Picker" then Some(Picker)
    else if s == "Sequencer" then Some(Sequencer)
    else if s == "Loader" then Some(Loader)
    else if s == "Replenisher" then Some(Replenisher)
    else None
  }

  /** Role names and roles are in one-to-one correspondence. */
  lemma RoleOfTypeName(role: Role)
    ensures RoleOf(TypeName(role)) == Some(role)
  {
  }

  /** A worker. `request` is the id of `currReq` (None for null),
      `location` is `replenisherReq`, `cursor` is `currIndex`. `path` is the
      picker's `optPath` (empty for null), and `valid` is the checker's
      `validFascias`, where None stands for a nulled entry. The checker's
      `expectedFascias` and `givenFascias` are the very lists of the held
      request, so they are read from the request when needed. */
  datatype Worker = Worker(
    identity: string,
    role: Role,
    available: bool,
    request: Option<int>,
    location: string,
    cursor: nat,
    path: seq<string>,
    donePicking: bool,
    valid: seq<Option<bool>>)

  /** Waiting for work: available, no request, no location, cursor 0. */
  predicate Idle(w: Worker)
  {
    w.available && w.request.None? && w.location == "" && w.cursor == 0
  }

  /** The constructor of each subclass. */
  function NewWorker(identity: string, role: Role): (w: Worker)
    ensures Idle(w)
    ensures w.identity == identity && w.role == role
    ensures !w.donePicking && w.valid == []
  {
    Worker(identity, role, true, None, "", 0, [], false, [])
  }

  /** `finishTask`: the worker is idle again. The picker's path and flag and
      the checker's results are left as they were. */
  function FinishTask(w: Worker): (w': Worker)
    ensures Idle(w')
    ensures w'.identity == w.identity && w'.role == w.role
    ensures w'.path == w.path && w'.donePicking == w.donePicking && w'.valid == w.valid
  {
    w.(available := true, request := None, location := "", cursor := 0)
  }

  /** The words of `toString`: role and identity, then what the worker is
      busy with. A busy non-replenisher without a request would dereference
      null. */
  function Words(w: Worker): Result<seq<string>>
  {
    var head := [TypeName(w.role), w.identity];
    if w.available then Success(head)
    else if w.role == Replenisher then Success(head + ["replenishing", "location:", w.location])
    else if w.request.None? then Failure(NullPointer)
    else Success(head + ["working", "on", "PickingRequest", "#" + IntToString(w.request.value)])
  }

  /** `toString`: the words separated by single spaces. */
  function ToString(w: Worker): Result<string>
  {
    match Words(w)
    case Failure(f) => Failure(f)
    case Success(words) => Success(Join(words, " "))
  }

  /** Splitting the text of `toString` on spaces gives back the role, the
      identity and, for a busy picker or checker, "working on
      PickingRequest #<id>"; it fails only for a busy non-replenisher
      without a request. */
  lemma ToStringFields(w: Worker)
    requires ' ' !in w.identity
    ensures ToString(w).Failure? <==> !w.available && w.role != Replenisher && w.request.None?
    ensures w.available ==> Split(ToString(w).value, ' ') == [TypeName(w.role), w.identity]
    ensures !w.available && w.role != Replenisher && w.request.Some? ==> (Split(ToString(w).value, ' ') ==
      [TypeName(w.role), w.identity, "working", "on", "PickingRequest", "#" + IntToString(w.request.value)])
  {
    assert ' ' !in TypeName(w.role);
    if w.available {
      SplitJoin(Words(w).value, ' ');
    } else if w.role != Replenisher && w.request.Some? {
      var n := "#" + IntToString(w.request.value);
      assert ' ' !in n by {
        assert forall k :: 0 <= k < |n| ==> n[k] != ' ';
      }
      var ws := [TypeName(w.role), w.identity, "working", "on", "PickingRequest", n];
      assert [TypeName(w.role), w.identity] + ["working", "on", "PickingRequest", n] == ws;
      SplitJoin(ws, ' ');
    }
  }

  /** A busy replenisher prints "replenishing location: <location>" after
      its role and identity, whatever request it holds. */
  lemma ToStringReplenisher(w: Worker)
    requires ' ' !in w.identity && ' ' !in w.location
    requires !w.available && w.role == Replenisher
    ensures ToString(w).Success?
    ensures Split(ToString(w).value, ' ') == ["Replenisher", w.identity, "replenishing", "location:", w.location]
  {
    var ws := ["Replenisher", w.identity, "replenishing", "location:", w.location];
    assert ["Replenisher", w.identity] + ["replenishing", "location:", w.location] == ws;
    assert Words(w) == Success(ws);
    SplitJoin(ws, ' ');
  }

  /** `clearValidFascias`: same length, every entry null. */
  function ClearValid(v: seq<Option<bool>>): (r: seq<Option<bool>>)
    ensures |r| == |v|
    ensures forall i :: 0 <= i < |r| ==> r[i].None?
  {
    seq(|v|, _ => None)
  }

  /** `check` on a checker whose `expectedFascias` and `givenFascias` are
      `expected` and `given`. It records whether the expected SKU at the
      cursor is present anywhere in `given` and advances the cursor, unless
      the worker holds no request, a false result is already recorded, or
      all eight have been checked. Indexing past `expected` throws. */
  function CheckStep(w: Worker, expected: seq<string>, given: seq<string>): (r: Result<Worker>)
    ensures w.request.None? || w.cursor >= FASCIAS || Some(false) in w.valid ==> r == Success(w)
    ensures r.Failure? <==>
      w.request.Some? && w.cursor < FASCIAS && Some(false) !in w.valid && w.cursor >= |expected|
    ensures r.Success? && r.value != w ==>
      && w.cursor < |expected|
      && r.value == w.(cursor := w.cursor + 1, valid := w.valid + [Some(expected[w.cursor] in given)])
    ensures r.Success? && w.cursor <= FASCIAS ==> r.value.cursor <= FASCIAS
  {
    if w.request.None? then Success(w)
    else if w.cursor < FASCIAS then
      if Some(false) in w.valid then Success(w)
      else if w.cursor >= |expected| then Failure(IndexOutOfBounds)
      else Success(w.(cursor := w.cursor + 1, valid := w.valid + [Some(expected[w.cursor] in given)]))
    else Success(w)
  }

  /** `rescan`: back to the first fascia with every recorded result nulled;
      the request is kept. */
  function Rescan(w: Worker): (w': Worker)
    ensures w'.cursor == 0
    ensures |w'.valid| == |w.valid| && Some(false) !in w'.valid && Some(true) !in w'.valid
    ensures w'.request == w.request && w'.available == w.available
    ensures w'.identity == w.identity && w'.role == w.role && w'.location == w.location
    ensures w'.path == w.path && w'.donePicking == w.donePicking
  {
    var v := ClearValid(w.valid);
    assert Some(false) !in v && Some(true) !in v by {
      forall i | 0 <= i < |v| ensures v[i].None? { }
    }
    w.(cursor := 0, valid := v)
  }

  /** `n` successive `check` calls. */
  function Checks(w: Worker, expected: seq<string>, given: seq<string>, n: nat): Result<Worker>
    decreases n
  {
    if n == 0 then Success(w)
    else
      match CheckStep(w, expected, given)
      case Failure(f) => Failure(f)
      case Success(w1) => Checks(w1, expected, given, n - 1)
  }

  /** `k` true results. */
  function Trues(k: nat): (r: seq<Option<bool>>)
    ensures |r| == k && forall i :: 0 <= i < k ==> r[i] == Some(true)
  {
    seq(k, _ => Some(true))
  }

  /** After a false result further checks change nothing. */
  lemma {:induction false} ChecksBlocked(w: Worker, expected: seq<string>, given: seq<string>, n: nat)
    requires Some(false) in w.valid
    ensures Checks(w, expected, given, n) == Success(w)
    decreases n
  {
    if n > 0 {
      ChecksBlocked(w, expected, given, n - 1);
    }
  }

  /** When every expected SKU from the cursor on is present, `n` checks
      record `n` true results, up to the eighth, and stop there. */
  lemma {:induction false} ChecksAllPresent(w: Worker, expected: seq<string>, given: seq<string>, n: nat)
    requires w.request.Some? && w.cursor <= FASCIAS <= |expected|
    requires Some(false) !in w.valid
    requires forall i :: w.cursor <= i < FASCIAS ==> expected[i] in given
    ensures var k := if n < FASCIAS - w.cursor then n else FASCIAS - w.cursor;
      Checks(w, expected, given, n) == Success(w.(cursor := w.cursor + k, valid := w.valid + Trues(k)))
    decreases n
  {
    assert w.valid + Trues(0) == w.valid;
    if n > 0 {
      if w.cursor == FASCIAS {
        ChecksAllPresent(w, expected, given, n - 1);
      } else {
        var w1 := w.(cursor := w.cursor + 1, valid := w.valid + [Some(true)]);
        assert CheckStep(w, expected, given) == Success(w1);
        assert Some(false) !in w1.valid;
        ChecksAllPresent(w1, expected, given, n - 1);
        var k := if n < FASCIAS - w.cursor then n else FASCIAS - w.cursor;
        assert w.valid + [Some(true)] + Trues(k - 1) == w.valid + Trues(k);
      }
    }
  }

  /** When the first missing SKU from the cursor on is at index `k`, enough
      checks record true up to `k`, false at `k`, and then stop. */
  lemma {:induction false} ChecksStopAtMissing(w: Worker, expected: seq<string>, given: seq<string>, n: nat, k: nat)
    requires w.request.Some? && FASCIAS <= |expected|
    requires Some(false) !in w.valid
    requires w.cursor <= k < FASCIAS && expected[k] !in given
    requires forall i :: w.cursor <= i < k ==> expected[i] in given
    requires n > k - w.cursor
    ensures Checks(w, expected, given, n) ==
      Success(w.(cursor := k + 1, valid := w.valid + Trues(k - w.cursor) + [Some(false)]))
    decreases n
  {
    if w.cursor == k {
      var w1 := w.(cursor := k + 1, valid := w.valid + [Some(false)]);
      assert CheckStep(w, expected, given) == Success(w1);
      assert w1.valid[|w.valid|] == Some(false);
      ChecksBlocked(w1, expected, given, n - 1);
      assert w.valid + Trues(0) == w.valid;
    } else {
      var w1 := w.(cursor := w.cursor + 1, valid := w.valid + [Some(true)]);
      assert CheckStep(w, expected, given) == Success(w1);
      assert Some(false) !in w1.valid;
      ChecksStopAtMissing(w1, expected, given, n - 1, k);
      assert w.valid + [Some(true)] + Trues(k - w.cursor - 1) == w.valid + Trues(k - w.cursor);
    }
  }

  /** A rescan unblocks a checker that recorded a false result: the next
      check records again, from the first fascia. */
  lemma RescanUnblocks(w: Worker, expected: seq<string>, given: seq<string>)
    requires w.request.Some? && |expected| > 0
    ensures CheckStep(Rescan(w), expected, given).Success?
    ensures CheckStep(Rescan(w), expected, given).value.cursor == 1
    ensures CheckStep(Rescan(w), expected, given).value.valid ==
      Rescan(w).valid + [Some(expected[0] in given)]
  {
  }

  /** The picker's counters agree: `donePicking` holds exactly at cursor 8. */
  predicate PickerInv(w: Worker)
  {
    w.cursor <= FASCIAS && (w.donePicking <==> w.cursor == FASCIAS)
  }

  /** The picker side of `pick(sku)`: the advanced picker when the pick is
      accepted, None when nothing changes. A pick is accepted exactly when
      the picker holds a request, is not done, and `sku` is the SKU at the
      cursor of its path. `contains` is tested before `get(cursor)`, so a
      listed SKU with the cursor past the path throws, and a rejected pick
      on an empty path throws when it reads the first SKU. */
  function PickStep(w: Worker, sku: string): (r: Result<Option<Worker>>)
    ensures w.request.None? || w.donePicking ==> r == Success(None)
    ensures r.Success? && r.value.Some? <==>
      w.request.Some? && !w.donePicking && w.cursor < |w.path| && w.path[w.cursor] == sku
    ensures r.Success? && r.value.Some? ==>
      r.value.value == w.(cursor := w.cursor + 1, donePicking := w.cursor + 1 == FASCIAS)
    ensures r.Failure? <==> (w.request.Some? && !w.donePicking &&
      ((sku in w.path && w.cursor >= |w.path|) || (sku !in w.path && |w.path| == 0)))
    ensures r.Failure? ==> r.fault == IndexOutOfBounds
    ensures r.Success? && r.value.Some? && PickerInv(w) ==> PickerInv(r.value.value)
  {
    if w.request.None? then Success(None)
    else if !w.donePicking then
      if sku in w.path && w.cursor >= |w.path| then Failure(IndexOutOfBounds)
      else if sku in w.path && w.path[w.cursor] == sku then
        Success(Some(w.(cursor := w.cursor + 1, donePicking := w.cursor + 1 == FASCIAS)))
      else if |w.path| == 0 then Failure(IndexOutOfBounds)
      else Success(None)
    else Success(None)
  }

  /** Picking the path SKU by SKU from the cursor on, as the picker state
      sees it. */
  function Picks(w: Worker, skus: seq<string>): Result<Worker>
    decreases |skus|
  {
    if |skus| == 0 then Success(w)
    else
      match PickStep(w, skus[0])
      case Failure(f) => Failure(f)
      case Success(None) => Success(w)
      case Success(Some(w1)) => Picks(w1, skus[1..])
  }

  /** A picker that picks the rest of an eight-SKU path in order ends done,
      at cursor 8, with nothing else changed. */
  lemma {:induction false} PickingWholePath(w: Worker)
    requires w.request.Some? && |w.path| == FASCIAS && PickerInv(w)
    ensures Picks(w, w.path[w.cursor..]) == Success(w.(cursor := FASCIAS, donePicking := true))
    decreases FASCIAS - w.cursor
  {
    if w.cursor == FASCIAS {
      assert w.path[w.cursor..] == [];
    } else {
      var w1 := w.(cursor := w.cursor + 1, donePicking := w.cursor + 1 == FASCIAS);
      assert PickStep(w, w.path[w.cursor]) == Success(Some(w1));
      assert w.path[w.cursor..][1..] == w1.path[w1.cursor..];
      PickingWholePath(w1);
    }
  }

  /** A path shorter than eight, which `optimize` returns when a SKU is
      missing from the traversal table, can never be finished: accepted
      picks stop at the end of the path, and once there, picking any SKU
      of the path throws. */
  lemma ShortPathNeverDone(w: Worker, sku: string)
    requires w.request.Some? && PickerInv(w) && |w.path| < FASCIAS && w.cursor <= |w.path|
    ensures PickStep(w, sku).Success? && PickStep(w, sku).value.Some? ==>
      && PickStep(w, sku).value.value.cursor <= |w.path|
      && !PickStep(w, sku).value.value.donePicking
    ensures w.cursor == |w.path| && sku in w.path ==> PickStep(w, sku) == Failure(IndexOutOfBounds)
  {
  }
}
