/** `WorkerManager`: one FIFO of idle worker ids per role. */
module WorkerPool {
  import opened Wrappers
  import opened Workers

  datatype Pool = Pool(pickers: seq<string>, sequencers: seq<string>, loaders: seq<string>, replenishers: seq<string>)

  const EmptyPool := Pool([], [], [], [])

  /** The queue of one role. */
  function QueueOf(p: Pool, role: Role): seq<string>
  {
    match role
    case Picker => p.pickers
    case Sequencer => p.sequencers
    case Loader => p.loaders
    case Replenisher => p.replenishers
  }

  /** The pool with the queue of `role` replaced. */
  function WithQueue(p: Pool, role: Role, q: seq<string>): (r: Pool)
    ensures QueueOf(r, role) == q
    ensures forall other: Role :: other != role ==> QueueOf(r, other) == QueueOf(p, other)
  {
    match role
    case Picker => p.(pickers := q)
    case Sequencer => p.(sequencers := q)
    case Loader => p.(loaders := q)
    case Replenisher => p.(replenishers := q)
  }

  /** `enqueueWorker(w)`: the id goes to the back of its own role's queue.
      `role` is None for a worker of no known subclass, which is queued
      nowhere. */
  function Enqueue(p: Pool, role: Option<Role>, id: string): (r: Pool)
    ensures role.None? ==> r == p
    ensures role.Some? ==> QueueOf(r, role.value) == QueueOf(p, role.value) + [id]
    ensures forall other: Role :: Some(other) != role ==> QueueOf(r, other) == QueueOf(p, other)
  {
    match role
    case None => p
    case Some(ro) => WithQueue(p, ro, QueueOf(p, ro) + [id])
  }

  /** `next<Role>()`: the earliest queued id of that role, removed; None
      (Java's null) when the queue is empty. */
  function Next(p: Pool, role: Role): (r: (Option<string>, Pool))
    ensures r.0.None? <==> |QueueOf(p, role)| == 0
    ensures r.0.None? ==> r.1 == p
    ensures r.0.Some? ==> QueueOf(p, role) == [r.0.value] + QueueOf(r.1, role)
    ensures forall other: Role :: other != role ==> QueueOf(r.1, other) == QueueOf(p, other)
  {
    var q := QueueOf(p, role);
    if |q| == 0 then (None, p) else (Some(q[0]), WithQueue(p, role, q[1..]))
  }

  /** Every queue is first-in first-out: ids enqueued one after another
      into an empty queue come out in the same order, and then the pool is
      empty for that role again. */
  lemma {:induction false} FifoOrder(p: Pool, role: Role, ids: seq<string>)
    requires |QueueOf(p, role)| == 0
    ensures Drain(EnqueueAll(p, role, ids), role, |ids|).0 == ids
    ensures QueueOf(Drain(EnqueueAll(p, role, ids), role, |ids|).1, role) == []
  {
    EnqueueAllQueue(p, role, ids);
    DrainQueue(EnqueueAll(p, role, ids), role, |ids|);
  }

  /** Enqueueing `ids` one by one. */
  function EnqueueAll(p: Pool, role: Role, ids: seq<string>): Pool
    decreases |ids|
  {
    if |ids| == 0 then p else EnqueueAll(Enqueue(p, Some(role), ids[0]), role, ids[1..])
  }

  /** `n` successive `next<Role>()` calls and the ids they return. */
  function Drain(p: Pool, role: Role, n: nat): (seq<string>, Pool)
    decreases n
  {
    if n == 0 then ([], p)
    else
      var (x, p1) := Next(p, role);
      var (rest, p2) := Drain(p1, role, n - 1);
      ((if x.Some? then [x.value] else []) + rest, p2)
  }

  lemma {:induction false} EnqueueAllQueue(p: Pool, role: Role, ids: seq<string>)
    ensures QueueOf(EnqueueAll(p, role, ids), role) == QueueOf(p, role) + ids
    decreases |ids|
  {
    if |ids| > 0 {
      var p1 := Enqueue(p, Some(role), ids[0]);
      EnqueueAllQueue(p1, role, ids[1..]);
      assert QueueOf(p, role) + [ids[0]] + ids[1..] == QueueOf(p, role) + ids;
    }
  }

  lemma {:induction false} DrainQueue(p: Pool, role: Role, n: nat)
    requires n <= |QueueOf(p, role)|
    ensures Drain(p, role, n).0 == QueueOf(p, role)[..n]
    ensures QueueOf(Drain(p, role, n).1, role) == QueueOf(p, role)[n..]
    decreases n
  {
    if n > 0 {
      var q := QueueOf(p, role);
      var (x, p1) := Next(p, role);
      DrainQueue(p1, role, n - 1);
      assert QueueOf(p1, role) == q[1..];
      assert [q[0]] + q[1..][..n - 1] == q[..n];
    }
  }
}
