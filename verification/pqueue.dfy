/** `java.util.PriorityQueue<PickingRequest>` ordered by `compareTo`, i.e. by
    request id. The heap layout is not modelled: the queue is the sorted
    sequence of the ids it holds, and `poll` takes the front. */
module PriorityQueue {

  predicate Sorted(q: seq<int>)
  {
    forall i, j :: 0 <= i < j < |q| ==> q[i] <= q[j]
  }

  type Queue = q: seq<int> | Sorted(q) witness []

  /** `add`: the queue keeps its order and gains exactly `x`. Among equal
      ids the newcomer goes last. */
  function Insert(q: Queue, x: int): (r: Queue)
    ensures multiset(r) == multiset(q) + multiset{x}
    ensures |r| == |q| + 1
    ensures forall k :: 0 <= k < |r| ==> r[k] == x || r[k] in q
    decreases |q|
  {
    if |q| == 0 then [x]
    else if x < q[0] then [x] + q
    else
      var rest := Insert(q[1..], x);
      assert forall k :: 0 <= k < |rest| ==> q[0] <= rest[k];
      var r := [q[0]] + rest;
      assert Sorted(r);
      assert q == [q[0]] + q[1..];
      r
  }

  /** `peek`/`poll` on a non-empty queue yields its smallest id. */
  lemma HeadIsMinimum(q: Queue)
    requires |q| > 0
    ensures forall x :: x in q ==> q[0] <= x
  {
  }

  /** After `add(x)`, the head is `x` if `x` is smaller than every queued id,
      and the old head otherwise. */
  lemma InsertHead(q: Queue, x: int)
    ensures Insert(q, x)[0] == if |q| == 0 || x < q[0] then x else q[0]
  {
  }

  /** Polling after `add(x)` on a queue whose ids all exceed `x` yields `x`,
      whatever order the ids arrived in: a re-queued older request goes
      ahead of newer ones. */
  lemma LowerIdFirst(q: Queue, x: int)
    requires forall y :: y in q ==> x < y
    ensures Insert(q, x)[0] == x
    ensures Insert(q, x)[1..] == q
  {
    if |q| > 0 {
      assert q[0] in q;
    }
  }
}
