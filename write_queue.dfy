/** `WriteQueue` of `NuimoBluetoothController.kt`: GATT requests must be issued one at a time,
    each only after the response to the previous one has arrived. The queue holds requests while one
    is outstanding and hands the next one to the main thread when `next` is called from a response
    callback. Posting a request to the main thread is recorded in the ghost `dispatched` list. */
module WriteQueues {
  import opened GattProtocol

  /** The queue as an observer sees it: `isIdle`, the requests waiting, and every request handed
      to the main thread so far. */
  datatype QueueState = QueueState(idle: bool, pending: seq<GattRequest>, dispatched: seq<GattRequest>)
  {
    /** The requests accepted and not dropped by `clear`, in the order they were pushed. */
    function Accepted(): seq<GattRequest> {
      dispatched + pending
    }
  }

  /** A new queue: idle, nothing waiting, nothing sent. */
  const InitialQueue := QueueState(true, [], [])

  /** The queue's invariant: an idle queue holds no waiting request. */
  predicate Valid(q: QueueState) {
    q.idle ==> q.pending == []
  }

  /** `push`: an idle queue posts the request at once, a busy one appends it; busy afterwards. */
  function Pushed(q: QueueState, request: GattRequest): QueueState {
    if q.idle then q.(idle := false, dispatched := q.dispatched + [request])
    else q.(idle := false, pending := q.pending + [request])
  }

  /** `next`: posts the oldest waiting request, or becomes idle when none waits. The Boolean the
      source returns is `!idle` of the new state. */
  function Advanced(q: QueueState): QueueState {
    if q.pending == [] then q.(idle := true)
    else q.(pending := q.pending[1..], dispatched := q.dispatched + [q.pending[0]])
  }

  /** `clear`: drops the waiting requests and nothing else; a busy queue stays busy. */
  function Cleared(q: QueueState): QueueState {
    q.(pending := [])
  }

  datatype QueueOp = Push(request: GattRequest) | Next | Clear

  function Step(q: QueueState, op: QueueOp): QueueState {
    match op
    case Push(r) => Pushed(q, r)
    case Next => Advanced(q)
    case Clear => Cleared(q)
  }

  /** The queue after a sequence of operations, oldest first. */
  function Run(q: QueueState, ops: seq<QueueOp>): QueueState
    decreases |ops|
  {
    if ops == [] then q else Run(Step(q, ops[0]), ops[1..])
  }

  /** The requests pushed by a sequence of operations, in order. */
  function Pushes(ops: seq<QueueOp>): seq<GattRequest>
    decreases |ops|
  {
    if ops == [] then [] else (if ops[0].Push? then [ops[0].request] else []) + Pushes(ops[1..])
  }

  /** `n` consecutive calls of `next`. */
  function Nexts(n: nat): seq<QueueOp> {
    seq(n, _ => Next)
  }

  /** One operation keeps the invariant; `push` and `next` never reorder or lose an accepted
      request, and the sent list only grows, by at most one request. */
  lemma StepKeepsOrder(q: QueueState, op: QueueOp)
    requires Valid(q)
    ensures Valid(Step(q, op))
    ensures q.dispatched <= Step(q, op).dispatched && |Step(q, op).dispatched| <= |q.dispatched| + 1
    ensures !op.Clear? ==> Step(q, op).Accepted() == q.Accepted() + (if op.Push? then [op.request] else [])
  {
  }

  /** Without `clear`, the queue is first-in first-out: the accepted requests grow by exactly the
      pushed ones in push order, and what was sent before stays a prefix of what is sent after. */
  lemma {:induction false} RunIsFifo(q: QueueState, ops: seq<QueueOp>)
    requires Valid(q)
    requires forall k :: 0 <= k < |ops| ==> !ops[k].Clear?
    ensures Valid(Run(q, ops))
    ensures Run(q, ops).Accepted() == q.Accepted() + Pushes(ops)
    ensures q.dispatched <= Run(q, ops).dispatched
    decreases |ops|
  {
    if ops != [] {
      var q1 := Step(q, ops[0]);
      var pushed := if ops[0].Push? then [ops[0].request] else [];
      StepKeepsOrder(q, ops[0]);
      RunIsFifo(q1, ops[1..]);
      assert Run(q, ops) == Run(q1, ops[1..]);
      assert Pushes(ops) == pushed + Pushes(ops[1..]);
      assert q.Accepted() + pushed + Pushes(ops[1..]) == q.Accepted() + Pushes(ops);
    }
  }

  /** Pushes alone send at most one request: the first one, and only if the queue was idle. */
  lemma {:induction false} PushesSendAtMostOne(q: QueueState, ops: seq<QueueOp>)
    requires forall k :: 0 <= k < |ops| ==> ops[k].Push?
    ensures |Run(q, ops).dispatched| == |q.dispatched| + (if q.idle && ops != [] then 1 else 0)
    ensures ops != [] ==> !Run(q, ops).idle
    decreases |ops|
  {
    if ops != [] {
      PushesSendAtMostOne(Step(q, ops[0]), ops[1..]);
    }
  }

  /** Calling `next` once per waiting request sends them all in order; one more call finds the
      queue empty, makes it idle and reports it idle. */
  lemma {:induction false} NextsDrain(q: QueueState)
    ensures Run(q, Nexts(|q.pending|)).dispatched == q.dispatched + q.pending
    ensures Run(q, Nexts(|q.pending|)).pending == []
    ensures Advanced(Run(q, Nexts(|q.pending|))).idle
    decreases |q.pending|
  {
    if q.pending != [] {
      var q' := Advanced(q);
      assert Nexts(|q.pending|)[1..] == Nexts(|q'.pending|);
      NextsDrain(q');
    }
  }

  /** `clear` on a busy queue leaves it busy: later pushes are only queued, and nothing is sent
      until some response calls `next`. */
  lemma {:induction false} ClearedBusyQueueStalls(q: QueueState, ops: seq<QueueOp>)
    requires !q.idle
    requires forall k :: 0 <= k < |ops| ==> ops[k].Push?
    ensures Run(Cleared(q), ops).dispatched == q.dispatched
    ensures Run(Cleared(q), ops).pending == Pushes(ops)
    ensures !Run(Cleared(q), ops).idle
  {
    PushesSendAtMostOne(Cleared(q), ops);
    RunIsFifo(Cleared(q), ops);
    var r := Run(Cleared(q), ops);
    assert r.dispatched == q.dispatched;
    assert r.pending == (r.dispatched + r.pending)[|q.dispatched|..];
  }

  class WriteQueue {
    var isIdle: bool
    var queue: seq<GattRequest>
    /** The requests posted to the main thread, in posting order. */
    ghost var dispatched: seq<GattRequest>

    ghost function State(): QueueState
      reads this
    {
      QueueState(isIdle, queue, dispatched)
    }

    constructor()
      ensures State() == InitialQueue
    {
      isIdle := true;
      queue := [];
      dispatched := [];
    }

    method Push(request: GattRequest)
      modifies this
      ensures State() == Pushed(old(State()), request)
    {
      if isIdle {
        PerformWriteRequest(request);
      } else {
        queue := queue + [request];
      }
      isIdle := false;
    }

    /** Returns whether the queue is still busy. */
    method Next() returns (busy: bool)
      modifies this
      ensures State() == Advanced(old(State()))
      ensures busy == !isIdle
    {
      if queue == [] {
        isIdle := true;
      } else {
        var request := queue[0];
        queue := queue[1..];
        PerformWriteRequest(request);
      }
      busy := !isIdle;
    }

    method Clear()
      modifies this
      ensures State() == Cleared(old(State()))
    {
      queue := [];
    }

    /** `performWriteRequest`: posts the request to the main thread. */
    method PerformWriteRequest(request: GattRequest)
      modifies this
      ensures dispatched == old(dispatched) + [request]
      ensures isIdle == old(isIdle) && queue == old(queue)
    {
      dispatched := dispatched + [request];
    }
  }
}
