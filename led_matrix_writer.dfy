/** `LedMatrixWriter` of `NuimoBluetoothController.kt`: sends LED matrices through the shared write
    queue. A matrix requested while the queue is busy is remembered, and only the latest one is sent
    when the response to the outstanding write arrives. */
module MatrixWriters {
  import opened Wrappers
  import opened LedMatrices
  import opened GattProtocol
  import opened WriteQueues

  datatype WriterState = WriterState(
    currentMatrix: Option<LedMatrix>,
    currentMatrixDisplayIntervalSecs: real,
    writeMatrixOnWriteResponseReceived: bool)

  /** A new writer: no matrix yet, interval 0, nothing waiting for a response. */
  const InitialWriter := WriterState(None, 0.0, false)

  /** The frame `writeNow` sends: the current matrix (all LEDs off when there is none yet) and the
      current display interval. */
  function CurrentFrame(w: WriterState): seq<Byte> {
    Frame(w.currentMatrix.GetOr(FromString("")), w.currentMatrixDisplayIntervalSecs)
  }

  /** `writeNow`: pushes the current frame. */
  function WrittenNow(w: WriterState, q: QueueState): QueueState {
    Pushed(q, WriteLedMatrix(CurrentFrame(w)))
  }

  /** `write(matrix, displayInterval)`: records the matrix, then sends it at once on an idle queue
      or marks it to be sent when the outstanding write is answered. */
  function Written(w: WriterState, q: QueueState, m: LedMatrix, intervalSecs: real): (WriterState, QueueState) {
    var w' := w.(currentMatrix := Some(m), currentMatrixDisplayIntervalSecs := intervalSecs);
    if q.idle then (w', WrittenNow(w', q))
    else (w'.(writeMatrixOnWriteResponseReceived := true), q)
  }

  /** `onWrite`: advances the queue, then sends the remembered matrix if one is marked. */
  function Acknowledged(w: WriterState, q: QueueState): (WriterState, QueueState) {
    var q' := Advanced(q);
    if w.writeMatrixOnWriteResponseReceived then
      (w.(writeMatrixOnWriteResponseReceived := false), WrittenNow(w, q'))
    else (w, q')
  }

  /** A burst of `write` calls, oldest first. */
  function WriteAll(w: WriterState, q: QueueState, writes: seq<(LedMatrix, real)>): (WriterState, QueueState)
    decreases |writes|
  {
    if writes == [] then (w, q)
    else
      var (w', q') := Written(w, q, writes[0].0, writes[0].1);
      WriteAll(w', q', writes[1..])
  }

  /** On an idle queue a write sends its frame at once and leaves nothing marked. */
  lemma IdleWriteSendsAtOnce(w: WriterState, q: QueueState, m: LedMatrix, intervalSecs: real)
    requires q.idle
    ensures Written(w, q, m, intervalSecs).1.dispatched == q.dispatched + [WriteLedMatrix(Frame(m, intervalSecs))]
    ensures !Written(w, q, m, intervalSecs).1.idle
    ensures Written(w, q, m, intervalSecs).0.writeMatrixOnWriteResponseReceived == w.writeMatrixOnWriteResponseReceived
  {
  }

  /** Any number of writes while the queue is busy send nothing and queue nothing; they leave the
      last matrix and interval marked for sending. */
  lemma {:induction false} BusyWritesAreHeldBack(w: WriterState, q: QueueState, writes: seq<(LedMatrix, real)>)
    requires !q.idle && writes != []
    ensures WriteAll(w, q, writes).1 == q
    ensures WriteAll(w, q, writes).0 == WriterState(Some(writes[|writes| - 1].0), writes[|writes| - 1].1, true)
    decreases |writes|
  {
    if |writes| > 1 {
      var (w', q') := Written(w, q, writes[0].0, writes[0].1);
      BusyWritesAreHeldBack(w', q', writes[1..]);
    }
  }

  /** The burst costs exactly one frame: the response to the outstanding write sends (or queues)
      one frame, built from the last matrix and interval of the burst, and clears the mark. */
  lemma BusyWritesCoalesce(w: WriterState, q: QueueState, writes: seq<(LedMatrix, real)>)
    requires Valid(q) && !q.idle && writes != []
    ensures var (w', q') := WriteAll(w, q, writes);
      var (w'', q'') := Acknowledged(w', q');
      var last := writes[|writes| - 1];
      q''.Accepted() == q.Accepted() + [WriteLedMatrix(Frame(last.0, last.1))] &&
      (q.pending == [] ==> q''.dispatched == q.dispatched + [WriteLedMatrix(Frame(last.0, last.1))]) &&
      !w''.writeMatrixOnWriteResponseReceived
  {
    BusyWritesAreHeldBack(w, q, writes);
    var (w', q') := WriteAll(w, q, writes);
    StepKeepsOrder(q, Next);
    StepKeepsOrder(Advanced(q), Push(WriteLedMatrix(CurrentFrame(w'))));
  }

  /** A response with no matrix marked sends no frame of the writer's own: it only advances the
      queue. */
  lemma AckWithoutMarkOnlyAdvances(w: WriterState, q: QueueState)
    requires !w.writeMatrixOnWriteResponseReceived
    ensures Acknowledged(w, q) == (w, Advanced(q))
  {
  }

  /** All LEDs on, then all LEDs off, requested back to back on an idle queue: the first frame
      goes out at once, the second when the first is answered, and after the second response the
      queue is idle. */
  lemma OnThenOffBackToBack(allOn: LedMatrix, allOff: LedMatrix, intervalSecs: real)
    ensures var q0 := InitialQueue;
      var (w1, q1) := Written(InitialWriter, q0, allOn, intervalSecs);
      var (w2, q2) := Written(w1, q1, allOff, intervalSecs);
      var (w3, q3) := Acknowledged(w2, q2);
      var (w4, q4) := Acknowledged(w3, q3);
      q2.dispatched == [WriteLedMatrix(Frame(allOn, intervalSecs))] &&
      q3.dispatched == [WriteLedMatrix(Frame(allOn, intervalSecs)), WriteLedMatrix(Frame(allOff, intervalSecs))] &&
      q4.dispatched == q3.dispatched && q4.idle
  {
  }

  class LedMatrixWriter {
    const writeQueue: WriteQueue
    var currentMatrix: Option<LedMatrix>
    var currentMatrixDisplayIntervalSecs: real
    var writeMatrixOnWriteResponseReceived: bool

    ghost function State(): WriterState
      reads this
    {
      WriterState(currentMatrix, currentMatrixDisplayIntervalSecs, writeMatrixOnWriteResponseReceived)
    }

    constructor(writeQueue: WriteQueue)
      ensures this.writeQueue == writeQueue
      ensures State() == InitialWriter
    {
      this.writeQueue := writeQueue;
      currentMatrix := None;
      currentMatrixDisplayIntervalSecs := 0.0;
      writeMatrixOnWriteResponseReceived := false;
    }

    method Write(matrix: LedMatrix, displayInterval: real)
      modifies this, writeQueue
      ensures (State(), writeQueue.State()) == Written(old(State()), old(writeQueue.State()), matrix, displayInterval)
    {
      currentMatrix := Some(matrix);
      currentMatrixDisplayIntervalSecs := displayInterval;
      if writeQueue.isIdle {
        WriteNow();
      } else {
        writeMatrixOnWriteResponseReceived := true;
      }
    }

    method WriteNow()
      modifies writeQueue
      ensures writeQueue.State() == WrittenNow(State(), old(writeQueue.State()))
    {
      var gattBytes := Frame(if currentMatrix.Some? then currentMatrix.value else FromString(""), currentMatrixDisplayIntervalSecs);
      writeQueue.Push(WriteLedMatrix(gattBytes));
    }

    method OnWrite()
      modifies this, writeQueue
      ensures (State(), writeQueue.State()) == Acknowledged(old(State()), old(writeQueue.State()))
    {
      var _ := writeQueue.Next();
      if writeMatrixOnWriteResponseReceived {
        writeMatrixOnWriteResponseReceived := false;
        WriteNow();
      }
    }
  }
}
