/** `NuimoBluetoothController` and its `GattCallback`: the connection state machine. Calls into
    Android's Bluetooth stack are recorded in a transport log; the GATT callbacks are methods the
    stack calls. The state machine is given as step functions on `Session`, the class's abstract
    state, and each method of the class is proved to perform its step. */
module BluetoothControllers {
  import opened Wrappers
  import opened LedMatrices
  import opened Gestures
  import opened GattProtocol
  import opened WriteQueues
  import opened MatrixWriters
  import opened Controllers

  /** `BluetoothProfile.STATE_*`, the link state `onConnectionStateChange` reports. */
  datatype LinkState = LinkDisconnected | LinkConnecting | LinkConnected | LinkDisconnecting

  /** `BluetoothGatt.GATT_SUCCESS`; any other status is a failure. */
  const GattSuccess: int := 0

  /** A call into the Bluetooth stack, logged when the controller posts or makes it. */
  datatype TransportCall = ConnectGattCall | DiscoverServicesCall | DisconnectCall | CloseCall

  /** Everything about a controller that its callers and the Bluetooth stack can observe. */
  datatype Session = Session(
    connectionState: ConnectionState,
    hasGatt: bool,
    gattConnected: bool,
    queue: QueueState,
    writer: Option<WriterState>,
    listeners: seq<ListenerId>,
    calls: seq<Call>,
    transport: seq<TransportCall>)

  /** A new controller: disconnected, no gatt handle, an idle queue, no writer, no listeners. */
  const InitialSession := Session(Disconnected, false, false, InitialQueue, None, [], [], [])

  /** `notifyListeners { it.cb() }` */
  function Notified(s: Session, cb: Callback, react: (ListenerId, Callback) -> Reaction): Session {
    s.(calls := s.calls + Calls(s.listeners, cb), listeners := AfterNotify(s.listeners, s.listeners, cb, react))
  }

  /** `reset()`: drops the gatt handle and the writer and clears the queue, which stays the same
      queue and keeps its idle flag. */
  function AfterReset(s: Session): Session {
    s.(hasGatt := false, gattConnected := false, queue := Cleared(s.queue), writer := None)
  }

  /** `connect()`: nothing while a gatt handle is held; otherwise resets, becomes CONNECTING and
      posts `connectGatt`, whose handle arrives later (`ConnectGattReturned`). */
  function AfterConnect(s: Session): Session {
    if s.hasGatt then s
    else AfterReset(s).(connectionState := Connecting, transport := s.transport + [ConnectGattCall])
  }

  /** The posted `connectGatt` block running: the handle is stored, or none when the stack
      returned null. */
  function AfterConnectGatt(s: Session, handleReturned: bool): Session {
    s.(hasGatt := handleReturned)
  }

  /** `disconnect()`: nothing without a gatt handle; otherwise becomes DISCONNECTING, posts the
      handle's `disconnect` and resets. */
  function AfterDisconnect(s: Session): Session {
    if !s.hasGatt then s
    else AfterReset(s.(connectionState := Disconnecting, transport := s.transport + [DisconnectCall]))
  }

  /** `discoverServices()`: posts service discovery. */
  function ServiceDiscoveryPosted(s: Session): Session {
    s.(transport := s.transport + [DiscoverServicesCall])
  }

  /** The first half of `onConnectionStateChange` when the link is down: the GATT handle is
      closed, and the listeners learn of a failed attempt or of a lost connection. */
  function LinkClosed(s: Session, react: (ListenerId, Callback) -> Reaction): Session {
    var closed := s.(transport := s.transport + [CloseCall], connectionState := Disconnected);
    if s.connectionState == Connecting then Notified(closed, OnFailToConnect, react)
    else if s.connectionState == Disconnecting || s.connectionState == Connected then Notified(closed, OnDisconnect, react)
    else closed
  }

  /** `onConnectionStateChange(gatt, status, newState)`. */
  function ConnectionStateChanged(s: Session, status: int, newState: LinkState, react: (ListenerId, Callback) -> Reaction): Session {
    var s1 := if newState == LinkDisconnected then LinkClosed(s, react) else s;
    if status != GattSuccess then AfterDisconnect(s1)
    else if newState == LinkConnected then ServiceDiscoveryPosted(s1)
    else if newState == LinkDisconnected then AfterDisconnect(s1)
    else s1
  }

  /** One discovered characteristic: the LED matrix gets a new writer, each sensor a subscription
      request. */
  function DiscoveredOne(s: Session, c: Characteristic): Session {
    if c == LedMatrixCharacteristic then s.(writer := Some(InitialWriter))
    else if c in NotificationCharacteristics then s.(queue := Pushed(s.queue, EnableNotification(c)))
    else s
  }

  /** `onServicesDiscovered`: the characteristics of all services, in order. */
  function ServicesDiscovered(s: Session, characteristics: seq<Characteristic>): Session
    decreases |characteristics|
  {
    if characteristics == [] then s
    else DiscoveredOne(ServicesDiscovered(s, characteristics[..|characteristics| - 1]), characteristics[|characteristics| - 1])
  }

  /** `onCharacteristicWrite`: only the LED matrix characteristic is handled. */
  function CharacteristicWritten(s: Session, c: Characteristic, status: int, react: (ListenerId, Callback) -> Reaction): Session {
    if c != LedMatrixCharacteristic then s
    else
      var s1 :=
        if s.writer.Some? then
          var (w, q) := Acknowledged(s.writer.value, s.queue);
          s.(writer := Some(w), queue := q)
        else s;
      if status == GattSuccess then Notified(s1, OnLedMatrixWrite, react) else s1
  }

  /** `onCharacteristicChanged`: a decoded gesture is passed on to the listeners. */
  function CharacteristicChanged(s: Session, c: Characteristic, value: seq<Byte>, react: (ListenerId, Callback) -> Reaction): Session {
    var event := ToGestureEvent(c, value);
    if event.None? then s else Notified(s, OnGestureEvent(event.value), react)
  }

  /** `onDescriptorWrite`: advances the queue; the first time it drains before the controller
      counts as connected, the controller becomes CONNECTED. */
  function DescriptorWritten(s: Session, react: (ListenerId, Callback) -> Reaction): Session {
    var s1 := s.(queue := Advanced(s.queue));
    if s1.queue.idle && !s.gattConnected then
      Notified(s1.(gattConnected := true, connectionState := Connected), OnConnect, react)
    else s1
  }

  /** `displayLedMatrix(matrix, displayInterval)`: hands the matrix to the writer, if there is one. */
  function Displayed(s: Session, matrix: LedMatrix, displayInterval: real): Session {
    if s.writer.None? then s
    else
      var (w, q) := Written(s.writer.value, s.queue, matrix, displayInterval);
      s.(writer := Some(w), queue := q)
  }

  /** `n` descriptor write responses in a row. */
  function DescriptorWrites(s: Session, n: nat, react: (ListenerId, Callback) -> Reaction): Session {
    if n == 0 then s else DescriptorWritten(DescriptorWrites(s, n - 1, react), react)
  }

  /** The subscription requests for the sensors among `characteristics`, in order. */
  function Subscriptions(characteristics: seq<Characteristic>): seq<GattRequest>
    decreases |characteristics|
  {
    if characteristics == [] then []
    else
      var last := characteristics[|characteristics| - 1];
      Subscriptions(characteristics[..|characteristics| - 1]) + (if last in NotificationCharacteristics then [EnableNotification(last)] else [])
  }

  // ---------------------------------------------------------------------------------------------
  // Properties of the state machine

  /** `connect` does nothing while a handle is held; otherwise it starts afresh: CONNECTING, no
      handle, no writer, the queue cleared, `connectGatt` posted and no listener called. */
  lemma ConnectStartsAfresh(s: Session)
    ensures s.hasGatt ==> AfterConnect(s) == s
    ensures !s.hasGatt ==> var r := AfterConnect(s);
      r.connectionState == Connecting && !r.hasGatt && !r.gattConnected && r.writer.None? &&
      r.queue.pending == [] && r.queue.dispatched == s.queue.dispatched && r.queue.idle == s.queue.idle &&
      r.transport == s.transport + [ConnectGattCall] && r.calls == s.calls
  {
  }

  /** `disconnect` does nothing without a handle; with one it posts the handle's `disconnect`,
      becomes DISCONNECTING and drops handle and writer, calling no listener; a second
      `disconnect` then does nothing. */
  lemma DisconnectOnce(s: Session)
    ensures !s.hasGatt ==> AfterDisconnect(s) == s
    ensures s.hasGatt ==> var r := AfterDisconnect(s);
      r.connectionState == Disconnecting && !r.hasGatt && r.writer.None? &&
      r.transport == s.transport + [DisconnectCall] && r.calls == s.calls
    ensures AfterDisconnect(AfterDisconnect(s)) == AfterDisconnect(s)
  {
  }

  /** A DISCONNECTED report closes the handle and calls the listeners exactly once — with
      onFailToConnect when the controller was CONNECTING, onDisconnect when CONNECTED or
      DISCONNECTING, and not at all when already DISCONNECTED. The trailing `disconnect()` then
      leaves the controller DISCONNECTING if it still held a handle. */
  lemma LinkLossReportsOnce(s: Session, status: int, react: (ListenerId, Callback) -> Reaction)
    ensures var r := ConnectionStateChanged(s, status, LinkDisconnected, react);
      r.calls == s.calls + (
        if s.connectionState == Connecting then Calls(s.listeners, OnFailToConnect)
        else if s.connectionState == Disconnected then []
        else Calls(s.listeners, OnDisconnect)) &&
      r.transport == s.transport + [CloseCall] + (if s.hasGatt then [DisconnectCall] else []) &&
      r.connectionState == (if s.hasGatt then Disconnecting else Disconnected) &&
      !r.hasGatt
  {
    var r := ConnectionStateChanged(s, status, LinkDisconnected, react);
    if s.connectionState == Disconnected {
      assert r.calls == s.calls;
    }
  }

  /** A CONNECTED report with success posts service discovery and changes nothing else; any
      failure status disconnects. */
  lemma LinkUpDiscoversServices(s: Session, status: int, react: (ListenerId, Callback) -> Reaction)
    ensures status == GattSuccess ==>
      ConnectionStateChanged(s, status, LinkConnected, react) == s.(transport := s.transport + [DiscoverServicesCall])
    ensures status != GattSuccess ==>
      ConnectionStateChanged(s, status, LinkConnected, react) == AfterDisconnect(s)
  {
  }

  /** The user disconnects a connected controller, then the stack reports the link down: one
      onDisconnect round, the handle disconnected and closed, and the controller DISCONNECTED. */
  lemma UserDisconnectThenLinkDown(s: Session, react: (ListenerId, Callback) -> Reaction)
    requires s.connectionState == Connected && s.hasGatt
    ensures var r := ConnectionStateChanged(AfterDisconnect(s), GattSuccess, LinkDisconnected, react);
      r.connectionState == Disconnected && !r.hasGatt &&
      r.calls == s.calls + Calls(s.listeners, OnDisconnect) &&
      r.transport == s.transport + [DisconnectCall, CloseCall]
  {
    LinkLossReportsOnce(AfterDisconnect(s), GattSuccess, react);
  }

  /** A connection attempt the stack gives up on (a handle was returned, then DISCONNECTED with a
      failure status): one onFailToConnect round, and the controller stays DISCONNECTING. */
  lemma FailedAttemptEndsDisconnecting(s: Session, status: int, react: (ListenerId, Callback) -> Reaction)
    requires !s.hasGatt && status != GattSuccess
    ensures var r := ConnectionStateChanged(AfterConnectGatt(AfterConnect(s), true), status, LinkDisconnected, react);
      r.calls == s.calls + Calls(s.listeners, OnFailToConnect) &&
      r.connectionState == Disconnecting && !r.hasGatt &&
      r.transport == s.transport + [ConnectGattCall, CloseCall, DisconnectCall]
  {
    LinkLossReportsOnce(AfterConnectGatt(AfterConnect(s), true), status, react);
  }

  /** Service discovery subscribes to each sensor among the characteristics, in order. */
  lemma {:induction false} ServicesDiscoveredSubscribes(s: Session, characteristics: seq<Characteristic>)
    requires Valid(s.queue)
    ensures var r := ServicesDiscovered(s, characteristics);
      Valid(r.queue) &&
      r.queue.Accepted() == s.queue.Accepted() + Subscriptions(characteristics) &&
      s.queue.dispatched <= r.queue.dispatched
    decreases |characteristics|
  {
    if characteristics != [] {
      var init := characteristics[..|characteristics| - 1];
      var c := characteristics[|characteristics| - 1];
      ServicesDiscoveredSubscribes(s, init);
      var r0 := ServicesDiscovered(s, init);
      assert characteristics == init + [c];
      if c in NotificationCharacteristics {
        StepKeepsOrder(r0.queue, Push(EnableNotification(c)));
      }
    }
  }

  /** Service discovery creates a writer exactly when the LED matrix characteristic is among the
      characteristics, and nobody is called. */
  lemma {:induction false} ServicesDiscoveredCreatesWriter(s: Session, characteristics: seq<Characteristic>)
    ensures var r := ServicesDiscovered(s, characteristics);
      r.writer == (if LedMatrixCharacteristic in characteristics then Some(InitialWriter) else s.writer) &&
      r.calls == s.calls && r.connectionState == s.connectionState && r.gattConnected == s.gattConnected
    decreases |characteristics|
  {
    if characteristics != [] {
      var init := characteristics[..|characteristics| - 1];
      var c := characteristics[|characteristics| - 1];
      ServicesDiscoveredCreatesWriter(s, init);
      assert characteristics == init + [c];
    }
  }

  /** On an idle queue the first subscription goes out at once and the rest wait. */
  lemma FirstSubscriptionGoesOut(s: Session, characteristics: seq<Characteristic>)
    requires s.queue.idle && Valid(s.queue) && Subscriptions(characteristics) != []
    ensures var r := ServicesDiscovered(s, characteristics);
      r.queue.dispatched == s.queue.dispatched + [Subscriptions(characteristics)[0]] &&
      r.queue.pending == Subscriptions(characteristics)[1..] && !r.queue.idle
  {
    SubscriptionsSentAtMostOnce(s, characteristics);
    ServicesDiscoveredSubscribes(s, characteristics);
    var r := ServicesDiscovered(s, characteristics);
    var subs := Subscriptions(characteristics);
    assert r.queue.dispatched == (r.queue.dispatched + r.queue.pending)[..|s.queue.dispatched| + 1];
    assert r.queue.pending == (r.queue.dispatched + r.queue.pending)[|s.queue.dispatched| + 1..];
  }

  /** Service discovery sends at most one subscription, and one only on an idle queue. */
  lemma {:induction false} SubscriptionsSentAtMostOnce(s: Session, characteristics: seq<Characteristic>)
    ensures var r := ServicesDiscovered(s, characteristics);
      |r.queue.dispatched| == |s.queue.dispatched| + (if s.queue.idle && Subscriptions(characteristics) != [] then 1 else 0) &&
      r.queue.idle == (s.queue.idle && Subscriptions(characteristics) == [])
    decreases |characteristics|
  {
    if characteristics != [] {
      SubscriptionsSentAtMostOnce(s, characteristics[..|characteristics| - 1]);
    }
  }

  /** While subscriptions are waiting, each descriptor write response sends the next one and
      nobody is called; the response that finds the queue empty makes the controller CONNECTED and
      calls onConnect on every listener, once. */
  lemma {:induction false} SubscriptionsThenConnect(s: Session, react: (ListenerId, Callback) -> Reaction)
    requires Valid(s.queue) && !s.gattConnected
    ensures var r := DescriptorWrites(s, |s.queue.pending|, react);
      r.calls == s.calls && r.connectionState == s.connectionState && !r.gattConnected &&
      r.queue.dispatched == s.queue.dispatched + s.queue.pending && r.queue.pending == [] &&
      r.listeners == s.listeners
    ensures var r := DescriptorWrites(s, |s.queue.pending| + 1, react);
      r.gattConnected && r.connectionState == Connected &&
      r.calls == s.calls + Calls(s.listeners, OnConnect)
  {
    DrainQuietly(s, |s.queue.pending|, react);
  }

  lemma {:induction false} DrainQuietly(s: Session, n: nat, react: (ListenerId, Callback) -> Reaction)
    requires Valid(s.queue) && !s.gattConnected && n <= |s.queue.pending|
    ensures var r := DescriptorWrites(s, n, react);
      r == s.(queue := r.queue) &&
      r.queue.dispatched == s.queue.dispatched + s.queue.pending[..n] && r.queue.pending == s.queue.pending[n..] &&
      r.queue.idle == s.queue.idle
  {
    if n > 0 {
      DrainQuietly(s, n - 1, react);
      var r := DescriptorWrites(s, n - 1, react);
      assert r.queue.pending[0] == s.queue.pending[n - 1];
      assert s.queue.pending[..n] == s.queue.pending[..n - 1] + [s.queue.pending[n - 1]];
      assert r.queue.pending[1..] == s.queue.pending[n..];
    }
  }

  /** Once connected, descriptor write responses only advance the queue: nobody is called and the
      state stays as it is. */
  lemma {:induction false} ConnectedDescriptorWritesAreQuiet(s: Session, n: nat, react: (ListenerId, Callback) -> Reaction)
    requires s.gattConnected
    ensures var r := DescriptorWrites(s, n, react);
      r.calls == s.calls && r.connectionState == s.connectionState && r.gattConnected && r.listeners == s.listeners
  {
    if n > 0 {
      ConnectedDescriptorWritesAreQuiet(s, n - 1, react);
    }
  }

  /** An LED matrix write response lets the writer go on and calls onLedMatrixWrite only for a
      successful write, with or without a writer; other characteristics' responses are ignored. */
  lemma LedWriteResponse(s: Session, c: Characteristic, status: int, react: (ListenerId, Callback) -> Reaction)
    ensures c != LedMatrixCharacteristic ==> CharacteristicWritten(s, c, status, react) == s
    ensures c == LedMatrixCharacteristic ==> var r := CharacteristicWritten(s, c, status, react);
      r.calls == s.calls + (if status == GattSuccess then Calls(s.listeners, OnLedMatrixWrite) else []) &&
      r.queue == (if s.writer.Some? then Acknowledged(s.writer.value, s.queue).1 else s.queue) &&
      r.connectionState == s.connectionState
  {
  }

  /** A notification is passed on as one round of onGestureEvent exactly when it decodes to an
      event. */
  lemma GestureNotification(s: Session, c: Characteristic, value: seq<Byte>, react: (ListenerId, Callback) -> Reaction)
    ensures var r := CharacteristicChanged(s, c, value, react);
      r.calls == s.calls + (if ToGestureEvent(c, value).Some? then Calls(s.listeners, OnGestureEvent(ToGestureEvent(c, value).value)) else []) &&
      r.queue == s.queue && r.connectionState == s.connectionState
  {
  }

  /** Without a writer (before service discovery, after a reset) a matrix is silently dropped. */
  lemma DisplayWithoutWriterIsDropped(s: Session, matrix: LedMatrix, displayInterval: real)
    requires s.writer.None?
    ensures Displayed(s, matrix, displayInterval) == s
  {
  }

  /** A queue that was busy when the controller disconnected stays busy: after reconnecting and
      discovering services again, the subscriptions are only queued and none is sent, so the
      controller never reaches CONNECTED without another write response. */
  lemma BusyQueueStallsReconnect(s: Session, characteristics: seq<Characteristic>)
    requires s.hasGatt && !s.queue.idle && Valid(s.queue)
    ensures var r := ServicesDiscovered(AfterConnectGatt(AfterConnect(AfterDisconnect(s)), true), characteristics);
      r.queue.dispatched == s.queue.dispatched && r.queue.pending == Subscriptions(characteristics) && !r.queue.idle
  {
    var t := AfterConnectGatt(AfterConnect(AfterDisconnect(s)), true);
    assert t.queue == Cleared(s.queue);
    SubscriptionsSentAtMostOnce(t, characteristics);
    ServicesDiscoveredSubscribes(t, characteristics);
    var r := ServicesDiscovered(t, characteristics);
    assert r.queue.dispatched == s.queue.dispatched by {
      assert s.queue.dispatched <= r.queue.dispatched;
    }
    assert r.queue.pending == (r.queue.dispatched + r.queue.pending)[|s.queue.dispatched|..];
  }

  // ---------------------------------------------------------------------------------------------
  // A listener that reconnects from inside its link-down callback

  /** A DISCONNECTED report with success status, in the order the source runs it, where (when
      `reconnect` holds and a round is made) one listener calls `connect()` from its callback: the
      handle is still held while the listeners run, and only the trailing `disconnect()` drops it. */
  function LinkDownAsWritten(s: Session, react: (ListenerId, Callback) -> Reaction, reconnect: bool): Session {
    var closed := LinkClosed(s, react);
    var called := if reconnect && s.connectionState != Disconnected && s.listeners != [] then AfterConnect(closed) else closed;
    AfterDisconnect(called)
  }

  /** The same report with the handle dropped (`reset()`) before the listeners run. */
  function LinkDownCorrected(s: Session, react: (ListenerId, Callback) -> Reaction, reconnect: bool): Session {
    var closed := LinkClosed(AfterReset(s), react);
    var called := if reconnect && s.connectionState != Disconnected && s.listeners != [] then AfterConnect(closed) else closed;
    AfterDisconnect(called)
  }

  /** Without a reconnecting listener, the as-written order is the link-down step itself. */
  lemma LinkDownAsWrittenIsStateChange(s: Session, react: (ListenerId, Callback) -> Reaction)
    ensures LinkDownAsWritten(s, react, false) == ConnectionStateChanged(s, GattSuccess, LinkDisconnected, react)
  {
  }

  /** As written, a connected controller that loses its link ignores a `connect()` made from
      `onDisconnect`: nothing is posted for it and the controller ends DISCONNECTING. */
  lemma ReconnectFromCallbackIgnored(s: Session, react: (ListenerId, Callback) -> Reaction)
    requires s.connectionState == Connected && s.hasGatt && s.listeners != []
    ensures var r := LinkDownAsWritten(s, react, true);
      r.calls == s.calls + Calls(s.listeners, OnDisconnect) &&
      r.transport == s.transport + [CloseCall, DisconnectCall] &&
      r.connectionState == Disconnecting && !r.hasGatt
  {
    var closed := LinkClosed(s, react);
    assert closed.hasGatt;
    assert AfterConnect(closed) == closed;
  }

  /** With the handle dropped first, the same listeners are called, a `connect()` from the callback
      starts a new attempt (CONNECTING, `connectGatt` posted), and without one the controller ends
      DISCONNECTED. */
  lemma ReconnectFromCallbackTakesEffect(s: Session, react: (ListenerId, Callback) -> Reaction)
    requires s.connectionState == Connected && s.listeners != []
    ensures var r := LinkDownCorrected(s, react, true);
      r.calls == s.calls + Calls(s.listeners, OnDisconnect) &&
      r.transport == s.transport + [CloseCall, ConnectGattCall] &&
      r.connectionState == Connecting && !r.hasGatt
    ensures var r := LinkDownCorrected(s, react, false);
      r.calls == s.calls + Calls(s.listeners, OnDisconnect) &&
      r.transport == s.transport + [CloseCall] &&
      r.connectionState == Disconnected && !r.hasGatt
  {
  }

  // ---------------------------------------------------------------------------------------------
  // The controller object

  class BluetoothController {
    /** The `NuimoController` part: listeners, connection state, default interval. */
    const controller: NuimoController
    const writeQueue: WriteQueue
    var gattConnected: bool
    /** `gatt != null` */
    var hasGatt: bool
    var matrixWriter: LedMatrixWriter?
    /** The calls made or posted to the Bluetooth stack, oldest first. */
    var transport: seq<TransportCall>

    /** The writer, when there is one, shares the controller's queue, and the queue keeps its own
        invariant. */
    ghost predicate Valid()
      reads this, writeQueue, matrixWriter
    {
      (matrixWriter != null ==> matrixWriter.writeQueue == writeQueue) &&
      WriteQueues.Valid(writeQueue.State())
    }

    ghost function State(): Session
      reads this, controller, writeQueue, matrixWriter
    {
      Session(controller.connectionState, hasGatt, gattConnected, writeQueue.State(),
              if matrixWriter == null then None else Some(matrixWriter.State()),
              controller.listeners, controller.calls, transport)
    }

    constructor(address: string, react: (ListenerId, Callback) -> Reaction)
      ensures Valid() && State() == InitialSession
      ensures controller.address == address && controller.react == react
      ensures controller.defaultMatrixDisplayInterval == DefaultMatrixDisplayInterval
      ensures fresh(controller) && fresh(writeQueue)
    {
      controller := new NuimoController(address, react);
      writeQueue := new WriteQueue();
      gattConnected := false;
      hasGatt := false;
      matrixWriter := null;
      transport := [];
    }

    method Connect()
      requires Valid()
      modifies this, controller, writeQueue
      ensures Valid() && State() == AfterConnect(old(State()))
      ensures controller.defaultMatrixDisplayInterval == old(controller.defaultMatrixDisplayInterval)
    {
      if hasGatt {
        return;
      }
      Reset();
      controller.connectionState := Connecting;
      transport := transport + [ConnectGattCall];
    }

    /** The block `connect` posted, run by the main thread. */
    method ConnectGattReturned(handleReturned: bool)
      requires Valid()
      modifies this
      ensures Valid() && State() == AfterConnectGatt(old(State()), handleReturned)
    {
      hasGatt := handleReturned;
    }

    method Disconnect()
      requires Valid()
      modifies this, controller, writeQueue
      ensures Valid() && State() == AfterDisconnect(old(State()))
      ensures controller.defaultMatrixDisplayInterval == old(controller.defaultMatrixDisplayInterval)
    {
      if !hasGatt {
        return;
      }
      controller.connectionState := Disconnecting;
      transport := transport + [DisconnectCall];
      Reset();
    }

    method Reset()
      modifies this, writeQueue
      ensures Valid()
      ensures State() == AfterReset(old(State()))
    {
      hasGatt := false;
      gattConnected := false;
      writeQueue.Clear();
      matrixWriter := null;
    }

    method DiscoverServices()
      modifies this
      ensures Valid() == old(Valid())
      ensures State() == ServiceDiscoveryPosted(old(State()))
    {
      transport := transport + [DiscoverServicesCall];
    }

    /** `displayLedMatrix(matrix, displayInterval)`, the form this controller implements. */
    method DisplayLedMatrixFor(matrix: LedMatrix, displayInterval: real)
      requires Valid()
      modifies writeQueue, matrixWriter
      ensures Valid() && State() == Displayed(old(State()), matrix, displayInterval)
    {
      if matrixWriter != null {
        matrixWriter.Write(matrix, displayInterval);
      }
    }

    /** `displayLedMatrix(matrix, displayInterval, options)`; no option is acted on. */
    method DisplayLedMatrixWith(matrix: LedMatrix, displayInterval: real, options: bv32)
      requires Valid()
      modifies writeQueue, matrixWriter
      ensures Valid() && State() == Displayed(old(State()), matrix, displayInterval)
    {
      DisplayLedMatrixFor(matrix, displayInterval);
    }

    /** `displayLedMatrix(matrix)`: the default interval. */
    method DisplayLedMatrix(matrix: LedMatrix)
      requires Valid()
      modifies writeQueue, matrixWriter
      ensures Valid() && State() == Displayed(old(State()), matrix, old(controller.defaultMatrixDisplayInterval))
    {
      var request := DisplayWithDefaults(matrix, controller.defaultMatrixDisplayInterval);
      DisplayLedMatrixWith(request.matrix, request.displayInterval, request.options);
    }

    /** `displayLedMatrix(matrix, options)`: the default interval. */
    method DisplayLedMatrixWithOptions(matrix: LedMatrix, options: bv32)
      requires Valid()
      modifies writeQueue, matrixWriter
      ensures Valid() && State() == Displayed(old(State()), matrix, old(controller.defaultMatrixDisplayInterval))
    {
      var request := DisplayWithOptions(matrix, controller.defaultMatrixDisplayInterval, options);
      DisplayLedMatrixWith(request.matrix, request.displayInterval, request.options);
    }

    method OnConnectionStateChange(status: int, newState: LinkState)
      requires Valid()
      modifies this, controller, writeQueue
      ensures Valid() && State() == ConnectionStateChanged(old(State()), status, newState, controller.react)
      ensures controller.defaultMatrixDisplayInterval == old(controller.defaultMatrixDisplayInterval)
    {
      if newState == LinkDisconnected {
        CloseLink();
      }
      if status != GattSuccess {
        Disconnect();
      } else if newState == LinkConnected {
        DiscoverServices();
      } else if newState == LinkDisconnected {
        Disconnect();
      }
    }

    /** The link-down half of `onConnectionStateChange`. */
    method CloseLink()
      requires Valid()
      modifies this, controller
      ensures Valid() && State() == LinkClosed(old(State()), controller.react)
      ensures controller.defaultMatrixDisplayInterval == old(controller.defaultMatrixDisplayInterval)
    {
      transport := transport + [CloseCall];
      var previousConnectionState := controller.connectionState;
      controller.connectionState := Disconnected;
      if previousConnectionState == Connecting {
        controller.NotifyListeners(OnFailToConnect);
      } else if previousConnectionState == Disconnecting || previousConnectionState == Connected {
        controller.NotifyListeners(OnDisconnect);
      }
    }

    method OnServicesDiscovered(characteristics: seq<Characteristic>)
      requires Valid()
      modifies this, writeQueue
      ensures Valid() && State() == ServicesDiscovered(old(State()), characteristics)
      ensures matrixWriter == null || matrixWriter == old(matrixWriter) || fresh(matrixWriter)
    {
      for k := 0 to |characteristics|
        invariant Valid()
        invariant matrixWriter == null || matrixWriter == old(matrixWriter) || fresh(matrixWriter)
        invariant State() == ServicesDiscovered(old(State()), characteristics[..k])
      {
        var c := characteristics[k];
        if c == LedMatrixCharacteristic {
          matrixWriter := new LedMatrixWriter(writeQueue);
        } else if c in NotificationCharacteristics {
          writeQueue.Push(EnableNotification(c));
        }
        assert characteristics[..k + 1][..k] == characteristics[..k];
      }
      assert characteristics[..|characteristics|] == characteristics;
    }

    method OnCharacteristicWrite(c: Characteristic, status: int)
      requires Valid()
      modifies controller, writeQueue, matrixWriter
      ensures Valid() && State() == CharacteristicWritten(old(State()), c, status, controller.react)
      ensures controller.defaultMatrixDisplayInterval == old(controller.defaultMatrixDisplayInterval)
    {
      if c == LedMatrixCharacteristic {
        if matrixWriter != null {
          matrixWriter.OnWrite();
        }
        if status == GattSuccess {
          controller.NotifyListeners(OnLedMatrixWrite);
        }
      }
    }

    method OnCharacteristicChanged(c: Characteristic, value: seq<Byte>)
      requires Valid()
      modifies controller
      ensures Valid() && State() == CharacteristicChanged(old(State()), c, value, controller.react)
      ensures controller.defaultMatrixDisplayInterval == old(controller.defaultMatrixDisplayInterval)
    {
      var event := ToGestureEvent(c, value);
      if event.None? {
        return;
      }
      controller.NotifyListeners(OnGestureEvent(event.value));
    }

    method OnDescriptorWrite(status: int)
      requires Valid()
      modifies this, controller, writeQueue
      ensures Valid() && State() == DescriptorWritten(old(State()), controller.react)
      ensures controller.defaultMatrixDisplayInterval == old(controller.defaultMatrixDisplayInterval)
    {
      var busy := writeQueue.Next();
      if !busy && !gattConnected {
        gattConnected := true;
        controller.connectionState := Connected;
        controller.NotifyListeners(OnConnect);
      }
    }
  }

  /** A controller created and asked to connect: CONNECTING with `connectGatt` posted, nobody
      called, and the default interval still 2 seconds. */
  method ConnectNewController(address: string, react: (ListenerId, Callback) -> Reaction) returns (c: BluetoothController)
    ensures fresh(c) && fresh(c.controller) && fresh(c.writeQueue)
    ensures c.Valid() && c.State() == AfterConnect(InitialSession)
    ensures c.State().connectionState == Connecting && c.State().transport == [ConnectGattCall] && c.State().calls == []
    ensures c.controller.defaultMatrixDisplayInterval == DefaultMatrixDisplayInterval
  {
    c := new BluetoothController(address, react);
    c.Connect();
  }
}
