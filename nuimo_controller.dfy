/** `NuimoController.kt`: what every controller shares — the option bits, the connection state, the
    default display interval, the `displayLedMatrix` overloads and the listener list with its
    notification round. Listeners are identified by number; a listener's callback is foreign code,
    so what it does to the listener list is given by `react`, and each call made is logged. */
module Controllers {
  import opened ListOps
  import opened LedMatrices
  import opened Gestures

  const OptionIgnoreDuplicates: bv32 := 1 << 0
  const OptionWithOnionSkinningFadeIn: bv32 := 1 << 1
  const OptionWithoutWriteResponse: bv32 := 1 << 2

  /** The three option flags are distinct single bits, so any combination can be taken apart. */
  lemma OptionsAreDistinctBits()
    ensures OptionIgnoreDuplicates == 1 && OptionWithOnionSkinningFadeIn == 2 && OptionWithoutWriteResponse == 4
    ensures OptionIgnoreDuplicates & OptionWithOnionSkinningFadeIn == 0
    ensures OptionIgnoreDuplicates & OptionWithoutWriteResponse == 0
    ensures OptionWithOnionSkinningFadeIn & OptionWithoutWriteResponse == 0
  {
  }

  datatype ConnectionState = Disconnected | Connecting | Connected | Disconnecting

  const DefaultMatrixDisplayInterval: real := 2.0

  /** A listener, identified by number; the list may hold the same listener more than once. */
  type ListenerId = nat

  /** The callbacks of `NuimoControllerListener`. */
  datatype Callback =
    | OnConnect
    | OnFailToConnect
    | OnDisconnect
    | OnLedMatrixWrite
    | OnGestureEvent(event: GestureEvent)
    | OnBatteryPercentageChange(batteryPercentage: int)

  /** What a listener's callback does to the controller's listener list. */
  datatype Reaction = NoReaction | AddsListener(added: ListenerId) | RemovesListener(removed: ListenerId)

  /** The listener interface's default bodies: every callback does nothing. */
  const DefaultReactions: (ListenerId, Callback) -> Reaction := (l, cb) => NoReaction

  /** One call of a listener's callback. */
  datatype Call = Call(listener: ListenerId, callback: Callback)

  /** `displayLedMatrix(matrix, displayInterval, options)` with every argument explicit. */
  datatype DisplayRequest = DisplayRequest(matrix: LedMatrix, displayInterval: real, options: bv32)

  /** `listeners.add`: appends, duplicates allowed. */
  function AddListener(listeners: seq<ListenerId>, l: ListenerId): seq<ListenerId> {
    listeners + [l]
  }

  /** `listeners.remove`: deletes the first occurrence, if any. */
  function RemoveListener(listeners: seq<ListenerId>, l: ListenerId): seq<ListenerId> {
    RemoveFirst(listeners, l)
  }

  /** Adding a listener counts it once more; removing counts it once less (if it was there). */
  lemma AddRemoveCounts(listeners: seq<ListenerId>, l: ListenerId)
    ensures multiset(AddListener(listeners, l)) == multiset(listeners) + multiset{l}
    ensures multiset(RemoveListener(listeners, l)) == multiset(listeners) - multiset{l}
  {
    RemoveFirstCount(listeners, l);
  }

  /** Removing a listener just added to a list without it restores the list. */
  lemma AddThenRemoveRestores(listeners: seq<ListenerId>, l: ListenerId)
    requires l !in listeners
    ensures RemoveListener(AddListener(listeners, l), l) == listeners
  {
    var s := AddListener(listeners, l);
    assert s[|listeners|] == l;
    forall k | 0 <= k < |listeners| ensures s[k] != l {
      assert s[k] == listeners[k];
    }
    assert IndexOf(s, l) == |listeners|;
    assert s[..|listeners|] == listeners;
  }

  function React(listeners: seq<ListenerId>, r: Reaction): seq<ListenerId> {
    match r
    case NoReaction => listeners
    case AddsListener(l) => AddListener(listeners, l)
    case RemovesListener(l) => RemoveListener(listeners, l)
  }

  /** The calls a notification round makes: one per listener of the snapshot, in its order. */
  function Calls(snapshot: seq<ListenerId>, cb: Callback): (r: seq<Call>)
    ensures |r| == |snapshot|
    ensures forall k :: 0 <= k < |r| ==> r[k] == Call(snapshot[k], cb)
  {
    seq(|snapshot|, k requires 0 <= k < |snapshot| => Call(snapshot[k], cb))
  }

  /** The listener list after the listeners of `snapshot` have reacted to `cb`, in order. */
  function AfterNotify(listeners: seq<ListenerId>, snapshot: seq<ListenerId>, cb: Callback,
                       react: (ListenerId, Callback) -> Reaction): seq<ListenerId>
    decreases |snapshot|
  {
    if snapshot == [] then listeners
    else React(AfterNotify(listeners, snapshot[..|snapshot| - 1], cb, react), react(snapshot[|snapshot| - 1], cb))
  }

  /** One more listener in the snapshot is one more call at the end. */
  lemma CallsAppend(snapshot: seq<ListenerId>, l: ListenerId, cb: Callback)
    ensures Calls(snapshot + [l], cb) == Calls(snapshot, cb) + [Call(l, cb)]
  {
    var a, b := Calls(snapshot + [l], cb), Calls(snapshot, cb) + [Call(l, cb)];
    assert |a| == |b|;
    forall k | 0 <= k < |a| ensures a[k] == b[k] {
      if k < |snapshot| { assert (snapshot + [l])[k] == snapshot[k]; }
    }
  }

  /** How many of `calls` go to listener `l`. */
  function CallsTo(calls: seq<Call>, l: ListenerId): nat
    decreases |calls|
  {
    if calls == [] then 0
    else CallsTo(calls[..|calls| - 1], l) + (if calls[|calls| - 1].listener == l then 1 else 0)
  }

  /** Every listener in the snapshot is called as often as it occurs there and no other listener
      is called, whatever the callbacks do to the list. */
  lemma {:induction false} CallsMatchSnapshot(snapshot: seq<ListenerId>, cb: Callback, l: ListenerId)
    ensures CallsTo(Calls(snapshot, cb), l) == multiset(snapshot)[l]
    decreases |snapshot|
  {
    if snapshot != [] {
      var init, last := snapshot[..|snapshot| - 1], snapshot[|snapshot| - 1];
      CallsMatchSnapshot(init, cb, l);
      var calls := Calls(snapshot, cb);
      assert calls[..|calls| - 1] == Calls(init, cb);
      assert snapshot == init + [last];
      assert multiset(snapshot) == multiset(init) + multiset{last};
    }
  }

  /** With the default (empty) callbacks a notification round leaves the listener list as it was. */
  lemma {:induction false} DefaultCallbacksKeepListeners(listeners: seq<ListenerId>, snapshot: seq<ListenerId>, cb: Callback)
    ensures AfterNotify(listeners, snapshot, cb, DefaultReactions) == listeners
    decreases |snapshot|
  {
    if snapshot != [] {
      DefaultCallbacksKeepListeners(listeners, snapshot[..|snapshot| - 1], cb);
    }
  }

  /** A listener that the first listener adds from inside its callback is not called in the same
      round, but is on the list for the next one. */
  lemma ListenerAddedDuringRoundWaits(snapshot: seq<ListenerId>, cb: Callback, newcomer: ListenerId)
    requires |snapshot| == 1 && newcomer !in snapshot
    ensures var react := (l, c) => if l == snapshot[0] then AddsListener(newcomer) else NoReaction;
      Call(newcomer, cb) !in Calls(snapshot, cb) &&
      AfterNotify(snapshot, snapshot, cb, react) == snapshot + [newcomer]
  {
    var react := (l, c) => if l == snapshot[0] then AddsListener(newcomer) else NoReaction;
    assert snapshot[..0] == [];
    assert AfterNotify(snapshot, snapshot[..0], cb, react) == snapshot;
  }

  /** The one-argument overload fills in the controller's default interval and no options. */
  function DisplayWithDefaults(matrix: LedMatrix, defaultInterval: real): (r: DisplayRequest)
    ensures r.matrix == matrix && r.displayInterval == defaultInterval && r.options == 0
  {
    DisplayRequest(matrix, defaultInterval, 0)
  }

  /** The overload with an interval passes no options. */
  function DisplayWithInterval(matrix: LedMatrix, displayInterval: real): (r: DisplayRequest)
    ensures r.matrix == matrix && r.displayInterval == displayInterval && r.options == 0
  {
    DisplayRequest(matrix, displayInterval, 0)
  }

  /** The overload with options fills in the controller's default interval. */
  function DisplayWithOptions(matrix: LedMatrix, defaultInterval: real, options: bv32): (r: DisplayRequest)
    ensures r.matrix == matrix && r.displayInterval == defaultInterval && r.options == options
  {
    DisplayRequest(matrix, defaultInterval, options)
  }

  /** The state `NuimoController` keeps for every controller. */
  class NuimoController {
    const address: string
    /** What each listener's callbacks do to the listener list. */
    const react: (ListenerId, Callback) -> Reaction
    var defaultMatrixDisplayInterval: real
    var connectionState: ConnectionState
    var listeners: seq<ListenerId>
    /** Every callback made, oldest first. */
    var calls: seq<Call>

    constructor(address: string, react: (ListenerId, Callback) -> Reaction)
      ensures this.address == address && this.react == react
      ensures defaultMatrixDisplayInterval == DefaultMatrixDisplayInterval
      ensures connectionState == Disconnected
      ensures listeners == [] && calls == []
    {
      this.address := address;
      this.react := react;
      defaultMatrixDisplayInterval := DefaultMatrixDisplayInterval;
      connectionState := Disconnected;
      listeners := [];
      calls := [];
    }

    method AddControllerListener(controllerListener: ListenerId)
      modifies this
      ensures listeners == AddListener(old(listeners), controllerListener)
      ensures calls == old(calls) && connectionState == old(connectionState)
      ensures defaultMatrixDisplayInterval == old(defaultMatrixDisplayInterval)
    {
      listeners := listeners + [controllerListener];
    }

    method RemoveControllerListener(controllerListener: ListenerId)
      modifies this
      ensures listeners == RemoveListener(old(listeners), controllerListener)
      ensures calls == old(calls) && connectionState == old(connectionState)
      ensures defaultMatrixDisplayInterval == old(defaultMatrixDisplayInterval)
    {
      listeners := RemoveFirst(listeners, controllerListener);
    }

    /** `notifyListeners`: calls `cb` on a copy of the list taken first, so listeners added or
        removed by a callback do not change who is called in this round. */
    method NotifyListeners(cb: Callback)
      modifies this
      ensures calls == old(calls) + Calls(old(listeners), cb)
      ensures listeners == AfterNotify(old(listeners), old(listeners), cb, react)
      ensures connectionState == old(connectionState)
      ensures defaultMatrixDisplayInterval == old(defaultMatrixDisplayInterval)
    {
      var copy := listeners;
      for k := 0 to |copy|
        invariant calls == old(calls) + Calls(copy[..k], cb)
        invariant listeners == AfterNotify(copy, copy[..k], cb, react)
        invariant connectionState == old(connectionState)
        invariant defaultMatrixDisplayInterval == old(defaultMatrixDisplayInterval)
      {
        calls := calls + [Call(copy[k], cb)];
        listeners := React(listeners, react(copy[k], cb));
        assert copy[..k + 1] == copy[..k] + [copy[k]];
        CallsAppend(copy[..k], copy[k], cb);
      }
      assert copy[..|copy|] == copy;
    }
  }
}
