# Nuimo Android driver, modelled in Dafny

A model of the Kotlin core of the Nuimo Android library (`com.senic.nuimo`). The library
discovers Nuimo controllers over Bluetooth Low Energy, connects to them, decodes their
sensor notifications into gesture events and writes 9x9 LED matrices to them.

The model covers these parts:

- **LED matrices** (`led_matrix.dfy`, `builtin_led_matrix.dfy`).
  - `NuimoLedMatrix` is built from a pattern string: 81 on/off bits, one per character, where a space or `0` is dark.
  - Its `equals` compares the bits.
  - `NuimoBuiltInLedMatrix` builds a matrix from a byte, with the in-place `toMatrixBits` loop over an array.
- **Gestures** (`gesture_event.dfy`): `NuimoGesture` and `NuimoGestureEvent`.
- **Wire protocol** (`gatt_protocol.dfy`).
  - The characteristics the driver knows, and `getIntValue` for unsigned 8-bit and signed 16-bit little-endian values.
  - The notification decoder `toNuimoGestureEvent`: button, rotation, one-byte and legacy touch, fly.
  - The touch lookup tables.
  - The LED frame encoder: the `chunk` loop, `gattBytes`, the 0xFF terminator and the display-duration byte.
- **Write queue** (`write_queue.dfy`).
  - `WriteQueue` serialises GATT requests: one outstanding request, the rest waiting.
  - It is a class over its `isIdle` flag and request list, proved against step functions on a `QueueState` value.
- **Matrix writer** (`led_matrix_writer.dfy`): `LedMatrixWriter`.
  - Sends a matrix at once on an idle queue.
  - Otherwise remembers only the latest matrix, and sends it when the outstanding write is answered.
- **Controller base** (`nuimo_controller.dfy`): `NuimoController`.
  - The option bits, the connection states, the `displayLedMatrix` overloads.
  - The listener list, and `notifyListeners`, which works on a copy of the list.
- **Bluetooth controller** (`bluetooth_controller.dfy`).
  - `NuimoBluetoothController` and its GATT callbacks: the connection state machine.
  - Service discovery and subscription to the four sensors, write responses, notifications.
  - It is a class over the controller, queue and writer objects, proved against step functions on a `Session` value.
- **Discovery** (`discovery_manager.dfy`): `NuimoDiscoveryManager`.
  - The registry of discovered controllers and the lost-controller check.
  - `startDiscovery` / `stopDiscovery`, and the answer to the location-permission request.
- **Shared pieces** (`list_ops.dfy`, `binary.dfy`, `wrappers.dfy`).
  - `java.util.List.indexOf` and `remove(element)`.
  - Two's-complement bits and powers of two.
  - Kotlin's nullable values as `Option`.

Each class method is proved to perform a step function of the abstract state. The
lemmas then state what the source promises about those steps:

- first-in first-out order of the write queue;
- coalescing of bursts of matrix writes;
- exactly one listener round per link loss;
- subscriptions sent one per descriptor response, and `onConnect` after the last;
- the registry keeping addresses unique;
- the lost check reporting exactly the expired controllers;
- the LED bit layout of the frame;
- the decoding of every sensor payload.

Three facts about the code that the proofs make explicit:

- `WriteQueue.clear` only drops the waiting requests. A queue with an outstanding request stays busy after `disconnect`. `BusyQueueStallsReconnect` shows the consequence: after a reconnect, no subscription is sent until a late response arrives.
- The option bits (`OPTION_IGNORE_DUPLICATES`, `OPTION_WITH_ONION_SKINNING_FADE_IN`, `OPTION_WITHOUT_WRITE_RESPONSE`) are declared and passed along by the `displayLedMatrix` overloads, but no code acts on them.
- Writing the all-on matrix and then the all-off matrix back to back sends the first frame at once and the second on the first write response (`OnThenOffBackToBack`).

The source files come from more than one revision of the library, and the model resolves the mismatches:

- `NuimoBuiltInLedMatrix` calls a bits-based `NuimoLedMatrix` constructor that `NuimoLedMatrix.kt` does not declare. The model treats the datatype constructor `LedMatrix(bits)` as that constructor.
- The decoder produces `FLY_LEFT`, `FLY_RIGHT`, `FLY_BACKWARDS` and `FLY_TOWARDS`, which the `NuimoGesture` enum lacks. The model adds the four kinds to `Gesture`.
- `NuimoController` declares an abstract three-argument `displayLedMatrix(matrix, interval, options)`. `NuimoBluetoothController` overrides a two-argument form. In the model every overload ends in the writer's `write(matrix, interval)`, and the options are ignored.
- `onFailToConnect` is called without the `reason` argument the listener interface declares. The `REASON_*` constants are not used by any code.

## Model

| member | source | states |
|---|---|---|
| ListOps.IndexOf | nuimo/src/main/kotlin/com/senic/nuimo/NuimoDiscoveryManager.kt:201 | -1 exactly when the element is absent; otherwise a valid index holding the element with no earlier occurrence |
| ListOps.RemoveFirst | nuimo/src/main/kotlin/com/senic/nuimo/NuimoController.kt:67-69 | a list without the element is unchanged; otherwise exactly its first occurrence is cut out |
| ListOps.RemoveFirstCount | nuimo/src/main/kotlin/com/senic/nuimo/NuimoController.kt:67-69 | removal takes away exactly one occurrence (multiset difference) |
| LedMatrices.PadEnd | nuimo/src/main/kotlin/com/senic/nuimo/NuimoLedMatrix.kt:21 | the result is as long as the target length (or the string, if longer), keeps the string's characters and fills the rest with the pad character |
| LedMatrices.LitBits | nuimo/src/main/kotlin/com/senic/nuimo/NuimoLedMatrix.kt:22-23 | one bit per character, set exactly when the character is not one of the off characters ' ' and '0' |
| LedMatrices.FromString | nuimo/src/main/kotlin/com/senic/nuimo/NuimoLedMatrix.kt:18-24 | a matrix of exactly 81 bits; LED i is lit exactly when the pattern has a character at i and it is not an off character |
| LedMatrices.LongPatternsTruncate | nuimo/src/androidTest/kotlin/com/senic/nuimo/NuimoLedMatrixTest.kt:56-68 | a pattern longer than 81 characters gives the matrix of its first 81 |
| LedMatrices.ShortPatternsPad | nuimo/src/main/kotlin/com/senic/nuimo/NuimoLedMatrix.kt:20-21 | a short pattern keeps its own bits and the remaining LEDs are dark |
| LedMatrices.OffPatternIsAllOff | nuimo/src/androidTest/kotlin/com/senic/nuimo/NuimoLedMatrixTest.kt:14-26 | a pattern of only off characters darkens all 81 LEDs |
| LedMatrices.LitPatternIsAllOn | nuimo/src/androidTest/kotlin/com/senic/nuimo/NuimoLedMatrixTest.kt:28-40 | a full-length pattern of lit characters lights all 81 LEDs |
| LedMatrices.FirstRowPattern | nuimo/src/androidTest/kotlin/com/senic/nuimo/NuimoLedMatrixTest.kt:42-54 | nine '1' then nine '0' light exactly the first row |
| LedMatrices.SamePatternIff | nuimo/src/main/kotlin/com/senic/nuimo/NuimoLedMatrix.kt:26-31 | two pattern matrices are equal if and only if the patterns light the same LEDs |
| LedMatrices.EqualsIsEquivalence | nuimo/src/main/kotlin/com/senic/nuimo/NuimoLedMatrix.kt:26-31 | matrix equality is reflexive, symmetric, transitive and holds exactly for equal bit lists |
| BuiltInMatrices.ToMatrixBits | nuimo/src/main/kotlin/com/senic/nuimo/NuimoBuiltInLedMatrix.kt:28-38 | the in-place loop fills an 81-element array whose element i is bit i of a positive byte, and leaves it all false for a zero or negative byte |
| BuiltInMatrices.Busy | nuimo/src/main/kotlin/com/senic/nuimo/NuimoBuiltInLedMatrix.kt:13-16 | the BUSY matrix (byte 1) lights LED 0 and nothing else |
| BuiltInMatrices.NonPositiveByteIsDark | nuimo/src/main/kotlin/com/senic/nuimo/NuimoBuiltInLedMatrix.kt:30-32 | a zero or negative byte never enters the loop: every LED is off |
| BuiltInMatrices.OnlyFirstSevenLedsLight | nuimo/src/main/kotlin/com/senic/nuimo/NuimoBuiltInLedMatrix.kt:28-38 | a signed byte can light only LEDs 0 to 6 |
| BuiltInMatrices.BuiltInEqualsIsStructural | nuimo/src/main/kotlin/com/senic/nuimo/NuimoBuiltInLedMatrix.kt:18-23 | both branches of the override compare bit lists, so a built-in matrix equals exactly the matrices with its bits |
| Gestures.ValueIsAbsentByDefault | nuimo/src/main/kotlin/com/senic/nuimo/NuimoGestureEvent.kt:10-13 | an event built without a value carries none and keeps its gesture |
| Gestures.TouchKindsBySide | nuimo/src/main/kotlin/com/senic/nuimo/NuimoGestureEvent.kt:15-33 | the touch kinds are exactly one distinct DOWN and one distinct RELEASE per side |
| Gestures.SwipeKindsBySide | nuimo/src/main/kotlin/com/senic/nuimo/NuimoGestureEvent.kt:15-33 | the swipe kinds are exactly one distinct kind per side |
| GattProtocol.Sint16Of | nuimo/src/main/kotlin/com/senic/nuimo/NuimoBluetoothController.kt:284 | two little-endian bytes read as a value in -32768..32767 congruent to the unsigned reading modulo 65536 |
| GattProtocol.GetIntValue | nuimo/src/main/kotlin/com/senic/nuimo/NuimoBluetoothController.kt:280 | present exactly when the payload is long enough for the format; then the byte at the offset (UINT8) or the signed 16-bit reading (SINT16) |
| GattProtocol.Sint16RoundTrip | nuimo/src/main/kotlin/com/senic/nuimo/NuimoBluetoothController.kt:284 | reading back the two little-endian bytes of a 16-bit value gives the value |
| GattProtocol.Lookup | nuimo/src/main/kotlin/com/senic/nuimo/NuimoBluetoothController.kt:289-294 | a map lookup with a possibly absent key is present exactly when the key is present and mapped, and then gives the mapped gesture |
| GattProtocol.TouchLookupsBySide | nuimo/src/main/kotlin/com/senic/nuimo/NuimoBluetoothController.kt:336-362 | a touch of either kind on a side releases to that side's RELEASE and swipes towards that side |
| GattProtocol.TouchLookupsOnTouchKinds | nuimo/src/main/kotlin/com/senic/nuimo/NuimoBluetoothController.kt:336-362 | both lookups are defined exactly on the eight touch kinds, and releasing a release changes nothing |
| GattProtocol.LegacyEventOnTouchDown | nuimo/src/main/kotlin/com/senic/nuimo/NuimoBluetoothController.kt:303-311 | on any legacy button bit the event code alone decides: 1, 2 and 4 give a gesture, every other code (double touch 3 included) none |
| GattProtocol.LegacyTouchStep | nuimo/src/main/kotlin/com/senic/nuimo/NuimoBluetoothController.kt:301-315 | one turn of the scan reports a set bit with a usable event code and otherwise goes on to the next bit |
| GattProtocol.LowestSetBit | nuimo/src/main/kotlin/com/senic/nuimo/NuimoBluetoothController.kt:301-302 | the first set bit at or after the start, or 8 when bits up to 7 are clear; every bit skipped is clear |
| GattProtocol.LegacyTouchFindsLowestBit | nuimo/src/main/kotlin/com/senic/nuimo/NuimoBluetoothController.kt:299-316 | the legacy scan reports the lowest set button bit, with its side's gesture for event 1, 2 or 4 and the bit number as value, and nothing otherwise |
| GattProtocol.LowBitsIgnoreHighByte | nuimo/src/main/kotlin/com/senic/nuimo/NuimoBluetoothController.kt:299-302 | adding a multiple of 256 does not change bits 0 to 7 |
| GattProtocol.ButtonDecoding | nuimo/src/main/kotlin/com/senic/nuimo/NuimoBluetoothController.kt:279-282 | byte 1 is a press and any other byte (an empty payload reads 0) a release, with the byte as value |
| GattProtocol.RotationDecoding | nuimo/src/main/kotlin/com/senic/nuimo/NuimoBluetoothController.kt:283-286 | a rotation by v is reported as a right turn for v >= 0 and a left turn otherwise, with magnitude abs(v) |
| GattProtocol.RotationMinusFifty | nuimo/src/main/kotlin/com/senic/nuimo/NuimoBluetoothController.kt:283-286 | the payload 0xCE 0xFF is a left turn by 50 |
| GattProtocol.OneByteTouchDecoding | nuimo/src/main/kotlin/com/senic/nuimo/NuimoBluetoothController.kt:288-296 | a one-byte touch payload 0 to 3 is a swipe left, right, up or down with value 0; any other byte is no event |
| GattProtocol.LegacyTouchDecoding | nuimo/src/main/kotlin/com/senic/nuimo/NuimoBluetoothController.kt:297-316 | a legacy touch payload is scanned with the signed readings of bytes 0-1 and 2-3, and the scanned bits are those of the first byte whatever the sign |
| GattProtocol.ShortLegacyTouchIsIgnored | nuimo/src/main/kotlin/com/senic/nuimo/NuimoBluetoothController.kt:299-300 | a legacy touch payload too short for an event code (event reads 0) gives no event |
| GattProtocol.FlyDecoding | nuimo/src/main/kotlin/com/senic/nuimo/NuimoBluetoothController.kt:319-329 | a fly payload under two bytes gives nothing; otherwise direction code 0 to 3 gives the fly gesture with the second byte as speed, other codes nothing |
| GattProtocol.OtherCharacteristicsGiveNoEvent | nuimo/src/main/kotlin/com/senic/nuimo/NuimoBluetoothController.kt:330 | notifications of characteristics other than the four sensors give no event |
| GattProtocol.ChunksPartition | nuimo/src/main/kotlin/com/senic/nuimo/NuimoBluetoothController.kt:261-275 | the chunks concatenate back to the list; none is empty or longer than n, and all but the last are exactly n long |
| GattProtocol.Chunk | nuimo/src/main/kotlin/com/senic/nuimo/NuimoBluetoothController.kt:261-275 | the count-down loop produces exactly the chunking of the list |
| GattProtocol.ChunkValue | nuimo/src/main/kotlin/com/senic/nuimo/NuimoBluetoothController.kt:253-255 | the number a chunk encodes is below 2 to the power of the chunk's length |
| GattProtocol.ChunkValueBit | nuimo/src/main/kotlin/com/senic/nuimo/NuimoBluetoothController.kt:254-255 | bit i of a chunk's number is the chunk's element i; higher bits are clear |
| GattProtocol.GattByteIsChunkValue | nuimo/src/main/kotlin/com/senic/nuimo/NuimoBluetoothController.kt:250-259 | byte k of gattBytes is the number of chunk k, with nothing lost to the byte conversion |
| GattProtocol.LedBitInByte | nuimo/src/main/kotlin/com/senic/nuimo/NuimoBluetoothController.kt:250-259 | LED n is bit n mod 8 of byte n div 8 |
| GattProtocol.GattBytesLayout | nuimo/src/main/kotlin/com/senic/nuimo/NuimoBluetoothController.kt:250-259 | an 81-LED matrix encodes as 11 bytes holding every LED in its bit; the last byte holds only LED 80 |
| GattProtocol.GattBytesOfPattern | nuimo/src/androidTest/kotlin/com/senic/nuimo/NuimoLedMatrixTest.kt:70-73 | the pattern of eight lit, eight dark and four alternating LEDs encodes as 0xFF, 0x00, 0x55 and eight zero bytes |
| GattProtocol.DurationByte | nuimo/src/main/kotlin/com/senic/nuimo/NuimoBluetoothController.kt:198 | tenths of a second clamped to 0..255 and truncated: 0 for non-positive intervals, 255 from 25.5 s, otherwise the floor of ten times the interval |
| GattProtocol.FrameLayout | nuimo/src/main/kotlin/com/senic/nuimo/NuimoBluetoothController.kt:198 | the LED frame is 13 bytes: the 11 matrix bytes, 0xFF, then the duration byte |
| WriteQueues.StepKeepsOrder | nuimo/src/main/kotlin/com/senic/nuimo/NuimoBluetoothController.kt:151-166 | push and next keep "idle implies nothing waiting", never reorder or lose an accepted request, and send at most one request each |
| WriteQueues.RunIsFifo | nuimo/src/main/kotlin/com/senic/nuimo/NuimoBluetoothController.kt:142-166 | without clear, the accepted requests grow by exactly the pushed ones in push order, and earlier sends stay a prefix |
| WriteQueues.PushesSendAtMostOne | nuimo/src/main/kotlin/com/senic/nuimo/NuimoBluetoothController.kt:151-157 | a run of pushes sends only its first request, and only from an idle queue; the queue is busy afterwards |
| WriteQueues.NextsDrain | nuimo/src/main/kotlin/com/senic/nuimo/NuimoBluetoothController.kt:159-166 | one next per waiting request sends them all in order; one more makes the queue idle |
| WriteQueues.ClearedBusyQueueStalls | nuimo/src/main/kotlin/com/senic/nuimo/NuimoBluetoothController.kt:168 | clearing a busy queue leaves it busy: later pushes wait and nothing is sent |
| WriteQueues.WriteQueue.constructor | nuimo/src/main/kotlin/com/senic/nuimo/NuimoBluetoothController.kt:146-148 | a new queue is idle with nothing waiting or sent |
| WriteQueues.WriteQueue.Push | nuimo/src/main/kotlin/com/senic/nuimo/NuimoBluetoothController.kt:151-157 | an idle queue posts the request, a busy one appends it; busy afterwards |
| WriteQueues.WriteQueue.Next | nuimo/src/main/kotlin/com/senic/nuimo/NuimoBluetoothController.kt:159-166 | posts the oldest waiting request or becomes idle, and returns whether it is still busy |
| WriteQueues.WriteQueue.Clear | nuimo/src/main/kotlin/com/senic/nuimo/NuimoBluetoothController.kt:168 | drops the waiting requests only |
| WriteQueues.WriteQueue.PerformWriteRequest | nuimo/src/main/kotlin/com/senic/nuimo/NuimoBluetoothController.kt:170-172 | records the request as posted and changes nothing else |
| MatrixWriters.IdleWriteSendsAtOnce | nuimo/src/main/kotlin/com/senic/nuimo/NuimoBluetoothController.kt:187-195 | on an idle queue a write sends its frame at once |
| MatrixWriters.BusyWritesAreHeldBack | nuimo/src/main/kotlin/com/senic/nuimo/NuimoBluetoothController.kt:187-195 | writes on a busy queue send and queue nothing and leave the last matrix and interval marked |
| MatrixWriters.BusyWritesCoalesce | nuimo/src/main/kotlin/com/senic/nuimo/NuimoBluetoothController.kt:175-211 | a burst of writes costs exactly one frame, that of the last matrix and interval, sent on the next write response |
| MatrixWriters.AckWithoutMarkOnlyAdvances | nuimo/src/main/kotlin/com/senic/nuimo/NuimoBluetoothController.kt:205-211 | a write response with nothing marked only advances the queue |
| MatrixWriters.OnThenOffBackToBack | nuimo/src/main/kotlin/com/senic/nuimo/NuimoBluetoothController.kt:187-211 | two writes back to back: the first frame at once, the second on the first response, and the queue idle after the second |
| MatrixWriters.LedMatrixWriter.constructor | nuimo/src/main/kotlin/com/senic/nuimo/NuimoBluetoothController.kt:179-185 | no matrix, interval 0, nothing marked, on the given queue |
| MatrixWriters.LedMatrixWriter.Write | nuimo/src/main/kotlin/com/senic/nuimo/NuimoBluetoothController.kt:187-195 | records the matrix and interval, then sends now on an idle queue or marks it |
| MatrixWriters.LedMatrixWriter.WriteNow | nuimo/src/main/kotlin/com/senic/nuimo/NuimoBluetoothController.kt:197-203 | pushes the frame of the current matrix (all dark when none) and interval |
| MatrixWriters.LedMatrixWriter.OnWrite | nuimo/src/main/kotlin/com/senic/nuimo/NuimoBluetoothController.kt:205-211 | advances the queue, then sends and unmarks a marked matrix |
| Controllers.OptionsAreDistinctBits | nuimo/src/main/kotlin/com/senic/nuimo/NuimoController.kt:15-19 | the three options are the bits 1, 2 and 4 and pairwise disjoint |
| Controllers.AddRemoveCounts | nuimo/src/main/kotlin/com/senic/nuimo/NuimoController.kt:63-69 | adding counts a listener once more; removing counts it once less |
| Controllers.AddThenRemoveRestores | nuimo/src/main/kotlin/com/senic/nuimo/NuimoController.kt:63-69 | removing a listener just added to a list without it restores the list |
| Controllers.Calls | nuimo/src/main/kotlin/com/senic/nuimo/NuimoController.kt:76-78 | a round makes one call per listener of the copy, in list order |
| Controllers.CallsMatchSnapshot | nuimo/src/main/kotlin/com/senic/nuimo/NuimoController.kt:71-78 | every listener of the copy is called as often as it occurs in it, whatever the callbacks do to the list |
| Controllers.DefaultCallbacksKeepListeners | nuimo/src/main/kotlin/com/senic/nuimo/NuimoController.kt:81-100 | with the interface's empty default callbacks a round leaves the list unchanged |
| Controllers.ListenerAddedDuringRoundWaits | nuimo/src/main/kotlin/com/senic/nuimo/NuimoController.kt:71-78 | a listener added from inside a callback is not called in that round but is on the list afterwards |
| Controllers.DisplayWithDefaults | nuimo/src/main/kotlin/com/senic/nuimo/NuimoController.kt:49-51 | the one-argument overload uses the default interval and no options |
| Controllers.DisplayWithInterval | nuimo/src/main/kotlin/com/senic/nuimo/NuimoController.kt:53-55 | the interval overload keeps the interval and passes no options |
| Controllers.DisplayWithOptions | nuimo/src/main/kotlin/com/senic/nuimo/NuimoController.kt:57-59 | the options overload uses the default interval and keeps the options |
| Controllers.NuimoController.constructor | nuimo/src/main/kotlin/com/senic/nuimo/NuimoController.kt:29-43 | disconnected, default interval 2.0, no listeners |
| Controllers.NuimoController.AddControllerListener | nuimo/src/main/kotlin/com/senic/nuimo/NuimoController.kt:63-65 | appends the listener and changes nothing else |
| Controllers.NuimoController.RemoveControllerListener | nuimo/src/main/kotlin/com/senic/nuimo/NuimoController.kt:67-69 | removes the listener's first occurrence and changes nothing else |
| Controllers.NuimoController.NotifyListeners | nuimo/src/main/kotlin/com/senic/nuimo/NuimoController.kt:76-78 | calls exactly the listeners of the copy taken first, in order, and the list becomes what their callbacks make it |
| BluetoothControllers.ConnectStartsAfresh | nuimo/src/main/kotlin/com/senic/nuimo/NuimoBluetoothController.kt:30-41 | no effect while a handle is held; otherwise CONNECTING with no handle, writer or waiting request, connectGatt posted, nobody called |
| BluetoothControllers.DisconnectOnce | nuimo/src/main/kotlin/com/senic/nuimo/NuimoBluetoothController.kt:43-54 | no effect without a handle; otherwise DISCONNECTING with the handle's disconnect posted, nobody called; disconnecting twice is disconnecting once |
| BluetoothControllers.LinkLossReportsOnce | nuimo/src/main/kotlin/com/senic/nuimo/NuimoBluetoothController.kt:73-96 | a DISCONNECTED report closes the handle and calls the listeners once: onFailToConnect if CONNECTING, onDisconnect if CONNECTED or DISCONNECTING, nobody if DISCONNECTED |
| BluetoothControllers.LinkUpDiscoversServices | nuimo/src/main/kotlin/com/senic/nuimo/NuimoBluetoothController.kt:91-95 | a successful CONNECTED report only posts service discovery; a failure status disconnects |
| BluetoothControllers.UserDisconnectThenLinkDown | nuimo/src/main/kotlin/com/senic/nuimo/NuimoBluetoothController.kt:43-96 | user disconnect then link down: one onDisconnect round, disconnect then close posted, DISCONNECTED |
| BluetoothControllers.FailedAttemptEndsDisconnecting | nuimo/src/main/kotlin/com/senic/nuimo/NuimoBluetoothController.kt:30-96 | a failed connection attempt gives one onFailToConnect round and leaves the controller DISCONNECTING |
| BluetoothControllers.ServicesDiscoveredSubscribes | nuimo/src/main/kotlin/com/senic/nuimo/NuimoBluetoothController.kt:98-106 | service discovery queues one subscription per sensor characteristic, in order, keeping the queue's invariant |
| BluetoothControllers.ServicesDiscoveredCreatesWriter | nuimo/src/main/kotlin/com/senic/nuimo/NuimoBluetoothController.kt:98-106 | a fresh writer exists afterwards exactly when the LED matrix characteristic was discovered; nobody is called |
| BluetoothControllers.FirstSubscriptionGoesOut | nuimo/src/main/kotlin/com/senic/nuimo/NuimoBluetoothController.kt:98-106 | on an idle queue the first subscription is sent at once and the rest wait |
| BluetoothControllers.SubscriptionsSentAtMostOnce | nuimo/src/main/kotlin/com/senic/nuimo/NuimoBluetoothController.kt:98-106 | service discovery sends at most one subscription, and only from an idle queue |
| BluetoothControllers.SubscriptionsThenConnect | nuimo/src/main/kotlin/com/senic/nuimo/NuimoBluetoothController.kt:124-131 | each descriptor response sends the next subscription silently; the one that finds none left makes the controller CONNECTED and calls onConnect once per listener |
| BluetoothControllers.DrainQuietly | nuimo/src/main/kotlin/com/senic/nuimo/NuimoBluetoothController.kt:124-131 | n responses with requests still waiting send the next n and change nothing else |
| BluetoothControllers.ConnectedDescriptorWritesAreQuiet | nuimo/src/main/kotlin/com/senic/nuimo/NuimoBluetoothController.kt:124-131 | once connected, descriptor responses never call a listener or change the connection state |
| BluetoothControllers.LedWriteResponse | nuimo/src/main/kotlin/com/senic/nuimo/NuimoBluetoothController.kt:108-117 | an LED write response lets the writer go on and calls onLedMatrixWrite only on success; other characteristics are ignored |
| BluetoothControllers.GestureNotification | nuimo/src/main/kotlin/com/senic/nuimo/NuimoBluetoothController.kt:119-122 | a notification causes one onGestureEvent round exactly when it decodes to an event |
| BluetoothControllers.DisplayWithoutWriterIsDropped | nuimo/src/main/kotlin/com/senic/nuimo/NuimoBluetoothController.kt:68-70 | without a writer a matrix is silently dropped |
| BluetoothControllers.BusyQueueStallsReconnect | nuimo/src/main/kotlin/com/senic/nuimo/NuimoBluetoothController.kt:56-61 | a queue busy at disconnect stays busy through reconnect and service discovery: subscriptions are queued, none sent |
| BluetoothControllers.LinkDownAsWrittenIsStateChange | nuimo/src/main/kotlin/com/senic/nuimo/NuimoBluetoothController.kt:73-96 | without a reconnecting listener, the as-written link-down order is the state-change step itself |
| BluetoothControllers.ReconnectFromCallbackIgnored | nuimo/src/main/kotlin/com/senic/nuimo/NuimoBluetoothController.kt:30-96 | a connected controller that loses its link while holding its handle ignores a `connect()` made from `onDisconnect`: close then disconnect posted, no `connectGatt`, DISCONNECTING |
| BluetoothControllers.ReconnectFromCallbackTakesEffect | nuimo/src/main/kotlin/com/senic/nuimo/NuimoBluetoothController.kt:30-96 | with the handle dropped before the listeners run, the same onDisconnect round happens; a `connect()` from it posts `connectGatt` and leaves CONNECTING, and without one the controller ends DISCONNECTED |
| BluetoothControllers.BluetoothController.constructor | nuimo/src/main/kotlin/com/senic/nuimo/NuimoBluetoothController.kt:18-28 | disconnected, no handle, idle queue, no writer, no listeners, default interval 2 seconds; the controller part and the queue are new objects |
| BluetoothControllers.ConnectNewController | nuimo/src/main/kotlin/com/senic/nuimo/NuimoBluetoothController.kt:18-41 | a controller created and asked to connect is CONNECTING with only `connectGatt` posted, nobody called, interval 2 seconds |
| BluetoothControllers.BluetoothController.Connect | nuimo/src/main/kotlin/com/senic/nuimo/NuimoBluetoothController.kt:30-41 | performs the connect step; the default display interval is kept |
| BluetoothControllers.BluetoothController.ConnectGattReturned | nuimo/src/main/kotlin/com/senic/nuimo/NuimoBluetoothController.kt:37-40 | the posted block stores the handle connectGatt returned, or none |
| BluetoothControllers.BluetoothController.Disconnect | nuimo/src/main/kotlin/com/senic/nuimo/NuimoBluetoothController.kt:43-54 | performs the disconnect step; the default display interval is kept |
| BluetoothControllers.BluetoothController.Reset | nuimo/src/main/kotlin/com/senic/nuimo/NuimoBluetoothController.kt:56-61 | drops handle and writer, clears the waiting requests |
| BluetoothControllers.BluetoothController.DiscoverServices | nuimo/src/main/kotlin/com/senic/nuimo/NuimoBluetoothController.kt:63-66 | posts service discovery only |
| BluetoothControllers.BluetoothController.DisplayLedMatrixFor | nuimo/src/main/kotlin/com/senic/nuimo/NuimoBluetoothController.kt:68-70 | hands matrix and interval to the writer, if any |
| BluetoothControllers.BluetoothController.DisplayLedMatrixWith | nuimo/src/main/kotlin/com/senic/nuimo/NuimoController.kt:61 | the three-argument form displays with the given interval; options have no effect |
| BluetoothControllers.BluetoothController.DisplayLedMatrix | nuimo/src/main/kotlin/com/senic/nuimo/NuimoController.kt:49-51 | displays with the controller's default interval |
| BluetoothControllers.BluetoothController.DisplayLedMatrixWithOptions | nuimo/src/main/kotlin/com/senic/nuimo/NuimoController.kt:57-59 | displays with the default interval; options have no effect |
| BluetoothControllers.BluetoothController.OnConnectionStateChange | nuimo/src/main/kotlin/com/senic/nuimo/NuimoBluetoothController.kt:73-96 | performs the link-state step: close and report on link down, then disconnect on failure or link down, discover services on link up; the default display interval is kept |
| BluetoothControllers.BluetoothController.CloseLink | nuimo/src/main/kotlin/com/senic/nuimo/NuimoBluetoothController.kt:76-89 | closes the handle, becomes DISCONNECTED and reports by the previous state; the default display interval is kept |
| BluetoothControllers.BluetoothController.OnServicesDiscovered | nuimo/src/main/kotlin/com/senic/nuimo/NuimoBluetoothController.kt:98-106 | the loop over the characteristics performs the service-discovery step; a writer it leaves is the old one or a new object |
| BluetoothControllers.BluetoothController.OnCharacteristicWrite | nuimo/src/main/kotlin/com/senic/nuimo/NuimoBluetoothController.kt:108-117 | performs the write-response step; the default display interval is kept |
| BluetoothControllers.BluetoothController.OnCharacteristicChanged | nuimo/src/main/kotlin/com/senic/nuimo/NuimoBluetoothController.kt:119-122 | performs the notification step; the default display interval is kept |
| BluetoothControllers.BluetoothController.OnDescriptorWrite | nuimo/src/main/kotlin/com/senic/nuimo/NuimoBluetoothController.kt:124-131 | performs the descriptor-response step; the default display interval is kept |
| Discovery.DeviceNames | nuimo/src/main/kotlin/com/senic/nuimo/NuimoDiscoveryManager.kt:56 | "Nuimo" is always accepted, and a name is accepted exactly when it is "Nuimo" or the configured other name |
| Discovery.IndexOfAddress | nuimo/src/main/kotlin/com/senic/nuimo/NuimoDiscoveryManager.kt:230 | -1 exactly when no entry has the address; otherwise the first entry with it |
| Discovery.DiscoverNotices | nuimo/src/main/kotlin/com/senic/nuimo/NuimoDiscoveryManager.kt:238 | one discovery call per listener, in list order |
| Discovery.LoseNotices | nuimo/src/main/kotlin/com/senic/nuimo/NuimoDiscoveryManager.kt:269 | one loss call per listener, in list order |
| Discovery.ForeignDeviceIgnored | nuimo/src/main/kotlin/com/senic/nuimo/NuimoDiscoveryManager.kt:228 | an unnamed or foreign device changes nothing |
| Discovery.KnownAddressRefreshed | nuimo/src/main/kotlin/com/senic/nuimo/NuimoDiscoveryManager.kt:230-234 | a known address only gets its timestamp refreshed; no entry added, nobody called |
| Discovery.NewNuimoRegistered | nuimo/src/main/kotlin/com/senic/nuimo/NuimoDiscoveryManager.kt:236-239 | a new Nuimo is appended once and every listener told once, in order |
| Discovery.FoundKeepsAddressesUnique | nuimo/src/main/kotlin/com/senic/nuimo/NuimoDiscoveryManager.kt:227-240 | the registry never holds an address twice, and gains exactly the accepted device's address |
| Discovery.FoundAllAddresses | nuimo/src/main/kotlin/com/senic/nuimo/NuimoDiscoveryManager.kt:95 | registering devices adds exactly the addresses of the accepted devices among them to the registry's addresses |
| Discovery.FoundAllKeepsAddressesUnique | nuimo/src/main/kotlin/com/senic/nuimo/NuimoDiscoveryManager.kt:95 | registering any devices keeps addresses unique |
| Discovery.LostAndSurvivorsPartition | nuimo/src/main/kotlin/com/senic/nuimo/NuimoDiscoveryManager.kt:267 | the lost entries are exactly the expired ones, the survivors exactly the others, together the registry |
| Discovery.PartitionMultiset | nuimo/src/main/kotlin/com/senic/nuimo/NuimoDiscoveryManager.kt:267 | lost entries plus survivors are the registry as a multiset, expired ones on the lost side only |
| Discovery.PartitionSizes | nuimo/src/main/kotlin/com/senic/nuimo/NuimoDiscoveryManager.kt:267-268 | lost entries and survivors together are as many as the registry had |
| Discovery.RemoveAllLeavesSurvivors | nuimo/src/main/kotlin/com/senic/nuimo/NuimoDiscoveryManager.kt:268 | removeAll of the lost entries leaves exactly the survivors in order |
| Discovery.SurvivorsKeepAddressesUnique | nuimo/src/main/kotlin/com/senic/nuimo/NuimoDiscoveryManager.kt:268 | survivors keep addresses unique and gain none |
| Discovery.EveryLossReported | nuimo/src/main/kotlin/com/senic/nuimo/NuimoDiscoveryManager.kt:269 | every listener is told about every lost entry |
| Discovery.OnlyLossesReported | nuimo/src/main/kotlin/com/senic/nuimo/NuimoDiscoveryManager.kt:269 | every call made is a loss, to a listener, about a lost entry |
| Discovery.LostCheckKeepsSurvivors | nuimo/src/main/kotlin/com/senic/nuimo/NuimoDiscoveryManager.kt:265-271 | the lost check keeps exactly the unexpired entries, with unique addresses |
| Discovery.LostCheckReportsEveryLoss | nuimo/src/main/kotlin/com/senic/nuimo/NuimoDiscoveryManager.kt:265-271 | the lost check tells every listener about every expired entry |
| Discovery.LostCheckReportsNoSurvivor | nuimo/src/main/kotlin/com/senic/nuimo/NuimoDiscoveryManager.kt:265-271 | the lost check reports no address it keeps |
| Discovery.StartRemembersRequest | nuimo/src/main/kotlin/com/senic/nuimo/NuimoDiscoveryManager.kt:82-142 | a start always remembers the request and mode first, throws exactly for a bad mode past the permission check, once past the Bluetooth check has registered exactly the accepted bonded devices (only them and every one of them), each once, and on success has scheduled the lost check; a stop forgets the request |
| Discovery.BondedOnly | nuimo/src/main/kotlin/com/senic/nuimo/NuimoDiscoveryManager.kt:92-95 | from an empty registry, the registered controllers are exactly the accepted devices among those given: nothing else is registered and none of them is missed |
| Discovery.GuardAdmitsMissingResult | nuimo/src/main/kotlin/com/senic/nuimo/NuimoDiscoveryManager.kt:202 | the guard as written lets index 0 through with no results |
| Discovery.PermissionResult | nuimo/src/main/kotlin/com/senic/nuimo/NuimoDiscoveryManager.kt:198-209 | granted exactly for request code 235, the location permission asked, its result present and PERMISSION_GRANTED |
| Discovery.GuardsAgreeExceptAtEnd | nuimo/src/main/kotlin/com/senic/nuimo/NuimoDiscoveryManager.kt:202 | the guard as written passes exactly for a valid index or an index equal to the number of results; on a valid index (with the right request code) the corrected answer is the result read there, and at the end it is false |
| Discovery.DiscoveryManager.constructor | nuimo/src/main/kotlin/com/senic/nuimo/NuimoDiscoveryManager.kt:52-56 | no listeners, no entries, no pending start, low-power mode, the accepted names |
| Discovery.DiscoveryManager.AddDiscoveryListener | nuimo/src/main/kotlin/com/senic/nuimo/NuimoDiscoveryManager.kt:59-61 | appends the listener only |
| Discovery.DiscoveryManager.RemoveDiscoveryListener | nuimo/src/main/kotlin/com/senic/nuimo/NuimoDiscoveryManager.kt:63-65 | removes the listener's first occurrence only |
| Discovery.DiscoveryManager.FindController | nuimo/src/main/kotlin/com/senic/nuimo/NuimoDiscoveryManager.kt:230 | the search loop finds the first entry with the address, or -1 |
| Discovery.DiscoveryManager.OnDeviceFound | nuimo/src/main/kotlin/com/senic/nuimo/NuimoDiscoveryManager.kt:227-240 | performs the device-found step |
| Discovery.DiscoveryManager.CheckLostControllers | nuimo/src/main/kotlin/com/senic/nuimo/NuimoDiscoveryManager.kt:265-271 | performs the lost-check step |
| Discovery.DiscoveryManager.LossCalls | nuimo/src/main/kotlin/com/senic/nuimo/NuimoDiscoveryManager.kt:269 | the nested loops tell each listener about each lost entry, entry by entry |
| Discovery.DiscoveryManager.StartDiscovery | nuimo/src/main/kotlin/com/senic/nuimo/NuimoDiscoveryManager.kt:82-112 | performs the start step and returns its outcome |
| Discovery.DiscoveryManager.StopDiscovery | nuimo/src/main/kotlin/com/senic/nuimo/NuimoDiscoveryManager.kt:127-130 | forgets a pending start and cancels the lost check |
| Discovery.DiscoveryManager.OnRequestPermissionsResult | nuimo/src/main/kotlin/com/senic/nuimo/NuimoDiscoveryManager.kt:198-209 | answers whether the permission was granted; restarts discovery exactly when granted with a start pending; otherwise changes nothing |

## Left out

- The Android Bluetooth stack is not modelled. `connectGatt`, `discoverServices`, `disconnect`, `close`, `writeCharacteristic` and `writeDescriptor` are recorded in a transport log or a list of posted requests. Work posted to the main thread's `Handler` is recorded at posting time. Only the `connectGatt` block's result is modelled, as the separate call `ConnectGattReturned`.
- The UUIDs are not modelled; characteristics are an enumeration. `NUIMO_SERVICE_UUIDS` is only used by commented-out scan filters.
- `setCharacteristicNotification2` is represented by its request `EnableNotification`. The descriptor value it writes is not modelled.
- Scanning, permission checks, the Bluetooth and location checks, the bonded devices and the adapter state are inputs (`Environment`):
  - `startDiscoveryLollipop`/`startDiscoveryLegacy` and the stop counterparts;
  - `checkPermissions`, `checkBluetoothEnabled`, `checkLocationServiceEnabled`;
  - the SDK-version branches;
  - the singleton `instance`/`init`.
- Scan results arrive as `OnDeviceFound` calls.
- The `Timer` thread is not modelled. The clock (`currentTimeMillis`) is a `now` argument, and the lost check is a method called with it. Scheduling is a Boolean.
- Controllers.NuimoController.NotifyListeners: a controller listener's callback may only add or remove listeners (`Reaction`). Callbacks that call `connect`, `disconnect` or `displayLedMatrix` on the controller are not modelled, except for the one reconnect case under Findings. `LinkLossReportsOnce`, `UserDisconnectThenLinkDown` and `FailedAttemptEndsDisconnecting` hold for listeners that do not call the controller.
- BluetoothControllers.LinkClosed: runs the listener round with the handle still held, as the source does. A `connect()` from that round is modelled only in `LinkDownAsWritten` and `LinkDownCorrected`.
- A discovery listener that changes the listener list from inside a callback is not modelled. The source iterates the live list without a copy, and the model's listeners do not react.
- `DiscoveredNuimoController` entries are values. A timestamp refresh replaces the entry at the same position. `removeAll` compares entries by value, which is the same thing as identity because addresses are unique.
- `NuimoController` fields that no core code sets are not modelled: `batteryPercentage`, `firmwareVersion`, `hardwareVersion`, `color`. `onBatteryPercentageChange` is declared but never called.
- `hashCode` of the built-in matrix is not modelled. It only has to agree with `equals`, and no core code uses it.
- The writer's `gatt` and `matrixCharacteristic` fields are not modelled.
- Display intervals are exact reals instead of IEEE doubles.
- `Log.i` and the `print` in `checkPermissions` are not modelled.
- The Java `NuimoDiscoveryManager.java` is not part of this model.
- `gattBytes` calls `reduce` on each chunk, which would throw on an empty chunk. The chunking never produces one (`ChunksPartition`).
- LedMatrices.FromString: takes the pattern as a sequence of Unicode characters. Kotlin's `length`, `substring`, `padEnd` and `map` count UTF-16 code units, so a pattern with characters outside the Basic Multilingual Plane lights different LEDs in the source: each such character is two lit code units, and `substring` may split it. For patterns within that plane the two readings agree.
- BuiltInMatrices.ToMatrixBits: takes the byte as an integer in -128..127 rather than a JVM `Byte`.
- Discovery.DiscoveryManager.OnRequestPermissionsResult: uses the corrected guard. When the location permission's index equals the number of results, the source reads past the end of `grantResults` and throws (see Findings). The model answers false instead.

## Findings

| source | as written | input that shows it | evidently intended | confidence | as-written member | corrected member |
|---|---|---|---|---|---|---|
| nuimo/src/main/kotlin/com/senic/nuimo/NuimoDiscoveryManager.kt:202 | the guard rejects the result only when `grantResults.size < permissionIndex`, so an index equal to the number of results passes, and line 204 then reads `grantResults[permissionIndex]` out of bounds | request code 235, permissions `[ACCESS_COARSE_LOCATION]`, grantResults `[]` (index 0, size 0) | reject when `grantResults.size <= permissionIndex` and answer false | not executed | Discovery.GuardAdmitsMissingResult | Discovery.PermissionResult |
| nuimo/src/main/kotlin/com/senic/nuimo/NuimoBluetoothController.kt:76-94 | on a DISCONNECTED report the listeners are called while `gatt` is still set, and only the trailing `disconnect()` clears it, so a `connect()` from `onDisconnect` returns at line 31 and the controller ends DISCONNECTING | a CONNECTED controller holding its handle, one listener whose `onDisconnect` calls `connect()`, report status `GATT_SUCCESS` with `STATE_DISCONNECTED` | drop the handle (`reset()`) before calling the listeners, so the reconnect starts a new attempt and a plain link loss ends DISCONNECTED | not executed | BluetoothControllers.ReconnectFromCallbackIgnored | BluetoothControllers.ReconnectFromCallbackTakesEffect |
