/** The wire side of `NuimoBluetoothController.kt` that is pure computation: the characteristic
    identities, Android's `getIntValue`, the gesture decoder and the LED frame encoder. */
module GattProtocol {
  import opened Wrappers
  import opened Binary
  import opened LedMatrices
  import opened Gestures

  /** A byte as the controller's characteristics carry it, read unsigned. */
  type Byte = b: int | 0 <= b < 256

  /** The GATT characteristics the driver knows by UUID; any other UUID is `OtherCharacteristic`. */
  datatype Characteristic =
    | BatteryLevel            // 00002a19-...
    | DeviceInformation       // 00002a29-...
    | LedMatrixCharacteristic // f29b1524-...
    | SensorFly               // f29b1526-...
    | SensorTouch             // f29b1527-...
    | SensorRotation          // f29b1528-...
    | SensorButton            // f29b1529-...
    | OtherCharacteristic

  /** `CHARACTERISTIC_NOTIFICATION_UUIDS`: the sensors whose notifications are switched on. */
  const NotificationCharacteristics: seq<Characteristic> := [SensorFly, SensorTouch, SensorRotation, SensorButton]

  /** A request the write queue carries: switching on one characteristic's notifications
      (`setCharacteristicNotification2`) or writing a frame to the LED matrix characteristic. */
  datatype GattRequest = EnableNotification(characteristic: Characteristic) | WriteLedMatrix(value: seq<Byte>)

  // ---------------------------------------------------------------------------------------------
  // BluetoothGattCharacteristic.getIntValue

  datatype IntFormat = Uint8 | Sint16

  function FormatSize(format: IntFormat): nat {
    match format
    case Uint8 => 1
    case Sint16 => 2
  }

  /** Two little-endian bytes read as a 16-bit two's-complement number. */
  function Sint16Of(lo: Byte, hi: Byte): (r: int)
    ensures -32768 <= r < 32768
    ensures r % 65536 == lo + 256 * hi
  {
    var u := lo + 256 * hi;
    if u >= 32768 then u - 65536 else u
  }

  /** `getIntValue(format, offset)`: absent when the value is too short for the format. */
  function GetIntValue(value: seq<Byte>, format: IntFormat, offset: nat): (r: Option<int>)
    ensures r.Some? <==> offset + FormatSize(format) <= |value|
    ensures r.Some? && format == Uint8 ==> r.value == value[offset]
    ensures r.Some? && format == Sint16 ==> r.value == Sint16Of(value[offset], value[offset + 1])
  {
    if offset + FormatSize(format) > |value| then None
    else match format
      case Uint8 => Some(value[offset])
      case Sint16 => Some(Sint16Of(value[offset], value[offset + 1]))
  }

  /** The bytes a 16-bit signed value is sent as, low byte first. */
  function LittleEndian16(v: int): seq<Byte>
    requires -32768 <= v < 32768
  {
    var u := v % 65536;
    [u % 256, u / 256]
  }

  /** Reading back the two bytes of a 16-bit value gives the value. */
  lemma Sint16RoundTrip(v: int)
    requires -32768 <= v < 32768
    ensures Sint16Of(LittleEndian16(v)[0], LittleEndian16(v)[1]) == v
  {
  }

  // ---------------------------------------------------------------------------------------------
  // Gesture lookup tables

  /** The one-byte touch codes. */
  const SwipeCodes: map<int, Gesture> := map[0 := SwipeLeft, 1 := SwipeRight, 2 := SwipeUp, 3 := SwipeDown]

  /** The fly direction codes. */
  const FlyCodes: map<int, Gesture> := map[0 := FlyLeft, 1 := FlyRight, 2 := FlyBackwards, 3 := FlyTowards]

  /** `hashMapOf(...)[key]` with a possibly absent key. */
  function Lookup(codes: map<int, Gesture>, key: Option<int>): (r: Option<Gesture>)
    ensures r.Some? <==> key.Some? && key.value in codes
    ensures r.Some? ==> r.value == codes[key.value]
  {
    if key.Some? && key.value in codes then Some(codes[key.value]) else None
  }

  /** `GATT_TOUCH_DOWN_GESTURES`: legacy button bits 2k and 2k+1 are on this side. */
  const TouchDownGestures: seq<Gesture> := [TouchLeftDown, TouchTopDown, TouchRightDown, TouchBottomDown]

  /** `NuimoGesture.touchReleaseGesture()` */
  function TouchReleaseGesture(g: Gesture): Option<Gesture> {
    match g
    case TouchLeftDown => Some(TouchLeftRelease)
    case TouchLeftRelease => Some(TouchLeftRelease)
    case TouchRightDown => Some(TouchRightRelease)
    case TouchRightRelease => Some(TouchRightRelease)
    case TouchTopDown => Some(TouchTopRelease)
    case TouchTopRelease => Some(TouchTopRelease)
    case TouchBottomDown => Some(TouchBottomRelease)
    case TouchBottomRelease => Some(TouchBottomRelease)
    case _ => None
  }

  /** `NuimoGesture.swipeGesture()` */
  function SwipeGesture(g: Gesture): Option<Gesture> {
    match g
    case TouchLeftDown => Some(SwipeLeft)
    case TouchLeftRelease => Some(SwipeLeft)
    case TouchRightDown => Some(SwipeRight)
    case TouchRightRelease => Some(SwipeRight)
    case TouchTopDown => Some(SwipeUp)
    case TouchTopRelease => Some(SwipeUp)
    case TouchBottomDown => Some(SwipeDown)
    case TouchBottomRelease => Some(SwipeDown)
    case _ => None
  }

  /** Both lookups keep the side of a touch: a release of that side, a swipe towards it. */
  lemma TouchLookupsBySide(side: Side)
    ensures TouchReleaseGesture(TouchDown(side)) == Some(TouchRelease(side))
    ensures TouchReleaseGesture(TouchRelease(side)) == Some(TouchRelease(side))
    ensures SwipeGesture(TouchDown(side)) == Some(Swipe(side))
    ensures SwipeGesture(TouchRelease(side)) == Some(Swipe(side))
  {
    match side
    case Left =>
    case Right =>
    case Top =>
    case Bottom =>
  }

  /** Both lookups are defined exactly on the touch kinds, and releasing twice is releasing once. */
  lemma TouchLookupsOnTouchKinds(g: Gesture)
    ensures TouchReleaseGesture(g).Some? <==> IsTouch(g)
    ensures SwipeGesture(g).Some? <==> IsTouch(g)
    ensures IsTouch(g) ==> TouchReleaseGesture(TouchReleaseGesture(g).value) == TouchReleaseGesture(g)
  {
  }

  // ---------------------------------------------------------------------------------------------
  // BluetoothGattCharacteristic.toNuimoGestureEvent

  /** The legacy touch event code: 1 touches down, 2 releases, 4 swipes; 3 (double touch) and
      anything else is ignored. */
  function LegacyEventGesture(event: int, down: Gesture): Option<Gesture> {
    if event == 1 then Some(down)
    else if event == 2 then TouchReleaseGesture(down)
    else if event == 4 then SwipeGesture(down)
    else None
  }

  /** The `for (i in 0..7)` scan over the legacy button bits, from bit `i` on: the first set bit
      whose event maps to a gesture wins, carrying the bit number as its value. */
  function LegacyTouch(button: int, event: int, i: nat): Option<GestureEvent>
    requires i <= 8
    decreases 8 - i
  {
    if i == 8 then None
    else if !BitSet(button, i) then LegacyTouch(button, event, i + 1)
    else
      var g := LegacyEventGesture(event, TouchDownGestures[i / 2]);
      if g.Some? then Some(GestureEvent(g.value, Some(i))) else LegacyTouch(button, event, i + 1)
  }

  function Abs(v: int): nat {
    if v < 0 then -v else v
  }

  /** `toNuimoGestureEvent`: the event a notification of characteristic `c` with payload `value`
      reports, if any. */
  function ToGestureEvent(c: Characteristic, value: seq<Byte>): Option<GestureEvent> {
    match c
    case SensorButton =>
      var v := GetIntValue(value, Uint8, 0).GetOr(0);
      Some(GestureEvent(if v == 1 then ButtonPress else ButtonRelease, Some(v)))
    case SensorRotation =>
      var v := GetIntValue(value, Sint16, 0).GetOr(0);
      Some(GestureEvent(if v >= 0 then RotateRight else RotateLeft, Some(Abs(v))))
    case SensorTouch =>
      if |value| == 1 then
        var g := Lookup(SwipeCodes, GetIntValue(value, Uint8, 0));
        if g.Some? then Some(GestureEvent(g.value, Some(0))) else None
      else
        var button := GetIntValue(value, Sint16, 0).GetOr(0);
        var event := GetIntValue(value, Sint16, 2).GetOr(0);
        LegacyTouch(button, event, 0)
    case SensorFly =>
      if |value| < 2 then None
      else
        var g := Lookup(FlyCodes, GetIntValue(value, Uint8, 0));
        var speed := GetIntValue(value, Uint8, 1);
        if g.Some? then Some(GestureEvent(g.value, speed)) else None
    case _ => None
  }

  /** Button byte 1 is a press; any other byte, or an empty payload read as 0, is a release
      carrying that value. */
  lemma ButtonDecoding(value: seq<Byte>)
    ensures var v := if |value| > 0 then value[0] else 0;
      ToGestureEvent(SensorButton, value) == Some(GestureEvent(if v == 1 then ButtonPress else ButtonRelease, Some(v)))
  {
  }

  /** A rotation by `v` is reported as a right turn for `v >= 0` and a left turn otherwise, with
      magnitude `|v|`. */
  lemma RotationDecoding(v: int, rest: seq<Byte>)
    requires -32768 <= v < 32768
    ensures ToGestureEvent(SensorRotation, LittleEndian16(v) + rest)
         == Some(GestureEvent(if v >= 0 then RotateRight else RotateLeft, Some(Abs(v))))
  {
    Sint16RoundTrip(v);
  }

  /** The rotation payload of -50 (bytes 0xCE 0xFF) is a left turn by 50. */
  lemma RotationMinusFifty()
    ensures ToGestureEvent(SensorRotation, [0xCE, 0xFF]) == Some(GestureEvent(RotateLeft, Some(50)))
  {
    RotationDecoding(-50, []);
  }

  /** A one-byte touch payload 0..3 is a swipe left, right, up or down carrying 0; any other
      byte is no event. */
  lemma OneByteTouchDecoding(b: Byte)
    ensures ToGestureEvent(SensorTouch, [b])
         == if b < 4 then Some(GestureEvent([SwipeLeft, SwipeRight, SwipeUp, SwipeDown][b], Some(0))) else None
  {
  }

  /** Every legacy button bit names a touch-down gesture, so its event code alone decides. */
  lemma LegacyEventOnTouchDown(event: int, i: nat)
    requires i < 8
    ensures LegacyEventGesture(event, TouchDownGestures[i / 2]).Some? <==> (event == 1 || event == 2 || event == 4)
  {
    var down := TouchDownGestures[i / 2];
    assert IsTouch(down);
    TouchLookupsOnTouchKinds(down);
  }

  /** One step of the legacy scan: a set bit with event 1, 2 or 4 is reported, anything else
      moves on to the next bit. */
  lemma LegacyTouchStep(button: int, event: int, i: nat)
    requires i < 8
    ensures BitSet(button, i) && (event == 1 || event == 2 || event == 4) ==>
      LegacyTouch(button, event, i) == Some(GestureEvent(LegacyEventGesture(event, TouchDownGestures[i / 2]).value, Some(i)))
    ensures !(BitSet(button, i) && (event == 1 || event == 2 || event == 4)) ==>
      LegacyTouch(button, event, i) == LegacyTouch(button, event, i + 1)
  {
    LegacyEventOnTouchDown(event, i);
  }

  /** The lowest set bit of `button` at or above `i`, or 8 when bits `i` to 7 are all clear. */
  function LowestSetBit(button: int, i: nat): (r: nat)
    requires i <= 8
    ensures i <= r <= 8
    ensures r < 8 ==> BitSet(button, r)
    ensures forall k :: i <= k < r ==> !BitSet(button, k)
    decreases 8 - i
  {
    if i == 8 || BitSet(button, i) then i else LowestSetBit(button, i + 1)
  }

  /** The legacy scan reports the lowest set bit at or above `i`, with the gesture its event code
      gives on that bit's side, and reports nothing for other event codes or when no bit is set. */
  lemma {:induction false} LegacyTouchFindsLowestBit(button: int, event: int, i: nat)
    requires i <= 8
    decreases 8 - i
    ensures var j := LowestSetBit(button, i);
      LegacyTouch(button, event, i)
        == if (event == 1 || event == 2 || event == 4) && j < 8
           then Some(GestureEvent(LegacyEventGesture(event, TouchDownGestures[j / 2]).value, Some(j)))
           else None
  {
    if i < 8 {
      LegacyTouchStep(button, event, i);
      if !(BitSet(button, i) && (event == 1 || event == 2 || event == 4)) {
        LegacyTouchFindsLowestBit(button, event, i + 1);
      }
    }
  }

  /** Adding a multiple of `2^k` leaves the bits below `k` alone. */
  lemma {:induction false} HighPartIgnored(lo: int, m: int, k: nat, i: nat)
    requires i < k
    ensures BitSet(lo + Pow2(k) * m, i) == BitSet(lo, i)
    decreases i
  {
    var t := Pow2(k - 1) * m;
    assert Pow2(k) * m == 2 * t;
    DivUnique(lo + 2 * t, 2, lo / 2 + t, lo % 2);
    if i > 0 {
      BitSetHalf(lo + 2 * t, i - 1);
      BitSetHalf(lo, i - 1);
      HighPartIgnored(lo / 2, m, k - 1, i - 1);
    }
  }

  /** Adding a multiple of 256 leaves the eight low bits alone. */
  lemma LowBitsIgnoreHighByte(lo: int, m: int, i: nat)
    requires i < 8
    ensures BitSet(lo + 256 * m, i) == BitSet(lo, i)
  {
    assert Pow2(8) == 256;
    HighPartIgnored(lo, m, 8, i);
  }

  /** In a legacy touch payload of at least four bytes, the scanned button bits are the bits of
      the first byte, whatever the sign of the 16-bit reading. */
  lemma LegacyTouchDecoding(value: seq<Byte>)
    requires |value| >= 4
    ensures ToGestureEvent(SensorTouch, value)
         == LegacyTouch(Sint16Of(value[0], value[1]), Sint16Of(value[2], value[3]), 0)
    ensures forall i :: 0 <= i < 8 ==> BitSet(Sint16Of(value[0], value[1]), i) == BitSet(value[0], i)
  {
    var lo, hi := value[0], value[1];
    var m: int := if lo + 256 * hi >= 32768 then hi - 256 else hi;
    assert Sint16Of(lo, hi) == lo + 256 * m;
    forall i | 0 <= i < 8 ensures BitSet(Sint16Of(lo, hi), i) == BitSet(lo, i) {
      LowBitsIgnoreHighByte(lo, m, i);
    }
  }

  /** A legacy touch payload shorter than four bytes has no event code and gives no event. */
  lemma ShortLegacyTouchIsIgnored(value: seq<Byte>)
    requires |value| != 1 && |value| < 4
    ensures ToGestureEvent(SensorTouch, value) == None
  {
    LegacyTouchFindsLowestBit(GetIntValue(value, Sint16, 0).GetOr(0), 0, 0);
  }

  /** A fly payload needs two bytes: a direction code 0..3 and a speed. */
  lemma FlyDecoding(value: seq<Byte>)
    ensures |value| < 2 ==> ToGestureEvent(SensorFly, value) == None
    ensures |value| >= 2 ==> (ToGestureEvent(SensorFly, value)
         == if value[0] < 4 then Some(GestureEvent([FlyLeft, FlyRight, FlyBackwards, FlyTowards][value[0]], Some(value[1]))) else None)
  {
  }

  /** Notifications of characteristics other than the four sensors give no event. */
  lemma OtherCharacteristicsGiveNoEvent(c: Characteristic, value: seq<Byte>)
    requires c !in NotificationCharacteristics
    ensures ToGestureEvent(c, value) == None
  {
  }

  // ---------------------------------------------------------------------------------------------
  // NuimoLedMatrix.gattBytes and the LED frame

  /** The concatenation of a list of chunks. */
  function Flatten(chunks: seq<seq<bool>>): seq<bool> {
    if chunks == [] then [] else chunks[0] + Flatten(chunks[1..])
  }

  /** `List<Boolean>.chunk(n)`: consecutive pieces of `n` elements, the last one possibly shorter
      and never empty. */
  function Chunks(list: seq<bool>, n: nat): seq<seq<bool>>
    requires n > 0
    decreases |list|
  {
    if |list| <= n then (if list == [] then [] else [list])
    else [list[..n]] + Chunks(list[n..], n)
  }

  /** The chunks put back together are the list; none is empty or longer than `n`, and all but
      the last are exactly `n` long. */
  lemma {:induction false} ChunksPartition(list: seq<bool>, n: nat)
    requires n > 0
    ensures Flatten(Chunks(list, n)) == list
    ensures forall k :: 0 <= k < |Chunks(list, n)| ==> 0 < |Chunks(list, n)[k]| <= n
    ensures forall k :: 0 <= k < |Chunks(list, n)| - 1 ==> |Chunks(list, n)[k]| == n
    decreases |list|
  {
    if |list| > n {
      var rest := Chunks(list[n..], n);
      ChunksPartition(list[n..], n);
      assert list == list[..n] + list[n..];
      assert ([list[..n]] + rest)[1..] == rest;
    }
  }

  /** The number of a chunk's bits, bit `i` of the chunk weighing `2^i` (`mapIndexed` + `reduce`). */
  function ChunkValue(chunk: seq<bool>): (r: nat)
    ensures r < Pow2(|chunk|)
  {
    if chunk == [] then 0 else (if chunk[0] then 1 else 0) + 2 * ChunkValue(chunk[1..])
  }

  /** `gattBytes()`: one byte per chunk of eight LEDs; `toByte` keeps the low eight bits. */
  function GattBytes(m: LedMatrix): seq<Byte> {
    var chunks := Chunks(m.bits, 8);
    seq(|chunks|, k requires 0 <= k < |chunks| => ChunkValue(chunks[k]) % 256)
  }

  function MinReal(a: real, b: real): real { if a <= b then a else b }
  function MaxReal(a: real, b: real): real { if a >= b then a else b }

  /** The display-duration byte: tenths of a second, clamped to 0..255 and truncated. */
  function DurationByte(intervalSecs: real): (r: Byte)
    ensures intervalSecs <= 0.0 ==> r == 0
    ensures intervalSecs >= 25.5 ==> r == 255
    ensures 0.0 <= intervalSecs <= 25.5 ==> r as real <= intervalSecs * 10.0 < r as real + 1.0
  {
    MinReal(MaxReal(intervalSecs * 10.0, 0.0), 255.0).Floor
  }

  /** The value written to the LED matrix characteristic: the matrix bytes, the terminator 0xFF
      and the display duration. */
  function Frame(m: LedMatrix, intervalSecs: real): seq<Byte> {
    GattBytes(m) + [0xFF, DurationByte(intervalSecs)]
  }

  /** Chunk `k` of a list cut into eights is its `k`-th run of eight elements. */
  lemma {:induction false} ChunkAt(list: seq<bool>, k: nat)
    requires 8 * k < |list|
    ensures k < |Chunks(list, 8)|
    ensures Chunks(list, 8)[k] == list[8 * k .. if 8 * k + 8 < |list| then 8 * k + 8 else |list|]
  {
    if k > 0 {
      ChunkAt(list[8..], k - 1);
    }
  }

  /** A list of `8 q + r` elements, `0 < r <= 8`, falls into `q + 1` eights. */
  lemma {:induction false} ChunkCount(list: seq<bool>, q: nat)
    requires 8 * q < |list| <= 8 * q + 8
    ensures |Chunks(list, 8)| == q + 1
  {
    if q > 0 {
      ChunkCount(list[8..], q - 1);
    }
  }

  /** Bit `i` of a chunk's number is the chunk's element `i`; the bits above the chunk are clear. */
  lemma {:induction false} ChunkValueBit(chunk: seq<bool>, i: nat)
    ensures i < |chunk| ==> BitSet(ChunkValue(chunk), i) == chunk[i]
    ensures i >= |chunk| ==> !BitSet(ChunkValue(chunk), i)
  {
    if chunk != [] {
      if i == 0 {
      } else {
        BitSetHalf(ChunkValue(chunk), i - 1);
        assert ChunkValue(chunk) / 2 == ChunkValue(chunk[1..]);
        ChunkValueBit(chunk[1..], i - 1);
      }
    } else {
      ZeroAbove(0, 0, i);
    }
  }

  lemma {:induction false} Pow2Monotone(a: nat, b: nat)
    requires a <= b
    ensures Pow2(a) <= Pow2(b)
  {
    if a < b { Pow2Monotone(a, b - 1); }
  }

  /** Byte `k` of `gattBytes` is the number of chunk `k`, which needs no truncation. */
  lemma GattByteIsChunkValue(m: LedMatrix, k: nat)
    requires k < |Chunks(m.bits, 8)|
    ensures k < |GattBytes(m)| && GattBytes(m)[k] == ChunkValue(Chunks(m.bits, 8)[k])
  {
    ChunksPartition(m.bits, 8);
    var chunk := Chunks(m.bits, 8)[k];
    Pow2Monotone(|chunk|, 8);
    assert Pow2(8) == 256;
  }

  /** LED `led` is bit `led % 8` of byte `led / 8`. */
  lemma LedBitInByte(m: LedMatrix, led: nat)
    requires led < |m.bits|
    ensures led / 8 < |GattBytes(m)| && BitSet(GattBytes(m)[led / 8], led % 8) == m.bits[led]
  {
    var k := led / 8;
    ChunkAt(m.bits, k);
    GattByteIsChunkValue(m, k);
    var chunk := Chunks(m.bits, 8)[k];
    ChunkValueBit(chunk, led % 8);
    assert chunk[led % 8] == m.bits[led];
  }

  /** `gattBytes` of an 81-LED matrix is 11 bytes, LED `8k + i` in bit `i` of byte `k`; the bits
      of the last byte above LED 80 are clear. */
  lemma GattBytesLayout(m: LedMatrix)
    requires |m.bits| == LedCount
    ensures |GattBytes(m)| == 11
    ensures forall led :: 0 <= led < LedCount ==> BitSet(GattBytes(m)[led / 8], led % 8) == m.bits[led]
    ensures GattBytes(m)[10] == if m.bits[80] then 1 else 0
  {
    ChunkCount(m.bits, 10);
    forall led | 0 <= led < LedCount ensures BitSet(GattBytes(m)[led / 8], led % 8) == m.bits[led] {
      LedBitInByte(m, led);
    }
    ChunkAt(m.bits, 10);
    GattByteIsChunkValue(m, 10);
    assert Chunks(m.bits, 8)[10] == [m.bits[80]];
  }

  /** The pattern of the `gattBytes` example: eight lit LEDs, eight dark ones, then every other
      LED of the next eight. */
  const BytePattern: string := "********" + "        " + "* * * * "

  /** Whether the example pattern lights LED `i`. */
  predicate PatternLit(i: int) {
    i < 8 || (16 <= i < 24 && i % 2 == 0)
  }

  lemma BytePatternBits()
    ensures FromString(BytePattern).bits == seq(LedCount, PatternLit)
  {
    var a, b := FromString(BytePattern).bits, seq(LedCount, PatternLit);
    forall i | 0 <= i < LedCount ensures a[i] == b[i] {
      assert LitAt(BytePattern, i) == PatternLit(i);
    }
  }

  function BytePatternChunk(k: nat): seq<bool> {
    if k == 0 then [true, true, true, true, true, true, true, true]
    else if k == 2 then [true, false, true, false, true, false, true, false]
    else if k < 10 then [false, false, false, false, false, false, false, false]
    else [false]
  }

  lemma PatternChunkShape(k: nat)
    requires k < 11
    ensures seq(LedCount, PatternLit)[8 * k .. if k < 10 then 8 * k + 8 else LedCount] == BytePatternChunk(k)
  {
    var c := seq(LedCount, PatternLit)[8 * k .. if k < 10 then 8 * k + 8 else LedCount];
    var e := BytePatternChunk(k);
    if k == 0 {
      forall i | 0 <= i < 8 ensures c[i] == e[i] { }
    } else if k == 2 {
      forall i | 0 <= i < 8 ensures c[i] == e[i] { assert c[i] == PatternLit(16 + i); }
    } else if k < 10 {
      forall i | 0 <= i < 8 ensures c[i] == e[i] { assert c[i] == PatternLit(8 * k + i); }
    } else {
      assert c[0] == PatternLit(80);
    }
  }

  lemma BytePatternChunks(k: nat)
    requires k < 11
    ensures k < |Chunks(FromString(BytePattern).bits, 8)|
    ensures Chunks(FromString(BytePattern).bits, 8)[k] == BytePatternChunk(k)
  {
    BytePatternBits();
    ChunkAt(seq(LedCount, PatternLit), k);
    PatternChunkShape(k);
  }

  /** The number of a chunk whose elements are all equal: 0 when dark, `2^n - 1` when lit. */
  lemma {:induction false} UniformChunkValue(chunk: seq<bool>, lit: bool)
    requires forall i :: 0 <= i < |chunk| ==> chunk[i] == lit
    ensures ChunkValue(chunk) == if lit then Pow2(|chunk|) - 1 else 0
  {
    if chunk != [] {
      UniformChunkValue(chunk[1..], lit);
    }
  }

  lemma AlternatingChunkValue()
    ensures ChunkValue([true, false, true, false, true, false, true, false]) == 0x55
  {
  }

  lemma PatternChunkValue(k: nat)
    requires k < 11
    ensures ChunkValue(BytePatternChunk(k)) == if k == 0 then 0xFF else if k == 2 then 0x55 else 0
  {
    if k == 2 {
      AlternatingChunkValue();
    } else {
      UniformChunkValue(BytePatternChunk(k), k == 0);
      assert Pow2(8) == 256;
    }
  }

  lemma BytePatternByte(k: nat)
    requires k < 11
    ensures k < |GattBytes(FromString(BytePattern))|
    ensures GattBytes(FromString(BytePattern))[k] == if k == 0 then 0xFF else if k == 2 then 0x55 else 0
  {
    BytePatternChunks(k);
    GattByteIsChunkValue(FromString(BytePattern), k);
    PatternChunkValue(k);
  }

  /** That pattern encodes as 0xFF, 0x00, 0x55 and eight zero bytes. */
  lemma GattBytesOfPattern()
    ensures GattBytes(FromString(BytePattern)) == [0xFF, 0, 0x55, 0, 0, 0, 0, 0, 0, 0, 0]
  {
    var m := FromString(BytePattern);
    ChunkCount(m.bits, 10);
    forall k | 0 <= k < 11 ensures GattBytes(m)[k] == [0xFF, 0, 0x55, 0, 0, 0, 0, 0, 0, 0, 0][k] {
      BytePatternByte(k);
    }
  }

  /** The frame is 13 bytes: the 11 matrix bytes, 0xFF, then the duration byte. */
  lemma FrameLayout(m: LedMatrix, intervalSecs: real)
    requires |m.bits| == LedCount
    ensures |Frame(m, intervalSecs)| == 13
    ensures Frame(m, intervalSecs)[..11] == GattBytes(m)
    ensures Frame(m, intervalSecs)[11] == 0xFF && Frame(m, intervalSecs)[12] == DurationByte(intervalSecs)
  {
    GattBytesLayout(m);
  }

  /** `List<Boolean>.chunk(n)` as the source runs it: a counter `i` counts down the free places of
      the chunk being filled, which is closed when it reaches zero. */
  method Chunk(list: seq<bool>, n: int) returns (chunks: seq<seq<bool>>)
    requires n > 0
    ensures chunks == Chunks(list, n)
  {
    chunks := [];
    var chunk: seq<bool> := [];
    var i := n;
    ghost var start := 0;
    for j := 0 to |list|
      invariant 0 < i <= n && |chunk| == n - i
      invariant 0 <= start <= j && chunk == list[start..j]
      invariant Whole(list[..start], n)
      invariant chunks == Chunks(list[..start], n)
    {
      chunk := chunk + [list[j]];
      assert chunk == list[start..j + 1];
      i := i - 1;
      if i == 0 {
        CloseChunk(list, start, j + 1, n);
        chunks := chunks + [chunk];
        chunk := [];
        i := n;
        start := j + 1;
      }
    }
    assert chunk == list[start..];
    if chunk != [] {
      chunks := chunks + [chunk];
    }
    LastChunk(list, start, n);
  }

  /** Closing a full chunk extends the chunking of the prefix by that chunk. */
  lemma CloseChunk(list: seq<bool>, start: nat, end: nat, n: nat)
    requires n > 0 && start + n == end <= |list| && Whole(list[..start], n)
    ensures Whole(list[..end], n)
    ensures Chunks(list[..end], n) == Chunks(list[..start], n) + [list[start..end]]
  {
    var chunk := list[start..end];
    assert list[..start] + chunk == list[..end];
    ChunksAppend(list[..start], chunk, n);
    WholeAppend(list[..start], chunk, n);
  }

  /** After the loop the open chunk, if not empty, is the last one. */
  lemma LastChunk(list: seq<bool>, start: nat, n: nat)
    requires n > 0 && start <= |list| && |list| - start < n && Whole(list[..start], n)
    ensures Chunks(list, n) == Chunks(list[..start], n) + (if start == |list| then [] else [list[start..]])
  {
    assert list[..start] + list[start..] == list;
    ChunksAppend(list[..start], list[start..], n);
  }

  /** A list made of whole chunks of `n`. */
  predicate Whole(a: seq<bool>, n: nat)
    requires n > 0
    decreases |a|
  {
    a == [] || (|a| >= n && Whole(a[n..], n))
  }

  lemma {:induction false} WholeAppend(a: seq<bool>, c: seq<bool>, n: nat)
    requires n > 0 && Whole(a, n) && |c| == n
    ensures Whole(a + c, n)
    decreases |a|
  {
    if a == [] {
      assert (a + c)[n..] == [];
    } else {
      assert (a + c)[n..] == a[n..] + c;
      WholeAppend(a[n..], c, n);
    }
  }

  /** Chunking whole chunks followed by a rest chunks the two separately. */
  lemma {:induction false} ChunksAppend(a: seq<bool>, b: seq<bool>, n: nat)
    requires n > 0 && Whole(a, n)
    ensures Chunks(a + b, n) == Chunks(a, n) + Chunks(b, n)
    decreases |a|
  {
    if a == [] {
      assert a + b == b;
    } else if |a + b| <= n {
      assert a + b == a && b == [];
    } else {
      var head, tail := a[..n], a[n..];
      assert (a + b)[..n] == head;
      assert (a + b)[n..] == tail + b;
      assert Chunks(a + b, n) == [head] + Chunks(tail + b, n);
      ChunksAppend(tail, b, n);
      if |a| == n {
        assert tail == [] && head == a;
        assert Chunks(a, n) == [head];
      } else {
        assert Chunks(a, n) == [head] + Chunks(tail, n);
      }
    }
  }
}
