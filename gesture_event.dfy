/** `NuimoGesture` and `NuimoGestureEvent`: what the gesture decoder reports to listeners. */
module Gestures {
  import opened Wrappers

  /** The gesture kinds. Rotation is split by direction, with the magnitude in the event value.
      The four `Fly*` kinds are the ones the decoder produces for the fly sensor. */
  datatype Gesture =
    | ButtonPress | ButtonRelease
    | RotateLeft | RotateRight
    | TouchLeftDown | TouchLeftRelease
    | TouchRightDown | TouchRightRelease
    | TouchTopDown | TouchTopRelease
    | TouchBottomDown | TouchBottomRelease
    | SwipeLeft | SwipeRight | SwipeUp | SwipeDown
    | FlyLeft | FlyRight | FlyBackwards | FlyTowards

  /** `NuimoGestureEvent(gesture, value = null)`: both fields are fixed at construction. */
  datatype GestureEvent = GestureEvent(gesture: Gesture, value: Option<int> := None)

  /** The four edges of the touch surface. */
  datatype Side = Left | Right | Top | Bottom

  function TouchDown(side: Side): Gesture {
    match side
    case Left => TouchLeftDown
    case Right => TouchRightDown
    case Top => TouchTopDown
    case Bottom => TouchBottomDown
  }

  function TouchRelease(side: Side): Gesture {
    match side
    case Left => TouchLeftRelease
    case Right => TouchRightRelease
    case Top => TouchTopRelease
    case Bottom => TouchBottomRelease
  }

  function Swipe(side: Side): Gesture {
    match side
    case Left => SwipeLeft
    case Right => SwipeRight
    case Top => SwipeUp
    case Bottom => SwipeDown
  }

  predicate IsTouch(g: Gesture) {
    g.TouchLeftDown? || g.TouchLeftRelease? || g.TouchRightDown? || g.TouchRightRelease? ||
    g.TouchTopDown? || g.TouchTopRelease? || g.TouchBottomDown? || g.TouchBottomRelease?
  }

  predicate IsSwipe(g: Gesture) {
    g.SwipeLeft? || g.SwipeRight? || g.SwipeUp? || g.SwipeDown?
  }

  /** An event built without a value carries none. */
  lemma ValueIsAbsentByDefault(g: Gesture)
    ensures GestureEvent(g).value == None && GestureEvent(g).gesture == g
  {
  }

  /** The touch kinds are exactly one DOWN and one RELEASE kind per side, all distinct. */
  lemma {:induction false} TouchKindsBySide(g: Gesture)
    ensures IsTouch(g) <==> exists side: Side :: g == TouchDown(side) || g == TouchRelease(side)
    ensures forall a: Side, b: Side :: TouchDown(a) != TouchRelease(b)
    ensures forall a: Side, b: Side :: TouchDown(a) == TouchDown(b) ==> a == b
    ensures forall a: Side, b: Side :: TouchRelease(a) == TouchRelease(b) ==> a == b
  {
    if IsTouch(g) {
      var side :=
        if g.TouchLeftDown? || g.TouchLeftRelease? then Left
        else if g.TouchRightDown? || g.TouchRightRelease? then Right
        else if g.TouchTopDown? || g.TouchTopRelease? then Top
        else Bottom;
      assert g == TouchDown(side) || g == TouchRelease(side);
    }
  }

  /** There is one swipe kind per side. */
  lemma {:induction false} SwipeKindsBySide(g: Gesture)
    ensures IsSwipe(g) <==> exists side: Side :: g == Swipe(side)
    ensures forall a: Side, b: Side :: Swipe(a) == Swipe(b) ==> a == b
  {
    if IsSwipe(g) {
      var side := if g.SwipeLeft? then Left else if g.SwipeRight? then Right else if g.SwipeUp? then Top else Bottom;
      assert g == Swipe(side);
    }
  }
}
