/** The 9x9 LED matrix value of `NuimoLedMatrix`: 81 on/off bits built from a pattern string, one bit per character. */
module LedMatrices {

  /** `NuimoLedMatrix.LED_COUNT` */
  const LedCount: nat := 81

  /** `NuimoLedMatrix.LedOffCharacters`: the characters that leave an LED dark. */
  const LedOffCharacters: seq<char> := [' ', '0']

  /** A matrix is its list of bits; built from a pattern it always has `LedCount` of them.
      Applying the constructor to a list of bits directly is the bits-based constructor
      `NuimoLedMatrix(Array<Boolean>)` that the built-in matrices call. */
  datatype LedMatrix = LedMatrix(bits: seq<bool>)

  /** Whether pattern character `c` lights its LED. */
  predicate Lit(c: char) {
    c !in LedOffCharacters
  }

  /** Whether the pattern `s` lights LED `i`: only characters that are present count. */
  predicate LitAt(s: string, i: nat) {
    i < |s| && Lit(s[i])
  }

  /** `String.padEnd(length, c)`: appends `c` until the string is `length` long. */
  function PadEnd(s: string, length: nat, c: char): (r: string)
    ensures |r| == if |s| < length then length else |s|
    ensures forall i :: 0 <= i < |r| ==> r[i] == if i < |s| then s[i] else c
    decreases length - |s|
  {
    if |s| >= length then s else PadEnd(s + [c], length, c)
  }

  /** `.map { !LedOffCharacters.contains(it) }` */
  function LitBits(cs: string): (r: seq<bool>)
    ensures |r| == |cs|
    ensures forall i :: 0 <= i < |cs| ==> r[i] == Lit(cs[i])
  {
    if cs == [] then [] else [Lit(cs[0])] + LitBits(cs[1..])
  }

  /** `NuimoLedMatrix(string)`: the first `LedCount` characters, padded with spaces, each mapped to on/off. */
  function FromString(s: string): (m: LedMatrix)
    ensures |m.bits| == LedCount
    ensures forall i :: 0 <= i < LedCount ==> m.bits[i] == LitAt(s, i)
  {
    var prefix := s[..if |s| < LedCount then |s| else LedCount];
    LedMatrix(LitBits(PadEnd(prefix, LedCount, ' ')))
  }

  /** The argument of `equals`: Kotlin's `Any?`. */
  datatype Any = Null | Matrix(matrix: LedMatrix, builtIn: bool) | NotAMatrix

  /** `NuimoLedMatrix.equals`: another matrix is equal when its bit list is; anything else is
      compared by identity by `Any.equals`, and cannot be this matrix. */
  predicate Equals(m: LedMatrix, other: Any) {
    match other
    case Matrix(o, _) => m.bits == o.bits
    case _ => false
  }

  /** A pattern longer than the matrix is cut to its first `LedCount` characters. */
  lemma {:induction false} LongPatternsTruncate(s: string)
    requires |s| > LedCount
    ensures FromString(s) == FromString(s[..LedCount])
  {
    var a, b := FromString(s), FromString(s[..LedCount]);
    assert forall i :: 0 <= i < LedCount ==> a.bits[i] == b.bits[i];
    assert a.bits == b.bits;
  }

  /** A pattern shorter than the matrix keeps its characters and leaves the rest of the LEDs off. */
  lemma {:induction false} ShortPatternsPad(s: string)
    requires |s| < LedCount
    ensures FromString(s).bits == LitBits(s) + seq(LedCount - |s|, _ => false)
  {
    var a, b := FromString(s).bits, LitBits(s) + seq(LedCount - |s|, _ => false);
    assert forall i :: 0 <= i < LedCount ==> a[i] == b[i];
  }

  /** A pattern made only of off characters darkens the whole matrix. */
  lemma {:induction false} OffPatternIsAllOff(s: string)
    requires forall i :: 0 <= i < |s| ==> !Lit(s[i])
    ensures FromString(s).bits == seq(LedCount, _ => false)
  {
    var a := FromString(s).bits;
    assert forall i :: 0 <= i < LedCount ==> !a[i];
  }

  /** A pattern covering the matrix with only lit characters lights every LED. */
  lemma {:induction false} LitPatternIsAllOn(s: string)
    requires |s| >= LedCount
    requires forall i :: 0 <= i < |s| ==> Lit(s[i])
    ensures FromString(s).bits == seq(LedCount, _ => true)
  {
    var a := FromString(s).bits;
    assert forall i :: 0 <= i < LedCount ==> a[i];
  }

  /** Two patterns give equal matrices exactly when they light the same LEDs. */
  lemma {:induction false} SamePatternIff(s: string, t: string)
    ensures Equals(FromString(s), Matrix(FromString(t), false))
        <==> forall i :: 0 <= i < LedCount ==> LitAt(s, i) == LitAt(t, i)
  {
    var a, b := FromString(s).bits, FromString(t).bits;
    if forall i :: 0 <= i < LedCount ==> LitAt(s, i) == LitAt(t, i) {
      assert forall i :: 0 <= i < LedCount ==> a[i] == b[i];
      assert a == b;
    }
  }

  /** The pattern of nine lit and nine dark characters lights exactly the first row. */
  lemma {:induction false} FirstRowPattern()
    ensures FromString("111111111" + "000000000").bits == seq(9, _ => true) + seq(LedCount - 9, _ => false)
  {
    var s := "111111111" + "000000000";
    var a, b := FromString(s).bits, seq(9, _ => true) + seq(LedCount - 9, _ => false);
    assert forall i :: 0 <= i < LedCount ==> a[i] == b[i] by {
      forall i | 0 <= i < LedCount ensures a[i] == b[i] {
        assert LitAt(s, i) == (i < 9);
      }
    }
  }

  /** `equals` compares matrices by value: it is reflexive, symmetric and transitive on matrices. */
  lemma EqualsIsEquivalence(a: LedMatrix, b: LedMatrix, c: LedMatrix)
    ensures Equals(a, Matrix(a, false))
    ensures Equals(a, Matrix(b, false)) == Equals(b, Matrix(a, false))
    ensures Equals(a, Matrix(b, false)) && Equals(b, Matrix(c, false)) ==> Equals(a, Matrix(c, false))
    ensures Equals(a, Matrix(b, false)) <==> a == b
  {
  }
}
