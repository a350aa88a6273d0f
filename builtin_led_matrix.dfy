/** `NuimoBuiltInLedMatrix`: matrices the controller firmware knows by number, built from one byte. */
module BuiltInMatrices {
  import opened Binary
  import opened LedMatrices

  /** The bits `Byte.toMatrixBits` produces: LED `i` shows bit `i` of a positive byte, and a zero
      or negative byte leaves every LED off. */
  function ByteBits(b: int): seq<bool> {
    seq(LedCount, i requires 0 <= i < LedCount => 0 < b && BitSet(b, i))
  }

  /** The LEDs the loop has set once it has consumed bits 0 to `i - 1` of `b`. */
  ghost function Shown(b: int, i: nat): seq<bool> {
    seq(LedCount, k requires 0 <= k < LedCount => k < i && 0 < b && BitSet(b, k))
  }

  /** `Byte.toMatrixBits`: shifts the byte down one bit at a time into a fresh array of 81 bits. */
  method ToMatrixBits(b: int) returns (bits: array<bool>)
    requires -128 <= b <= 127
    ensures bits.Length == LedCount
    ensures bits[..] == ByteBits(b)
  {
    bits := new bool[LedCount](_ => false);
    var n := b;
    var i := 0;
    ShownNone(b);
    while n > 0
      invariant 0 <= i <= 7
      invariant b <= 0 ==> i == 0 && n == b
      invariant b > 0 ==> 0 <= n && n == b / Pow2(i) && n < Pow2(7 - i)
      invariant bits[..] == Shown(b, i)
    {
      ShiftStep(b, i, n);
      ShownStep(b, i);
      bits[i] := n % 2 > 0;
      n := n / 2;
      i := i + 1;
    }
    DarkAbove(b, i);
  }

  lemma ShownNone(b: int)
    ensures Shown(b, 0) == seq(LedCount, _ => false)
  {
  }

  /** Setting LED `i` to bit `i` extends what the loop has shown by one bit. */
  lemma ShownStep(b: int, i: nat)
    requires i < LedCount
    ensures Shown(b, i)[i := 0 < b && BitSet(b, i)] == Shown(b, i + 1)
  {
  }

  /** When the loop stops at bit `i`, no bit of the byte at or above `i` is set, so what it has
      shown is the whole matrix. */
  lemma DarkAbove(b: int, i: nat)
    requires i <= 7
    requires b <= 0 ==> i == 0
    requires b > 0 ==> b / Pow2(i) == 0
    ensures Shown(b, i) == ByteBits(b)
  {
    var bits := ByteBits(b);
    forall k | i <= k < LedCount
      ensures !bits[k]
    {
      if b > 0 {
        ZeroAbove(b, i, k);
      }
    }
    assert Shown(b, i) == bits;
  }

  /** One turn of the loop: the low bit of `n` is bit `i` of `b`, and halving `n` moves to bit `i + 1`. */
  lemma ShiftStep(b: int, i: nat, n: int)
    requires i <= 7 && b > 0 && n == b / Pow2(i) && 0 < n < Pow2(7 - i)
    ensures i < 7
    ensures (n % 2 > 0) == BitSet(b, i)
    ensures n / 2 == b / Pow2(i + 1) && n / 2 < Pow2(6 - i)
  {
    assert Pow2(0) == 1;
    DivDoubleAfter(b, Pow2(i));
  }

  /** `NuimoBuiltInLedMatrix.BUSY`, the matrix of byte 1. */
  method Busy() returns (m: LedMatrix)
    ensures |m.bits| == LedCount
    ensures m.bits[0] && forall i :: 1 <= i < LedCount ==> !m.bits[i]
  {
    var bits := ToMatrixBits(1);
    m := LedMatrix(bits[..]);
    forall i | 1 <= i < LedCount ensures !m.bits[i] {
      ZeroAbove(1, 1, i);
    }
  }

  /** A zero or negative byte never enters the loop: every LED is off. */
  lemma NonPositiveByteIsDark(b: int)
    requires b <= 0
    ensures ByteBits(b) == seq(LedCount, _ => false)
  {
  }

  /** A byte has only seven value bits, so only LEDs 0 to 6 can light. */
  lemma {:induction false} OnlyFirstSevenLedsLight(b: int, i: nat)
    requires -128 <= b <= 127 && 7 <= i < LedCount
    ensures !ByteBits(b)[i]
  {
    if b > 0 {
      assert Pow2(7) == 128;
      DivUnique(b, Pow2(7), 0, b);
      ZeroAbove(b, 7, i);
    }
  }

  /** `NuimoBuiltInLedMatrix.equals`: both branches defer to the structural comparison. */
  predicate BuiltInEquals(m: LedMatrix, other: Any) {
    if other.Matrix? && other.builtIn then Equals(m, other) else Equals(m, other)
  }

  lemma BuiltInEqualsIsStructural(m: LedMatrix, other: Any)
    ensures BuiltInEquals(m, other) <==> other.Matrix? && other.matrix.bits == m.bits
  {
  }
}
