/** Powers of two and two's-complement bits, shared by the matrix encoders and the gesture decoder. */
module Binary {

  /** `1 shl i` */
  function Pow2(i: nat): (r: nat)
    ensures r >= 1
    ensures i > 0 ==> r >= 2 && r % 2 == 0
  {
    if i == 0 then 1 else 2 * Pow2(i - 1)
  }

  /** Bit `i` of `n` in two's complement (`(1 shl i) and n != 0`). Dafny's `/` and `%`
      round towards minus infinity for a positive divisor, so this also reads the bits of a
      negative `n` as a JVM `Int` holds them. */
  predicate BitSet(n: int, i: nat) {
    (n / Pow2(i)) % 2 == 1
  }

  lemma DivUnique(x: int, d: int, q: int, r: int)
    requires d > 0 && 0 <= r < d && x == d * q + r
    ensures x / d == q && x % d == r
  {
    var q', r' := x / d, x % d;
    assert d * (q - q') == r' - r;
    if q > q' {
      MulAtLeast(d, q - q');
    } else if q < q' {
      MulAtLeast(d, q' - q);
    }
  }

  lemma MulAtLeast(d: int, k: int)
    requires d > 0 && k >= 1
    ensures d * k >= d
  {
    assert d * k == d * (k - 1) + d;
  }

  /** Dividing by `2 p` is halving, then dividing by `p`. */
  lemma DivDouble(x: int, p: nat)
    requires p > 0
    ensures x / (2 * p) == (x / 2) / p
  {
    var q, r := (x / 2) / p, (x / 2) % p;
    assert x / 2 == p * q + r;
    assert x == 2 * (x / 2) + x % 2;
    assert x == (2 * p) * q + (2 * r + x % 2);
    DivUnique(x, 2 * p, q, 2 * r + x % 2);
  }

  /** Dividing by `2 p` is dividing by `p`, then halving. */
  lemma DivDoubleAfter(x: int, p: nat)
    requires p > 0
    ensures x / (2 * p) == (x / p) / 2
  {
    var a, m := x / p, x % p;
    var q, r := a / 2, a % 2;
    assert x == p * a + m;
    HalveProduct(p, a, q, r);
    DivUnique(x, 2 * p, q, (if r == 0 then 0 else p) + m);
  }

  /** `p a` for `a = 2 q + r`, `r` a bit, is `(2 p) q` plus `p` when `r` is set. */
  lemma HalveProduct(p: int, a: int, q: int, r: int)
    requires a == 2 * q + r && (r == 0 || r == 1)
    ensures p * a == (2 * p) * q + (if r == 0 then 0 else p)
  {
  }

  /** Bit `i + 1` of `n` is bit `i` of `n / 2`. */
  lemma BitSetHalf(n: int, i: nat)
    ensures BitSet(n, i + 1) == BitSet(n / 2, i)
  {
    DivDouble(n, Pow2(i));
  }

  /** Once a value has been shifted down to zero, every higher bit is clear. */
  lemma {:induction false} ZeroAbove(n: int, i: nat, k: nat)
    requires i <= k && n / Pow2(i) == 0
    ensures n / Pow2(k) == 0 && !BitSet(n, k)
  {
    if k > i {
      ZeroAbove(n, i, k - 1);
      DivDoubleAfter(n, Pow2(k - 1));
    }
  }
}
