/** Exact real-number counterparts of the floating-point helpers the program relies on. */
module Numeric {

  /** 10^n as a natural number. */
  function Pow10(n: nat): (r: nat)
    ensures r >= 1
  {
    if n == 0 then 1 else 10 * Pow10(n - 1)
  }

  lemma {:induction false} Pow10Add(a: nat, b: nat)
    ensures Pow10(a + b) == Pow10(a) * Pow10(b)
  {
    if a > 0 {
      Pow10Add(a - 1, b);
      assert Pow10(a + b) == 10 * Pow10(a - 1 + b);
    }
  }

  lemma {:induction false} Pow10Monotone(a: nat, b: nat)
    requires a <= b
    ensures Pow10(a) <= Pow10(b)
  {
    if a < b {
      Pow10Monotone(a, b - 1);
    }
  }

  lemma CastMul(a: int, b: int)
    ensures (a * b) as real == a as real * b as real
  {
  }

  /** True when `x` is a whole number. */
  predicate IsWhole(x: real) {
    x.Floor as real == x
  }

  /** True when `x` lies exactly halfway between two whole numbers. */
  predicate IsHalfway(x: real) {
    x - x.Floor as real == 1.0 / 2.0
  }

  /** Python's built-in `round(x)`: the nearest integer, ties to the even one. */
  function RoundHalfEven(x: real): (r: int)
    ensures x - 1.0 / 2.0 <= r as real <= x + 1.0 / 2.0
    ensures !IsHalfway(x) ==> -1.0 / 2.0 < r as real - x < 1.0 / 2.0
    ensures IsHalfway(x) ==> r % 2 == 0
  {
    var f := x.Floor;
    var d := x - f as real;
    if d < 1.0 / 2.0 then f
    else if d > 1.0 / 2.0 then f + 1
    else if f % 2 == 0 then f else f + 1
  }

  /** Python's `round(x, n)`: `x` rounded to `n` decimal places, ties to even. */
  function PyRound(x: real, n: nat): real {
    RoundToScale(x, Pow10(n) as real)
  }

  /** `x` rounded, ties to even, to a whole multiple of `1/p`. */
  function RoundToScale(x: real, p: real): real
    requires p >= 1.0
  {
    RoundHalfEven(x * p) as real / p
  }

  lemma RoundToScaleError(x: real, p: real)
    requires p >= 1.0
    ensures -1.0 / (2.0 * p) <= RoundToScale(x, p) - x <= 1.0 / (2.0 * p)
  {
    var k := RoundHalfEven(x * p) as real;
    assert -1.0 / 2.0 <= k - x * p <= 1.0 / 2.0;
    assert RoundToScale(x, p) - x == (k - x * p) / p;
    DivideBounds(k - x * p, 1.0 / 2.0, p);
    assert (1.0 / 2.0) / p == 1.0 / (2.0 * p);
  }

  lemma DivideBounds(a: real, b: real, p: real)
    requires p > 0.0
    requires -b <= a <= b
    ensures -b / p <= a / p <= b / p
  {
  }

  /** A rounded multiple `n` of `1/p` is within `1/(2p)` of the value it rounds. */
  lemma ScaledRoundError(y: real, n: real, p: real)
    requires p > 0.0
    requires y * p - 1.0 / 2.0 < n <= y * p + 1.0 / 2.0
    ensures -1.0 / (2.0 * p) <= n / p - y <= 1.0 / (2.0 * p)
    ensures -1.0 / (2.0 * p) <= -(n / p) - -y <= 1.0 / (2.0 * p)
  {
    var e := n - y * p;
    DivideBounds(e, 1.0 / 2.0, p);
    assert e / p == n / p - y;
    assert (1.0 / 2.0) / p == 1.0 / (2.0 * p);
  }

  lemma DivSelf(s: real)
    requires s != 0.0
    ensures s / s == 1.0
  {
  }

  lemma DivMulCancel(v: real, p: real)
    requires p != 0.0
    ensures (v / p) * p == v
  {
  }

  lemma MulDivCancel(x: real, p: real)
    requires p != 0.0
    ensures (x * p) / p == x
  {
  }

  lemma SubMul(a: real, b: real, p: real)
    ensures (a - b) * p == a * p - b * p
  {
  }

  lemma MulBounds(e: real, b: real, p: real)
    requires p > 0.0 && -b <= e <= b
    ensures -(b * p) <= e * p <= b * p
  {
  }

  lemma Pow10Three()
    ensures Pow10(3) == 1000
  {
  }

  lemma MulNonZero(a: real, b: real)
    requires a != 0.0 && b != 0.0
    ensures a * b != 0.0
  {
  }

  /** A common nonzero factor of numerator and denominator cancels. */
  lemma DivCancel(a: real, k: real, s: real)
    requires k != 0.0 && s != 0.0
    ensures (k * a) / (k * s) == a / s
  {
    var x := a / s;
    assert x * s == a;
    assert x * (k * s) == k * a;
  }

  /** Shifting a digit in front of a fraction: `(d + v/p)/10 == (d·p + v)/(10·p)`. */
  lemma ShiftFraction(d: real, v: real, p: real)
    requires p > 0.0
    ensures (d + v / p) / 10.0 == (d * p + v) / (10.0 * p)
  {
    var q := v / p;
    assert v == q * p;
    assert d * p + v == p * (d + q);
    DivCancel(d + q, p, 10.0);
    assert 10.0 * p == p * 10.0;
  }

  lemma RoundToScaleWhole(x: real, p: real)
    requires p >= 1.0
    requires IsWhole(x * p)
    ensures RoundToScale(x, p) == x
  {
    assert RoundHalfEven(x * p) as real == x * p;
  }

  /** Rounding never takes a non-negative value below zero. */
  lemma PyRoundNonNegative(x: real, n: nat)
    requires x >= 0.0
    ensures PyRound(x, n) >= 0.0
  {
    var p := Pow10(n) as real;
    assert x * p >= 0.0;
    assert RoundHalfEven(x * p) >= 0;
  }

  /** `round(x, n)` is at most half a unit in the `n`-th decimal place away from `x`. */
  lemma PyRoundError(x: real, n: nat)
    ensures -1.0 / (2 * Pow10(n)) as real <= PyRound(x, n) - x <= 1.0 / (2 * Pow10(n)) as real
  {
    RoundToScaleError(x, Pow10(n) as real);
  }

  /** Rounding a value that already has at most `n` decimal places gives it back. */
  lemma PyRoundWhole(x: real, n: nat)
    requires IsWhole(x * (Pow10(n) as real))
    ensures PyRound(x, n) == x
  {
    RoundToScaleWhole(x, Pow10(n) as real);
  }

  /** `round(x, 3)` leaves a value with at most three decimals unchanged. */
  lemma PyRoundThreeWhole(x: real)
    requires IsWhole(x * 1000.0)
    ensures PyRound(x, 3) == x
  {
    Pow10Three();
    RoundToScaleWhole(x, 1000.0);
  }

  /** `round(x, 3)` moves a value by at most half a thousandth. */
  lemma PyRoundThreeError(x: real)
    ensures -0.0005 <= PyRound(x, 3) - x <= 0.0005
  {
    Pow10Three();
    RoundToScaleError(x, 1000.0);
  }

  /** JavaScript's `Math.round(x)`: the nearest integer, ties upwards. */
  function JsMathRound(x: real): (r: int)
    ensures x - 1.0 / 2.0 < r as real <= x + 1.0 / 2.0
  {
    (x + 1.0 / 2.0).Floor
  }

  /** Number of decimal digits of a natural number (at least one). */
  function NumDigits(n: nat): (d: nat)
    ensures d >= 1
    ensures n >= 1 ==> Pow10(d - 1) <= n
    ensures n < Pow10(d)
  {
    if n < 10 then 1 else 1 + NumDigits(n / 10)
  }

  /** `math.floor(math.log10(x))` for `x >= 1`, computed exactly. */
  function FloorLog10(x: real): (k: nat)
    requires x >= 1.0
    ensures Pow10(k) as real <= x < Pow10(k + 1) as real
  {
    var n := x.Floor;
    assert n >= 1;
    NumDigits(n) - 1
  }
  /** The exponent is the only `k` with 10^k <= x < 10^(k+1). */
  lemma FloorLog10Unique(x: real, k: nat)
    requires Pow10(k) as real <= x < Pow10(k + 1) as real
    ensures FloorLog10(x) == k
  {
    var j := FloorLog10(x);
    if j < k {
      Pow10Monotone(j + 1, k);
    } else if j > k {
      Pow10Monotone(k + 1, j);
    }
  }


  /** The hypotheses the model relies on about `math.log`. */
  ghost predicate IsNaturalLog(ln: real -> real) {
    && ln(1.0) == 0.0
    && forall x: real, y: real :: 0.0 < x < y ==> ln(x) < ln(y)
  }

  function Sum(s: seq<real>): real {
    if |s| == 0 then 0.0 else Sum(s[..|s| - 1]) + s[|s| - 1]
  }

  lemma Sum3(s: seq<real>)
    requires |s| == 3
    ensures Sum(s) == s[0] + s[1] + s[2]
  {
    assert s[..2][..1] == s[..1];
    assert s[..1][..0] == [];
    assert Sum(s[..1]) == s[0];
    assert Sum(s[..2]) == Sum(s[..1]) + s[1];
  }

  /** Arithmetic mean, `sum(s) / len(s)`. */
  function Mean(s: seq<real>): real
    requires |s| > 0
  {
    Sum(s) / |s| as real
  }

  /** `m` is an average of `s`: `m` taken once per element adds up to the sum. */
  predicate IsMeanOf(m: real, s: seq<real>) {
    m * |s| as real == Sum(s)
  }

  /** The mean times the count is the sum. */
  lemma MeanTimesCount(s: seq<real>)
    requires |s| > 0
    ensures IsMeanOf(Mean(s), s)
  {
    var n := |s| as real;
    assert n > 0.0;
    assert (Sum(s) / n) * n == Sum(s);
  }

  lemma {:induction false} SumBounds(s: seq<real>, lo: real, hi: real)
    requires forall i :: 0 <= i < |s| ==> lo <= s[i] <= hi
    ensures |s| as real * lo <= Sum(s) <= |s| as real * hi
  {
    if |s| > 0 {
      SumBounds(s[..|s| - 1], lo, hi);
    }
  }

  /** The mean lies between any lower and upper bound of the values. */
  lemma MeanBounds(s: seq<real>, lo: real, hi: real)
    requires |s| > 0
    requires forall i :: 0 <= i < |s| ==> lo <= s[i] <= hi
    ensures lo <= Mean(s) <= hi
  {
    SumBounds(s, lo, hi);
    var n := |s| as real;
    assert Mean(s) * n == Sum(s);
  }

  /** The mean of a single value is that value; the mean of equal values is that value. */
  lemma MeanOfConstant(s: seq<real>, v: real)
    requires |s| > 0
    requires forall i :: 0 <= i < |s| ==> s[i] == v
    ensures Mean(s) == v
  {
    MeanBounds(s, v, v);
  }

  lemma {:induction false} SumAppend(s: seq<real>, t: seq<real>)
    ensures Sum(s + t) == Sum(s) + Sum(t)
  {
    if |t| > 0 {
      assert (s + t)[..|s + t| - 1] == s + t[..|t| - 1];
      SumAppend(s, t[..|t| - 1]);
    } else {
      assert s + t == s;
    }
  }
}
