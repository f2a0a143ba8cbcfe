/**
 * Value types shared by every part of the model, and the JavaScript numeric
 * primitives the decision engine relies on (Math.round, Math.min, Math.abs,
 * Number.prototype.toFixed read back by parseFloat), stated over exact
 * rationals instead of IEEE doubles.
 */
module Common {

  datatype Option<+T> = None | Some(value: T)

  datatype Result<+T, +E> = Ok(value: T) | Err(error: E)

  /** Math.min on two integers. */
  function Min(a: int, b: int): (r: int)
    ensures r <= a && r <= b
    ensures r == a || r == b
  {
    if a <= b then a else b
  }

  /** Math.max on two integers. */
  function Max(a: int, b: int): (r: int)
    ensures a <= r && b <= r
    ensures r == a || r == b
  {
    if a <= b then b else a
  }

  /** Math.abs on an integer. */
  function Abs(x: int): (r: nat)
    ensures r == x || r == -x
  {
    if x < 0 then -x else x
  }

  /**
   * Math.round: the nearest integer, a half rounded towards +infinity
   * (Math.round(2.5) is 3 and Math.round(-2.5) is -2).
   */
  function Round(x: real): (r: int)
    ensures r as real - 0.5 <= x < r as real + 0.5
  {
    (x + 0.5).Floor
  }

  /**
   * x.toFixed(0) read back as a number: the nearest integer, a half rounded
   * away from zero (the sign is set aside, the magnitude rounded, the sign
   * put back).
   */
  function ToFixed0(x: real): (r: int)
    ensures r as real - 0.5 <= x <= r as real + 0.5
    ensures 0.0 <= x ==> 0 <= r && x < r as real + 0.5
    ensures x <= 0.0 ==> r <= 0 && r as real - 0.5 < x
  {
    if 0.0 <= x then Round(x) else -Round(-x)
  }

  /** parseFloat(x.toFixed(2)): x rounded to hundredths, halves away from zero. */
  function ToFixed2(x: real): (r: real)
    ensures x - 0.005 <= r <= x + 0.005
    ensures 0.0 <= x <= 1.0 ==> 0.0 <= r <= 1.0
    ensures Hundredths(r)
  {
    var n := ToFixed0(x * 100.0);
    assert 0.0 <= x <= 1.0 ==> 0 <= n <= 100;
    HundredthsOf(n);
    n as real / 100.0
  }

  lemma HundredthsOf(n: int)
    ensures Hundredths(n as real / 100.0)
  {
    assert (n as real / 100.0) * 100.0 == n as real;
  }

  /** A whole number of hundredths, as toFixed(2) produces. */
  predicate Hundredths(x: real)
  {
    (x * 100.0).Floor as real == x * 100.0
  }

  /** The sum that `reduce((sum, v) => sum + v, 0)` computes. */
  function Sum(s: seq<int>): (r: int)
    ensures (forall i :: 0 <= i < |s| ==> 0 <= s[i]) ==> 0 <= r
  {
    if s == [] then 0 else s[0] + Sum(s[1..])
  }

  lemma {:induction false} SumAppend(s: seq<int>, x: int)
    ensures Sum(s + [x]) == Sum(s) + x
  {
    if s != [] {
      assert (s + [x])[1..] == s[1..] + [x];
      SumAppend(s[1..], x);
    }
  }

  /** Dividing two integers exactly and taking the floor is Euclidean division. */
  lemma FloorOfQuotient(a: int, b: int)
    requires 0 < b
    ensures (a as real / b as real).Floor == a / b
  {
    var q, m := a / b, a % b;
    assert a == q * b + m && 0 <= m < b;
    assert a as real / b as real == q as real + m as real / b as real;
    assert 0.0 <= m as real / b as real < 1.0;
  }

  /** The sign of a product with a positive factor is the sign of the other factor. */
  lemma ProductSign(x: real, y: real)
    requires 0.0 < y
    ensures 0.0 < x ==> 0.0 < x * y
    ensures x <= 0.0 ==> x * y <= 0.0
  {
  }

  /** A non-negative total divided by a positive count is non-negative. */
  lemma MeanNonNegative(total: int, n: int)
    requires 0 <= total && 0 < n
    ensures 0.0 <= total as real / n as real
  {
    var a := total as real / n as real;
    assert a * n as real == total as real;
    ProductSign(-a, n as real);
  }

  /** A quotient of a numerator between 0 and a positive denominator lies in [0, 1]. */
  lemma QuotientInUnit(e: int, m: int)
    requires 0 <= e <= m && 0 < m
    ensures 0.0 <= e as real / m as real <= 1.0
  {
    var q := e as real / m as real;
    assert (q - 1.0) * m as real == (e - m) as real;
    ProductSign(q - 1.0, m as real);
    assert -q * m as real == (-e) as real;
    ProductSign(-q, m as real);
  }

  /** A prefix one longer is the prefix extended by the next element. */
  lemma PrefixExtends<T>(s: seq<T>, i: nat)
    requires i < |s|
    ensures s[..i + 1] == s[..i] + [s[i]]
  {
  }

  /** avg is the mean of n values that add up to total. */
  predicate IsMean(avg: real, n: int, total: int)
  {
    avg * n as real == total as real
  }

  /** AVG over a positive count: the exact quotient, which times the count gives back the total. */
  function Mean(total: int, n: int): (q: real)
    requires 0 < n
    ensures IsMean(q, n, total)
    ensures 0 <= total ==> 0.0 <= q
  {
    assert 0 <= total ==> 0.0 <= total as real / n as real by {
      if 0 <= total { MeanNonNegative(total, n); }
    }
    total as real / n as real
  }
}
