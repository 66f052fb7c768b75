/**
 * Python integer and sequence arithmetic that differs from Dafny's: floor
 * division `//`, slices `s[a:b]` with negative or out-of-range bounds, the
 * banker's rounding of the built-in `round`, and `int()` truncation.
 *
 * Quotients that the Python code computes in floating point are taken here as
 * exact rationals `num / den`.
 */
module PyInt {

  function Min(a: int, b: int): int {
    if a <= b then a else b
  }

  function Max(a: int, b: int): int {
    if a >= b then a else b
  }

  /** Python `a // b`, which rounds toward negative infinity. */
  function FloorDiv(a: int, b: int): (q: int)
    requires b != 0
    ensures b > 0 ==> b * q <= a < b * q + b
    ensures b < 0 ==> b * q + b < a <= b * q
  {
    if b > 0 then a / b else (-a) / (-b)
  }

  /** The floor quotient is the only integer with the floor property. */
  lemma FloorDivUnique(a: int, b: int, q: int)
    requires b > 0 && b * q <= a < b * q + b
    ensures q == FloorDiv(a, b)
  {
    var r := FloorDiv(a, b);
    if q < r {
      MulStep(b, q, r);
    } else if q > r {
      MulStep(b, r, q);
    }
  }

  /** For positive `b`, a larger factor gives a product larger by at least `b`. */
  lemma MulStep(b: int, x: int, y: int)
    requires b > 0 && x < y
    ensures b * x + b <= b * y
  {
    assert b * y - b * x == b * (y - x);
    MulAtLeast(b, y - x);
  }

  lemma {:induction false} MulAtLeast(b: int, x: int)
    requires b > 0 && x >= 1
    ensures b * x >= b
  {
    if x > 1 {
      MulAtLeast(b, x - 1);
      assert b * x == b * (x - 1) + b;
    }
  }

  /** `(n + d - 1) // d` for positive `d` is the ceiling of `n / d`. */
  lemma CeilDiv(n: nat, d: int)
    requires d > 0
    ensures var c := FloorDiv(n + d - 1, d);
      0 <= c && d * (c - 1) < n <= d * c
  {
  }

  /** Where a Python slice bound lands in a sequence of length `n`. */
  function SliceBound(i: int, n: nat): (k: nat)
    ensures k <= n
    ensures 0 <= i ==> k == Min(i, n)
    ensures i < 0 ==> k == Max(0, i + n)
  {
    if i < 0 then (if i + n < 0 then 0 else i + n) else if i > n then n else i
  }

  /** Python `s[start:stop]` with step 1. */
  function Slice<T>(s: seq<T>, start: int, stop: int): (r: seq<T>)
    ensures 0 <= start <= stop ==> |r| <= stop - start
    ensures 0 <= start <= |s| && start <= stop ==> r == s[start..Min(stop, |s|)]
    ensures |s| <= start ==> r == []
  {
    var a := SliceBound(start, |s|);
    var b := SliceBound(stop, |s|);
    if a < b then s[a..b] else []
  }

  /** Python `int(x)` for the rational `num / den`: truncation toward zero. */
  function TruncDiv(num: int, den: int): (q: int)
    requires den > 0
    ensures num >= 0 ==> den * q <= num < den * q + den
    ensures num < 0 ==> den * q - den < num <= den * q
  {
    if num >= 0 then num / den else -((-num) / den)
  }

  /**
   * Python `round(num / den)`: the nearest integer, ties going to the even
   * neighbour.
   */
  function RoundHalfEven(num: int, den: int): (k: int)
    requires den > 0
    ensures -den <= 2 * (num - k * den) <= den
    ensures 2 * (num - k * den) == den ==> k % 2 == 0
    ensures 2 * (num - k * den) == -den ==> k % 2 == 0
  {
    var q := num / den;
    var r := num - q * den;
    assert 0 <= r < den by {
      assert num == den * q + num % den;
    }
    assert num - (q + 1) * den == r - den by {
      assert (q + 1) * den == q * den + den;
    }
    if 2 * r < den then q
    else if 2 * r > den then q + 1
    else if q % 2 == 0 then q
    else q + 1
  }

  /** At most one integer is a nearest integer that is even on ties. */
  lemma RoundHalfEvenUnique(num: int, den: int, k: int)
    requires den > 0
    requires -den <= 2 * (num - k * den) <= den
    requires 2 * (num - k * den) == den ==> k % 2 == 0
    requires 2 * (num - k * den) == -den ==> k % 2 == 0
    ensures k == RoundHalfEven(num, den)
  {
    var j := RoundHalfEven(num, den);
    if k < j {
      MulStep(den, k, j);
      if k + 1 < j {
        MulStep(den, k + 1, j);
      }
    } else if k > j {
      MulStep(den, j, k);
      if j + 1 < k {
        MulStep(den, j + 1, k);
      }
    }
  }

  /** Rounding is monotone in the numerator. */
  lemma RoundHalfEvenMonotone(a: int, b: int, den: int)
    requires den > 0 && a <= b
    ensures RoundHalfEven(a, den) <= RoundHalfEven(b, den)
  {
    var ka := RoundHalfEven(a, den);
    var kb := RoundHalfEven(b, den);
    if ka > kb {
      MulStep(den, kb, ka);
      if kb + 1 < ka {
        MulStep(den, kb + 1, ka);
      }
    }
  }

  /** An exact integer quotient rounds to itself. */
  lemma RoundHalfEvenExact(k: int, den: int)
    requires den > 0
    ensures RoundHalfEven(k * den, den) == k
  {
    RoundHalfEvenUnique(k * den, den, k);
  }
}
