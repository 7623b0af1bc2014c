/** Azimuth arithmetic of the skim (skim.cxx, namespace Helper).

    Reals stand for the source's float and double values. `std::fmod` is the
    remainder of a division whose quotient is truncated toward zero. */
module Azimuth {

  /** The value of M_PI, the default half-period `c` of DeltaPhi. */
  const Pi: real := 3.141592653589793

  /** The quotient of x by m, truncated toward zero. */
  function TruncQuotient(x: real, m: real): int
    requires m > 0.0
  {
    if x >= 0.0 then (x / m).Floor else -((-x) / m).Floor
  }

  lemma MulLeft(a: real, b: real, m: real)
    requires a <= b && m > 0.0
    ensures a * m <= b * m
  {
    assert (b - a) * m >= 0.0;
  }

  lemma MulLeftStrict(a: real, b: real, m: real)
    requires a < b && m > 0.0
    ensures a * m < b * m
  {
    assert (b - a) * m > 0.0;
  }

  /** For x >= 0 the truncated remainder lies in [0, m). */
  lemma NonNegativeRemainder(x: real, m: real)
    requires x >= 0.0 && m > 0.0
    ensures 0.0 <= x - ((x / m).Floor as real) * m < m
  {
    var y := x / m;
    var q := y.Floor as real;
    assert q <= y < q + 1.0;
    MulLeft(q, y, m);
    MulLeftStrict(y, q + 1.0, m);
    QuotientTimesDivisor(x, m);
    assert (q + 1.0) * m == q * m + m;
    assert x < q * m + m;
    assert x - q * m < m;
  }

  lemma QuotientTimesDivisor(x: real, m: real)
    requires m > 0.0
    ensures (x / m) * m == x
  {
  }

  /** A non-negative number below m is less than one period of m. */
  lemma FractionOfPeriod(d: real, m: real)
    requires 0.0 <= d < m
    ensures 0.0 <= d / m < 1.0
  {
    var y := d / m;
    assert y * m == d;
    if y >= 1.0 {
      MulLeft(1.0, y, m);
    }
    if y < 0.0 {
      MulLeftStrict(y, 0.0, m);
    }
  }

  /** `std::fmod(x, m)`: the remainder has the sign of x, is smaller than m
      in magnitude, and x is an integer number of m away from it. */
  function Fmod(x: real, m: real): (r: real)
    requires m > 0.0
    ensures x == TruncQuotient(x, m) as real * m + r
    ensures x >= 0.0 ==> 0.0 <= r < m
    ensures x <= 0.0 ==> -m < r <= 0.0
  {
    NonNegativeRemainder(if x >= 0.0 then x else -x, m);
    x - TruncQuotient(x, m) as real * m
  }

  /** `fmod` is odd in its first argument. */
  lemma FmodOdd(x: real, m: real)
    requires m > 0.0
    ensures Fmod(-x, m) == -Fmod(x, m)
  {
    if x < 0.0 {
      assert TruncQuotient(-x, m) == -TruncQuotient(x, m);
    } else if x > 0.0 {
      assert -(-x) == x;
      assert TruncQuotient(-x, m) == -TruncQuotient(x, m);
    }
  }

  /** Number of whole periods 2c that DeltaPhi removes from v2 - v1. */
  function PeriodsRemoved(v1: real, v2: real, c: real): int
    requires c > 0.0
  {
    var q := TruncQuotient(v2 - v1, 2.0 * c);
    var r := Fmod(v2 - v1, 2.0 * c);
    if r < -c then q - 1 else if r > c then q + 1 else q
  }

  /** `Helper::DeltaPhi(v1, v2, c)` (skim.cxx:77-87): the azimuth difference
      v2 - v1 brought into [-c, c] by removing whole periods 2c. */
  function DeltaPhi(v1: real, v2: real, c: real): (r: real)
    requires c > 0.0
    ensures -c <= r <= c
    ensures v2 - v1 == r + PeriodsRemoved(v1, v2, c) as real * (2.0 * c)
  {
    var r := Fmod(v2 - v1, 2.0 * c);
    if r < -c then r + 2.0 * c else if r > c then r - 2.0 * c else r
  }

  /** The same computation with the local `r` updated in place, as the source writes it. */
  method ComputeDeltaPhi(v1: real, v2: real, c: real) returns (r: real)
    requires c > 0.0
    ensures -c <= r <= c
    ensures r == DeltaPhi(v1, v2, c)
  {
    r := Fmod(v2 - v1, 2.0 * c);
    if r < -c {
      r := r + 2.0 * c;
    } else if r > c {
      r := r - 2.0 * c;
    }
  }

  /** A difference that already lies in [-c, c] is returned unchanged. */
  lemma DeltaPhiOfSmallDifference(v1: real, v2: real, c: real)
    requires c > 0.0 && -c <= v2 - v1 <= c
    ensures DeltaPhi(v1, v2, c) == v2 - v1
  {
    var d := v2 - v1;
    var m := 2.0 * c;
    if d >= 0.0 {
      FractionOfPeriod(d, m);
    } else {
      FractionOfPeriod(-d, m);
    }
    assert TruncQuotient(d, m) == 0;
  }

  /** Swapping the two angles flips the sign of the wrapped difference. */
  lemma DeltaPhiAntisymmetric(v1: real, v2: real, c: real)
    requires c > 0.0
    ensures DeltaPhi(v2, v1, c) == -DeltaPhi(v1, v2, c)
  {
    assert v1 - v2 == -(v2 - v1);
    FmodOdd(v2 - v1, 2.0 * c);
  }

  /** Azimuths -3 and 3 are 6 - 2 pi apart once wrapped, not 6. */
  lemma DeltaPhiAcrossBoundary()
    ensures DeltaPhi(-3.0, 3.0, Pi) == 6.0 - 2.0 * Pi
    ensures -0.3 < DeltaPhi(-3.0, 3.0, Pi) < -0.28
  {
    assert 3.0 - -3.0 == 6.0;
    assert 0.0 <= 6.0 / (2.0 * Pi) < 1.0;
    assert TruncQuotient(6.0, 2.0 * Pi) == 0;
    assert Fmod(6.0, 2.0 * Pi) == 6.0;
  }
}
