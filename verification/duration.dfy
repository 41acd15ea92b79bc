/**
 * The tolerance comparison that decides whether two media durations are "the
 * same": a relative difference of at most one percent, and never for two zero
 * durations. Durations are exact reals here; the source compares Python floats.
 */
module Duration {

  /** The largest accepted relative difference between two durations. */
  const Tolerance: real := 0.01

  function Abs(x: real): (r: real)
    ensures r >= 0.0 && (r == x || r == -x)
  {
    if x < 0.0 then -x else x
  }

  function Max(a: real, b: real): (r: real)
    ensures r >= a && r >= b && (r == a || r == b)
  {
    if a >= b then a else b
  }

  /**
   * `compare_float`: the relative difference `|a - b| / max(|a|, |b|)` is within
   * the tolerance. The contract restates it without the division.
   */
  function CompareFloat(a: real, b: real): (r: bool)
    ensures Max(Abs(a), Abs(b)) == 0.0 ==> !r
    ensures Max(Abs(a), Abs(b)) > 0.0 ==> (r <==> Abs(a - b) <= Tolerance * Max(Abs(a), Abs(b)))
  {
    var difference := Abs(a - b);
    var larger := Max(Abs(a), Abs(b));
    if larger == 0.0 then false
    else
      RatioWithin(difference, larger);
      difference / larger <= Tolerance
  }

  /** Dividing by a positive bound: `d / l <= Tolerance` exactly when `d <= Tolerance * l`. */
  lemma RatioWithin(d: real, l: real)
    requires l > 0.0
    ensures d / l <= Tolerance <==> d <= Tolerance * l
  {
    assert d == (d / l) * l;
    if d / l <= Tolerance {
      assert (d / l) * l <= Tolerance * l;
    } else {
      assert (d / l) * l > Tolerance * l;
    }
  }

  /** Two zero durations never match: a degenerate output is never accepted. */
  lemma BothZeroNeverMatch(a: real, b: real)
    requires a == 0.0 && b == 0.0
    ensures !CompareFloat(a, b)
  {
  }

  /** The comparison does not depend on which duration is the source's. */
  lemma CompareFloatSymmetric(a: real, b: real)
    ensures CompareFloat(a, b) == CompareFloat(b, a)
  {
    assert Abs(a - b) == Abs(b - a);
  }

  /** Every non-zero duration matches itself. */
  lemma CompareFloatReflexive(a: real)
    requires a != 0.0
    ensures CompareFloat(a, a)
  {
  }

  /** A zero duration never matches a non-zero one. */
  lemma OneZeroNeverMatches(a: real, b: real)
    requires (a == 0.0) != (b == 0.0)
    ensures !CompareFloat(a, b)
  {
  }

  /** Half a second on a hundred matches; two and a half seconds do not. */
  lemma ToleranceExamples()
    ensures CompareFloat(100.0, 100.5)
    ensures !CompareFloat(100.0, 102.5)
    ensures CompareFloat(100.0, 99.0) && !CompareFloat(100.0, 98.9)
  {
  }
}
