/** The acceleration estimates of final-project/src/speed-data.c.
    Velocities are in um/s, accelerations in um/s^2, distances in um, times in 10 ms ticks. */
module Kinematics {
  import opened Newton

  /** C's division of signed integers: it truncates toward zero. */
  function TruncDiv(a: int, b: int): int
    requires b != 0
  {
    if a >= 0 then (if b > 0 then a / b else -(a / -b))
    else if b > 0 then -(-a / b) else -a / -b
  }

  /** estimate_initial_time_acceleration after its square root came back as root. */
  function EstimateTime(v1: int, a: int, root: int): int
    requires a != 0
  {
    var t1 := TruncDiv((-v1 + root) * 100, a);
    var t2 := TruncDiv((-v1 - root) * 100, a);
    if t1 > 0 && t2 > 0 then (if t1 < t2 then t1 else t2)
    else if t1 > 0 then t1
    else if t2 > 0 then t2
    else 0
  }

  /** estimate_initial_distance_acceleration. */
  function EstimateDistance(v1: int, a: int, time: int): int {
    TruncDiv(v1 * time * 100 + TruncDiv(a * time * time, 2), 100 * 100)
  }

  /** dist - d <= s / a + s / 100 + 1, cleared of its denominators, with reach == a * s. */
  ghost predicate ShortfallWithin(a: int, dist: int, d: int, s: int, reach: int) {
    100 * (a * (dist - d)) <= 100 * s + reach + 100 * a
  }

  const INT64_LIMIT: int := 0x8000_0000_0000_0000
  const UINT32: int := 0x1_0000_0000

  /** Both functions around the square root, which must be one that terminates.  The number under the root is computed
      in 64 signed bits, and the time is returned in 32 bits; with a time that fits them the shortfall is bounded, and
      even with one that does not the distance is not exceeded, nor do the 64 bits of its computation overflow. */
  method TimeForDistance(v1: nat, a: nat, dist: nat) returns (time: nat)
    requires 0 < a && 1 <= v1 * v1 + 2 * a * dist < INT64_LIMIT
    requires !PerfectSquare(v1 * v1 + 2 * a * dist + 1)
    ensures time < UINT32 && EstimateDistance(v1, a, time) <= dist
    ensures Scaled(v1, a, time) <= 10000 * dist
    ensures forall s: nat :: IsRoot(v1 * v1 + 2 * a * dist, s) && 100 * (s - v1) < UINT32 * a ==>
      ShortfallWithin(a, dist, EstimateDistance(v1, a, time), s, a * s)
  {
    var root := Sqrt(v1 * v1 + 2 * a * dist);
    TimeIsFirstRoot(v1, a, dist, root);
    time := EstimateTime(v1, a, root) % UINT32;
    ghost var t: nat := EstimateTime(v1, a, root);
    NeverTooFar(v1, a, dist, root);
    LessTime(v1, a, time, t);
    DistanceUnfolds(v1, a, time);
    ShortfallBound(v1, a, dist, root);
    RootIsTheOnly(v1 * v1 + 2 * a * dist, root);
    if 100 * (root - v1) < UINT32 * a { CancelLess(t, UINT32, a); }
  }

  lemma CancelLess(x: int, y: int, a: int)
    requires 0 < a && a * x < y * a
    ensures x < y
  {
    assert a * x - y * a == a * (x - y);
    assert x - y >= 0 ==> a * (x - y) >= 0;
  }

  lemma Grows(c: nat, x: nat, y: nat)
    requires x <= y
    ensures c * x <= c * y
  {
    assert c * y - c * x == c * (y - x);
  }

  /** In less time the train gets less far. */
  lemma LessTime(v1: nat, a: nat, t: nat, t': nat)
    requires t <= t'
    ensures Scaled(v1, a, t) <= Scaled(v1, a, t')
  {
    Grows(v1, t, t');
    SquareGrows(a, t, t');
  }

  lemma SquareGrows(a: nat, t: nat, t': nat)
    requires t <= t'
    ensures 0 <= a * t * t <= a * t' * t'
  {
    var u, u' := a * t, a * t';
    Grows(a, t, t');
    Grows(t, u, u');
    Grows(u', t, t');
    Commutes(t, u);
    Commutes(t, u');
  }

  lemma Commutes(x: nat, y: nat)
    ensures x * y == y * x
  {
  }

  /** The root is at least the start velocity, so the time chosen is the one of the first root, and the
      truncation loses less than one tick. */
  lemma TimeIsFirstRoot(v1: nat, a: nat, dist: nat, s: nat)
    requires 0 < a && IsRoot(v1 * v1 + 2 * a * dist, s)
    ensures v1 <= s
    ensures var t := EstimateTime(v1, a, s); 0 <= t && a * t <= 100 * (s - v1) < a * t + a
  {
    hide TruncDiv, IsRoot;
    RootAboveStart(v1, a, dist, s);
    QuotientOf((s - v1) * 100, a);
    QuotientOf((s + v1) * 100, a);
    TruncsAre((s - v1) * 100, (s + v1) * 100, a);
  }

  lemma RootAboveStart(v1: nat, a: nat, dist: nat, s: nat)
    requires IsRoot(v1 * v1 + 2 * a * dist, s)
    ensures v1 <= s
  {
    assert 2 * a * dist >= 0;
    if s + 1 <= v1 { MulMono(s + 1, v1); }
  }

  lemma TruncsAre(x: int, y: int, a: nat)
    requires 0 < a && x >= 0 && y >= 0
    ensures TruncDiv(x, a) == x / a >= 0 && TruncDiv(-y, a) <= 0
  {
  }

  lemma QuotientOf(y: nat, a: nat)
    requires 0 < a
    ensures a * (y / a) <= y < a * (y / a) + a
  {
    assert y == a * (y / a) + y % a;
  }

  /** y (2w + y) grows with y; written as a difference of products. */
  lemma GrowthStep(w: nat, y: nat, top: nat)
    requires y <= top
    ensures top * (2 * w + top) - y * (2 * w + y) == (top - y) * (2 * w + top + y)
  {
  }

  lemma ScaledSquares(v1: nat, s: nat)
    requires v1 <= s
    ensures (100 * (s - v1)) * (2 * (100 * v1) + 100 * (s - v1)) == 10000 * (s * s - v1 * v1)
  {
    assert (s - v1) * (s + v1) == s * s - v1 * v1;
    var w := s - v1;
    assert (100 * w) * (200 * v1 + 100 * w) == 10000 * (w * (2 * v1 + w));
  }

  /** a times twice the (untruncated) scaled distance is y (200 v1 + y) with y = a t. */
  lemma ScaledDistance(v1: nat, a: nat, t: nat)
    ensures (a * t) * (2 * (100 * v1) + a * t) == a * (2 * (v1 * t * 100) + a * t * t)
  {
    var y := a * t;
    calc {
      y * (2 * (100 * v1) + y);
      y * (200 * v1) + y * y;
      { assert y * (200 * v1) == a * (t * (200 * v1)); assert y * y == a * (t * y); }
      a * (t * (200 * v1)) + a * (t * y);
      a * (t * (200 * v1) + t * y);
      { assert t * (200 * v1) == 2 * (v1 * t * 100); assert t * y == a * t * t; }
      a * (2 * (v1 * t * 100) + a * t * t);
    }
  }

  /** The scaled distance, bounded from two sides. */
  lemma ScaledBounds(v1: nat, a: nat, t: nat, p: nat)
    requires 0 < a && p == Scaled(v1, a, t)
    ensures a * (2 * p) <= (a * t) * (200 * v1 + a * t) <= a * (2 * p) + a
  {
    ScaledDistance(v1, a, t);
    var full := 2 * (v1 * t * 100) + a * t * t;
    assert 2 * p <= full <= 2 * p + 1;
    assert a * full - a * (2 * p) == a * (full - 2 * p);
    assert 0 <= a * (full - 2 * p) <= a;
  }

  lemma DistanceUnfolds(v1: nat, a: nat, t: nat)
    ensures Scaled(v1, a, t) >= 0 && EstimateDistance(v1, a, t) == Scaled(v1, a, t) / 10000
  {
    assert a * t * t >= 0;
    assert v1 * t * 100 >= 0;
  }

  lemma CancelFactor(x: int, y: int, a: int)
    requires 0 < a && a * x <= a * y
    ensures x <= y
  {
    assert a * x - a * y == a * (x - y);
    assert x - y > 0 ==> a * (x - y) > 0;
  }

  lemma SlopeBound(a: nat, y: nat, top: nat, v1: nat, s: nat)
    requires y <= top < y + a && v1 <= s && top == 100 * (s - v1)
    ensures (top - y) * (2 * (100 * v1) + top + y) <= a * (200 * s)
  {
    var f := 2 * (100 * v1) + top + y;
    assert f <= 200 * s;
    assert (top - y) * f <= a * f by {
      assert a * f - (top - y) * f == (a - (top - y)) * f;
      assert (a - (top - y)) * f >= 0;
    }
    assert a * f <= a * (200 * s) by {
      assert a * (200 * s) - a * f == a * (200 * s - f);
      assert a * (200 * s - f) >= 0;
    }
  }

  /** How far a t falls from its target, in squares: the heart of both bounds. */
  lemma SquaresReached(v1: nat, a: nat, dist: nat, s: nat, t: nat)
    requires 0 < a && IsRoot(v1 * v1 + 2 * a * dist, s)
    requires v1 <= s && a * t <= 100 * (s - v1) < a * t + a
    ensures (a * t) * (200 * v1 + a * t) <= 20000 * (a * dist)
    ensures (a * t) * (200 * v1 + a * t) >= 20000 * (a * dist) - 20000 * s - 200 * (a * s)
  {
    hide IsRoot;
    var y, top := a * t, 100 * (s - v1);
    GrowthStep(100 * v1, y, top);
    ScaledSquares(v1, s);
    SlopeBound(a, y, top, v1, s);
    NotNegative(top - y, 2 * (100 * v1) + top + y);
    RootBounds(v1, a, dist, s);
    AddUp(y * (200 * v1 + y), (top - y) * (2 * (100 * v1) + top + y), s * s, v1 * v1, a * dist, s, a * s);
  }

  lemma NotNegative(x: nat, y: nat)
    ensures x * y >= 0
  {
  }

  lemma RootBounds(v1: nat, a: nat, dist: nat, s: nat)
    requires IsRoot(v1 * v1 + 2 * a * dist, s)
    ensures s * s <= v1 * v1 + 2 * (a * dist) < s * s + 2 * s + 1
    ensures a * (200 * s) == 200 * (a * s)
  {
    assert 2 * a * dist == 2 * (a * dist);
    assert (s + 1) * (s + 1) == s * s + 2 * s + 1;
  }

  /** The squares put together; what is left is linear. */
  lemma AddUp(reached: int, lost: int, ss: int, vv: int, ad: int, s: int, as': int)
    requires reached + lost == 10000 * (ss - vv) && 0 <= lost <= 200 * as'
    requires ss <= vv + 2 * ad < ss + 2 * s + 1
    ensures 20000 * ad - 20000 * s - 200 * as' <= reached <= 20000 * ad
  {
  }

  /** The scaled distance, before the last division. */
  ghost function Scaled(v1: nat, a: nat, t: nat): int {
    v1 * t * 100 + (a * t * t) / 2
  }

  /** What the scaled distance for the estimated time comes to. */
  lemma Reached(v1: nat, a: nat, dist: nat, s: nat, t: nat) returns (p: nat)
    requires 0 < a && IsRoot(v1 * v1 + 2 * a * dist, s) && t == EstimateTime(v1, a, s)
    ensures p == Scaled(v1, a, t) && EstimateDistance(v1, a, t) == p / 10000
    ensures 10000 * (p / 10000) <= p <= 10000 * (p / 10000) + 9999
    ensures 20000 * (a * dist) - 20000 * s - 200 * (a * s) - a <= a * (2 * p) <= 20000 * (a * dist)
  {
    hide IsRoot, EstimateTime, EstimateDistance, TruncDiv, Scaled;
    TimeIsFirstRoot(v1, a, dist, s);
    SquaresReached(v1, a, dist, s, t);
    DistanceUnfolds(v1, a, t);
    p := Scaled(v1, a, t);
    ScaledBounds(v1, a, t, p);
  }

  /** One-sided round trip: the distance estimated for the estimated time never exceeds the request. */
  lemma NeverTooFar(v1: nat, a: nat, dist: nat, s: nat)
    requires 0 < a && IsRoot(v1 * v1 + 2 * a * dist, s)
    ensures EstimateDistance(v1, a, EstimateTime(v1, a, s)) <= dist
    ensures Scaled(v1, a, EstimateTime(v1, a, s)) <= 10000 * dist
  {
    hide *;
    TimeIsFirstRoot(v1, a, dist, s);
    var p := Reached(v1, a, dist, s, EstimateTime(v1, a, s));
    UpperFinish(a, p, dist);
  }

  /** ... and the shortfall is at most s / a + s / 100 + 1 micrometres, where s is the speed reached. */
  lemma ShortfallBound(v1: nat, a: nat, dist: nat, s: nat)
    requires 0 < a && IsRoot(v1 * v1 + 2 * a * dist, s)
    ensures ShortfallWithin(a, dist, EstimateDistance(v1, a, EstimateTime(v1, a, s)), s, a * s)
  {
    hide *;
    TimeIsFirstRoot(v1, a, dist, s);
    var p := Reached(v1, a, dist, s, EstimateTime(v1, a, s));
    LowerFinish(a, p, p / 10000, dist, s, a * s);
  }

  lemma UpperFinish(a: nat, p: nat, dist: nat)
    requires 0 < a && a * (2 * p) <= 20000 * (a * dist)
    ensures p <= 10000 * dist
  {
    assert 20000 * (a * dist) == a * (20000 * dist);
    CancelFactor(2 * p, 20000 * dist, a);
  }

  lemma LowerFinish(a: nat, p: nat, d: nat, dist: nat, s: nat, reach: nat)
    requires 0 < a && p <= 10000 * d + 9999
    requires a * (2 * p) + a >= 20000 * (a * dist) - 20000 * s - 200 * reach
    ensures ShortfallWithin(a, dist, d, s, reach)
  {
    assert a * (dist - d) == a * dist - a * d;
    var gap := 20000 * d + 19998 - 2 * p;
    assert a * gap >= 0;
    assert a * gap == 20000 * (a * d) + 19998 * a - a * (2 * p);
  }

  // ----- every train, also one that brakes -----

  /** Truncated division: the quotient times the divisor falls short of the dividend by less than the divisor, towards
      zero. */
  lemma TruncatesTowardZero(a: int, b: int)
    requires b != 0
    ensures var q := TruncDiv(a, b);
      if a >= 0 then 0 <= a - q * b < Size(b) else 0 <= q * b - a < Size(b)
  {
    var m: nat := if a >= 0 then a else -a;
    var n: nat := Size(b);
    QuotientOf(m, n);
    var d := m / n;
    SignsOf(d, n);
    assert TruncDiv(a, b) == if (a >= 0) == (b > 0) then d else -d;
  }

  function Size(v: int): nat {
    if v < 0 then -v else v
  }

  lemma SignsOf(d: int, n: int)
    ensures -d * n == -(d * n) && d * -n == -(d * n) && -d * -n == d * n && n * d == d * n
  {
  }

  /** The time is the least positive one of the two solutions in whole ticks, and 0 when neither is positive. */
  lemma LeastPositive(v1: int, a: int, s: int)
    requires a != 0
    ensures var t, t1, t2 := EstimateTime(v1, a, s), TruncDiv((s - v1) * 100, a), TruncDiv((-v1 - s) * 100, a);
      (t == 0 || t == t1 || t == t2) && t >= 0 && (t == 0 <==> t1 <= 0 && t2 <= 0) &&
      (t1 > 0 ==> t <= t1) && (t2 > 0 ==> t <= t2)
  {
    hide TruncDiv;
  }

  /** A train that brakes by b: the time is the one of the first solution, at which it has slowed down from v1 to s,
      exactly when that takes a tick at least, or neither solution does.  Otherwise it is the second solution, at which
      the train would run backwards at s. */
  lemma BrakingIff(v1: int, b: int, s: int)
    requires 0 < b && 0 <= s <= v1
    ensures var t := EstimateTime(v1, -b, s);
      (b * t <= 100 * (v1 - s) < b * t + b <==> b <= 100 * (v1 - s) || 100 * (v1 + s) < b) &&
      (b * t <= 100 * (v1 - s) < b * t + b || b * t <= 100 * (v1 + s) < b * t + b)
  {
    hide EstimateTime, TruncDiv;
    var x, y := 100 * (v1 - s), 100 * (v1 + s);
    LeastPositive(v1, -b, s);
    BrakingQuotients(x, y, b);
    assert (s - v1) * 100 == -x && (-v1 - s) * 100 == -y;
    QuotientOf(x, b);
    QuotientOf(y, b);
    TickOrNot(x, b);
    TickOrNot(y, b);
    OneQuotient(x, b, EstimateTime(v1, -b, s));
  }

  lemma BrakingQuotients(x: int, y: int, b: int)
    requires 0 < b && 0 <= x <= y
    ensures TruncDiv(-x, -b) == x / b && TruncDiv(-y, -b) == y / b && x / b <= y / b
  {
    hide TruncDiv;
    BothNegative(x, b);
    BothNegative(y, b);
    QuotientOf(x, b);
    QuotientOf(y, b);
    InOrder(x, y, b, x / b, y / b);
  }

  lemma BothNegative(x: int, b: int)
    requires 0 < b && 0 <= x
    ensures TruncDiv(-x, -b) == x / b
  {
    if x == 0 { assert x / b == 0; }
  }

  lemma InOrder(x: int, y: int, b: int, p: int, q: int)
    requires 0 < b && x <= y && b * p <= x && y < b * q + b
    ensures p <= q
  {
    assert b * (p - q - 1) == b * p - (b * q + b);
    assert p - q - 1 >= 0 ==> b * (p - q - 1) >= 0;
  }

  lemma TickOrNot(x: nat, b: nat)
    requires 0 < b
    ensures x / b == 0 <==> x < b
  {
    QuotientOf(x, b);
    if x / b > 0 { Grows(b, 1, x / b); }
  }

  lemma OneQuotient(x: nat, b: nat, t: int)
    requires 0 < b && t >= 0
    ensures b * t <= x < b * t + b <==> t == x / b
  {
    QuotientOf(x, b);
    if t < x / b { Grows(b, t + 1, x / b); }
    if t > x / b { Grows(b, x / b + 1, t); }
  }
}
