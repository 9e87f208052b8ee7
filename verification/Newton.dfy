/** Newton's integer square root (src/math.c), with its unsigned 64-bit arithmetic written out. */
module Newton {

  const UINT64: int := 0x1_0000_0000_0000_0000

  /** r is the integer square root of n. */
  ghost predicate IsRoot(n: nat, r: nat) {
    r * r <= n < (r + 1) * (r + 1)
  }

  ghost predicate IsSquareOf(m: nat, k: nat) {
    k * k == m
  }

  ghost predicate PerfectSquare(m: nat) {
    exists k: nat :: IsSquareOf(m, k)
  }

  /** The first guess, 1 + ((n - 1) >> 1): for n == 0 the subtraction wraps around. */
  function Guess(n: nat): nat
    requires n < UINT64
  {
    1 + ((n - 1) % UINT64) / 2
  }

  /** One refinement, (x + n / x) >> 1, with the sum taken modulo 2^64. */
  function Refine(n: nat, x: nat): nat
    requires 0 < x
  {
    ((x + n / x) % UINT64) / 2
  }

  // ----- integer square roots -----

  lemma MulMono(a: nat, b: nat)
    requires a <= b
    ensures a * a <= b * b
  {
    assert b * b - a * a == (b - a) * (b + a);
  }

  lemma FactorBound(a: int, b: int, x: int)
    requires 0 < x && a * x < b * x
    ensures a < b
  {
    assert b * x - a * x == (b - a) * x;
    assert b - a <= 0 ==> (b - a) * x <= 0;
  }

  lemma {:induction false} RootExists(n: nat)
    ensures exists r: nat :: IsRoot(n, r)
  {
    if n == 0 {
      assert IsRoot(0, 0);
    } else {
      RootExists(n - 1);
      var r: nat :| IsRoot(n - 1, r);
      if (r + 1) * (r + 1) <= n {
        assert IsRoot(n, r + 1);
      } else {
        assert IsRoot(n, r);
      }
    }
  }

  lemma RootUnique(n: nat, r: nat, s: nat)
    requires IsRoot(n, r) && IsRoot(n, s)
    ensures r == s
  {
    if r < s { MulMono(r + 1, s); }
    if s < r { MulMono(s + 1, r); }
  }

  lemma RootBelow(n: nat, r: nat)
    requires n < UINT64 && IsRoot(n, r)
    ensures r < 0x1_0000_0000
  {
    if 0x1_0000_0000 <= r { MulMono(0x1_0000_0000, r); }
  }

  /** n + 1 is a square exactly when n sits at the very top of the interval of its root. */
  lemma SquareAbove(n: nat, r: nat)
    requires IsRoot(n, r)
    ensures PerfectSquare(n + 1) <==> n == r * r + 2 * r
  {
    if n == r * r + 2 * r {
      assert IsSquareOf(n + 1, r + 1);
    }
    if PerfectSquare(n + 1) {
      var k: nat :| IsSquareOf(n + 1, k);
      if k <= r { MulMono(k, r); }
      if r + 2 <= k { MulMono(r + 2, k); }
    }
  }

  // ----- one refinement -----

  lemma GuessAboveRoot(n: nat, r: nat)
    requires 1 <= n < UINT64 && IsRoot(n, r)
    ensures 1 <= r <= Guess(n) <= UINT64 / 2
  {
    RootIsPositive(n, r);
    SquareOfPred(r);
  }

  lemma SquareOfPred(r: nat)
    ensures 2 * r <= r * r + 1
  {
    assert (r - 1) * (r - 1) == r * r - 2 * r + 1;
  }

  lemma DivFacts(n: nat, x: nat)
    requires 0 < x
    ensures (n / x) * x <= n < (n / x + 1) * x
  {
    assert n == (n / x) * x + n % x;
  }

  lemma MulLe(a: nat, b: nat, c: nat, d: nat)
    requires a <= b && c <= d
    ensures a * c <= b * d
  {
    assert b * d - a * c == (b - a) * d + a * (d - c);
  }

  lemma QuotientBound(n: nat, x: nat, r: nat, q: nat)
    requires 1 <= r <= x && n <= r * r + 2 * r && q * x <= n
    ensures q <= r + 2
  {
    if r + 3 <= q { MulLe(r + 3, q, r, x); }
  }

  /** The mean of x and n / x never drops below the root: 4ab <= (a + b)^2 in integers. */
  lemma MeanAboveRoot(n: nat, x: nat, r: nat, q: nat)
    requires r * r <= n < (q + 1) * x
    ensures 2 * r <= x + q
  {
    var s, d := q + 1 + x, q + 1 - x;
    assert s * s - 4 * ((q + 1) * x) == d * d;
    assert d * d >= 0;
    assert (2 * r) * (2 * r) == 4 * (r * r);
    if s <= 2 * r { MulMono(s, 2 * r); }
  }

  lemma QuotientAboveRoot(n: nat, x: nat, r: nat, q: nat)
    requires n < (r + 1) * (r + 1) && r < x && q * x <= n
    ensures q < x
  {
    MulMono(r + 1, x);
    FactorBound(q, x, x);
  }

  lemma QuotientAtRoot(n: nat, r: nat, q: nat)
    requires 1 <= r && IsRoot(n, r) && q * r <= n < (q + 1) * r
    ensures r <= q <= r + 2
    ensures q == r + 2 <==> n == r * r + 2 * r
  {
    FactorBound(r, q + 1, r);
    QuotientBound(n, r, r, q);
    assert (r + 2) * r == r * r + 2 * r;
    if n == r * r + 2 * r { FactorBound(r + 2, q + 1, r); }
  }

  lemma QuotientFacts(n: nat, x: nat, r: nat)
    requires 1 <= n < UINT64 && IsRoot(n, r) && 1 <= r <= x
    ensures var q := n / x;
      q <= r + 2 && 2 * r <= x + q && (r < x ==> q < x) &&
      (x == r ==> r <= q && (q == r + 2 <==> n == r * r + 2 * r))
  {
    var q := n / x;
    DivFacts(n, x);
    QuotientBound(n, x, r, q);
    MeanAboveRoot(n, x, r, q);
    if r < x { QuotientAboveRoot(n, x, r, q); } else { QuotientAtRoot(n, r, q); }
  }

  lemma RootIsPositive(n: nat, r: nat)
    requires 1 <= n && IsRoot(n, r)
    ensures 1 <= r
  {
  }

  /** From anywhere at or above the root, refining stays at or above it and strictly decreases until the
      root; the root itself is kept, unless n + 1 is a square, when it goes up by one.  The 64-bit sum
      never wraps. */
  lemma RefineFacts(n: nat, x: nat, r: nat)
    requires 1 <= n < UINT64 && IsRoot(n, r) && r <= x <= UINT64 / 2
    ensures 1 <= r && x + n / x < UINT64
    ensures r <= Refine(n, x) <= UINT64 / 2
    ensures x > r ==> Refine(n, x) < x
    ensures x == r ==> Refine(n, x) == if n == r * r + 2 * r then r + 1 else r
  {
    hide IsRoot;
    RootIsPositive(n, r);
    RootBelow(n, r);
    QuotientFacts(n, x, r);
  }

  /** One above the root, when n + 1 is a square, refining comes straight back to the root. */
  lemma RefineFallsBack(n: nat, r: nat)
    requires 1 <= n < UINT64 && IsRoot(n, r) && n == r * r + 2 * r
    ensures Refine(n, r + 1) == r
  {
    assert n == r * (r + 1) + r;
    DivFacts(n, r + 1);
    FactorBound(r, n / (r + 1) + 1, r + 1);
    FactorBound(n / (r + 1), r + 1, r + 1);
    RootBelow(n, r);
  }

  // ----- the whole loop -----

  /** The value of x after k rounds of refinement. */
  ghost function Round(n: nat, k: nat): (x: nat)
    requires 1 <= n < UINT64
    ensures 1 <= x <= UINT64 / 2
    ensures forall r: nat :: IsRoot(n, r) ==> r <= x
  {
    RootExists(n);
    var r: nat :| IsRoot(n, r);
    RootIsTheOnly(n, r);
    if k == 0 then
      GuessAboveRoot(n, r);
      Guess(n)
    else
      RefineFacts(n, Round(n, k - 1), r);
      Refine(n, Round(n, k - 1))
  }

  lemma RootIsTheOnly(n: nat, r: nat)
    requires IsRoot(n, r)
    ensures forall s: nat :: IsRoot(n, s) ==> s == r
  {
    forall s: nat | IsRoot(n, s) ensures s == r { RootUnique(n, r, s); }
  }

  /** The loop leaves after round k when that round changes nothing. */
  ghost predicate Stops(n: nat, k: nat)
    requires 1 <= n < UINT64
  {
    Round(n, k + 1) == Round(n, k)
  }

  /** Some round reaches the root. */
  lemma {:induction false} ReachesRoot(n: nat, r: nat, k: nat) returns (m: nat)
    requires 1 <= n < UINT64 && IsRoot(n, r)
    ensures m >= k && Round(n, m) == r
    decreases Round(n, k)
  {
    if Round(n, k) == r {
      m := k;
    } else {
      RefineFacts(n, Round(n, k), r);
      assert Round(n, k + 1) == Refine(n, Round(n, k));
      m := ReachesRoot(n, r, k + 1);
    }
  }

  /** The loop terminates exactly when n + 1 is not a perfect square, and then on the root. */
  lemma StopsIff(n: nat)
    requires 1 <= n < UINT64
    ensures (exists k: nat :: Stops(n, k)) <==> !PerfectSquare(n + 1)
    ensures forall k: nat :: Stops(n, k) ==> IsRoot(n, Round(n, k))
  {
    RootExists(n);
    var r: nat :| IsRoot(n, r);
    SquareAbove(n, r);
    forall k: nat | Stops(n, k)
      ensures Round(n, k) == r && n != r * r + 2 * r
    {
      RefineFacts(n, Round(n, k), r);
      assert Round(n, k + 1) == Refine(n, Round(n, k));
    }
    if n != r * r + 2 * r {
      var k := ReachesRoot(n, r, 0);
      RefineFacts(n, r, r);
      assert Round(n, k + 1) == Refine(n, Round(n, k));
      assert Stops(n, k);
    }
  }

  /** When n + 1 is a square, the loop ends up bouncing between the root and its successor for ever. */
  lemma {:induction false} Alternates(n: nat, r: nat, k: nat, j: nat)
    requires 1 <= n < UINT64 && IsRoot(n, r) && PerfectSquare(n + 1)
    requires Round(n, k) == r
    ensures Round(n, k + 2 * j) == r && Round(n, k + 2 * j + 1) == r + 1
  {
    SquareAbove(n, r);
    RefineFacts(n, r, r);
    RefineFallsBack(n, r);
    if j > 0 {
      Alternates(n, r, k, j - 1);
      var i := k + 2 * (j - 1);
      assert Round(n, i + 2) == Refine(n, Round(n, i + 1));
      assert k + 2 * j == i + 2;
    }
    assert Round(n, k + 2 * j + 1) == Refine(n, Round(n, k + 2 * j));
  }

  lemma HalvesAtZero(x: nat)
    requires 1 <= x <= UINT64 / 2
    ensures Refine(0, x) == x / 2 != x
  {
    assert 0 / x == 0 by { DivFacts(0, x); FactorBound(0 / x, 1, x); }
  }

  ghost function PowerOf2(k: nat): (p: nat)
    ensures p > 0
  {
    if k == 0 then 1 else 2 * PowerOf2(k - 1)
  }

  lemma {:induction false} PowerGrows(k: nat, l: nat)
    requires k <= l
    ensures PowerOf2(k) <= PowerOf2(l)
  {
    if k < l { PowerGrows(k, l - 1); }
  }

  lemma Power63()
    ensures PowerOf2(63) == UINT64 / 2
  {
    assert PowerOf2(10) == 1024 && PowerOf2(20) == 0x10_0000 by { assert PowerOf2(5) == 32 && PowerOf2(15) == 0x8000; }
    assert PowerOf2(25) == 0x200_0000 && PowerOf2(30) == 0x4000_0000 && PowerOf2(35) == 0x8_0000_0000;
    assert PowerOf2(40) == 0x100_0000_0000 && PowerOf2(45) == 0x2000_0000_0000 && PowerOf2(50) == 0x4_0000_0000_0000;
    assert PowerOf2(55) == 0x80_0000_0000_0000 && PowerOf2(60) == 0x1000_0000_0000_0000;
  }

  /** The value of x after k rounds when n == 0, as long as the divisor is not 0. */
  ghost function RoundAtZero(k: nat): nat {
    if k == 0 then Guess(0)
    else if RoundAtZero(k - 1) == 0 then 0 else Refine(0, RoundAtZero(k - 1))
  }

  /** For n == 0 the run starts at 2^63 and halves in every round without ever stopping, down to 1 in round 63; in the
      next round the divisor is 0. */
  lemma {:induction false} ZeroReachesZero(i: nat)
    requires i <= 63
    ensures RoundAtZero(i) == PowerOf2(63 - i) && RoundAtZero(i + 1) != RoundAtZero(i)
    ensures i == 63 ==> RoundAtZero(i) == 1 && RoundAtZero(i + 1) == 0
  {
    Power63();
    PowerGrows(63 - i, 63);
    HalvesAtZero(PowerOf2(63 - i));
    if i > 0 {
      ZeroReachesZero(i - 1);
      PowerGrows(64 - i, 63);
      HalvesAtZero(PowerOf2(64 - i));
    }
  }

  /** The source's loop, on the inputs for which it ends. */
  method Sqrt(n: nat) returns (x: nat)
    requires 1 <= n < UINT64
    requires !PerfectSquare(n + 1)
    ensures IsRoot(n, x)
  {
    RootExists(n);
    ghost var r: nat :| IsRoot(n, r);
    SquareAbove(n, r);
    GuessAboveRoot(n, r);
    x := Guess(n);
    while true
      invariant r <= x <= UINT64 / 2
      decreases x
    {
      RefineFacts(n, x, r);
      var next := Refine(n, x);
      if x == next {
        break;
      }
      x := next;
    }
  }
}
