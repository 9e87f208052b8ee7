/** Printing numbers (src/util.c:11-28) and parsing them back (track-control/src/parsing.c:25-88). */
module NumberText {
  import opened Facts
  import opened RingBuffer

  const U32 := 0x1_0000_0000
  const I32 := 0x8000_0000
  const STACK := 128

  /** The digits of a number, most significant first, without leading zeros. */
  ghost function Digits(n: nat, base: nat): (r: seq<int>)
    requires base >= 2
    ensures |r| >= 1
    decreases n
  {
    if n < base then [n] else Smaller(n, base); Digits(n / base, base) + [n % base]
  }

  ghost function ValueOf(ds: seq<int>, base: nat): int {
    if ds == [] then 0 else ValueOf(ds[..|ds| - 1], base) * base + ds[|ds| - 1]
  }

  ghost function Pow(base: nat, k: nat): nat {
    if k == 0 then 1 else base * Pow(base, k - 1)
  }

  /** The character of a digit: 0 to 9, then a and on. */
  function CharOf(d: int): int {
    (d + if d < 10 then 48 else 87) % 256
  }

  ghost function Chars(ds: seq<int>): (cs: seq<int>)
    ensures |cs| == |ds| && forall i :: 0 <= i < |ds| ==> cs[i] == CharOf(ds[i])
  {
    seq(|ds|, i requires 0 <= i < |ds| => CharOf(ds[i]))
  }

  /** The value of a digit character, read as a char; -1 for any other. */
  function DigitOf(c: int, hex: bool): int {
    var ch := c % 256;
    if 48 <= ch <= 57 then ch - 48
    else if hex && 97 <= ch <= 102 then ch - 87
    else if hex && 65 <= ch <= 70 then ch - 55
    else -1
  }

  /** A decimal digit, or in base 16 also a letter from a to f or from A to F. */
  predicate DigitChar(c: int, hex: bool) {
    var ch := c % 256;
    48 <= ch <= 57 || (hex && (97 <= ch <= 102 || 65 <= ch <= 70))
  }

  lemma DigitCharIs(c: int, hex: bool)
    ensures DigitChar(c, hex) <==> DigitOf(c, hex) != -1
  {
  }

  // ----- arithmetic -----

  lemma Smaller(n: nat, base: nat)
    requires n >= base >= 2
    ensures 1 <= n / base < n
  {
    assert n == (n / base) * base + n % base;
    Doubled(n / base, base);
  }

  lemma Doubled(q: nat, base: nat)
    requires base >= 2
    ensures q * base >= 2 * q
  {
  }

  lemma DivUnique(n: nat, m: nat, q: nat, r: nat)
    requires m > 0 && n == q * m + r && r < m
    ensures n / m == q && n % m == r
  {
    var d := n / m - q;
    assert n == (n / m) * m + n % m;
    assert d * m == r - n % m;
    Negated(d, m);
    if d > 0 { Times(d, 1, m); } else if d < 0 { Times(-d, 1, m); }
  }

  lemma Negated(d: int, m: nat)
    ensures (-d) * m == -(d * m)
  {
  }

  lemma {:induction false} PowPositive(base: nat, k: nat)
    requires base > 0
    ensures Pow(base, k) > 0
  {
    if k > 0 { PowPositive(base, k - 1); }
  }

  lemma DigitsDown(n: nat, base: nat)
    requires base >= 2
    ensures n < base ==> |Digits(n, base)| == 1
    ensures n >= base ==> |Digits(n, base)| == 1 + |Digits(n / base, base)|
  {
  }

  lemma Times(a: nat, b: nat, m: nat)
    requires a >= b
    ensures a * m >= b * m
  {
  }

  lemma DivDiv(n: nat, d: nat, base: nat)
    requires d > 0 && base > 0
    ensures d * base > 0 && n / (d * base) == (n / d) / base
  {
    var q, r := n / d, n % d;
    Times(d, 1, base);
    Compose(n, d, base, q, r, q / base, q % base);
    DivUnique(n, d * base, q / base, q % base * d + r);
  }

  lemma Compose(n: nat, d: nat, base: nat, q: nat, r: nat, q2: nat, r2: nat)
    requires n == q * d + r && q == q2 * base + r2 && r < d && r2 < base
    ensures n == q2 * (d * base) + (r2 * d + r) && r2 * d + r < d * base
  {
    Spread(q2, base, r2, d);
    Times(base, r2 + 1, d);
    Spread(r2, 1, 1, d);
    assert base * d == d * base && (r2 * 1 + 1) * d == (r2 + 1) * d;
  }

  lemma Spread(a: nat, b: nat, c: nat, d: nat)
    ensures (a * b + c) * d == a * (d * b) + c * d
  {
  }

  lemma DigitsSnoc(hi: nat, dgt: nat, base: nat)
    requires base >= 2 && dgt < base
    ensures Digits(hi * base + dgt, base) == (if hi == 0 then [] else Digits(hi, base)) + [dgt]
  {
    if hi > 0 { Times(hi, 1, base); }
    DivUnique(hi * base + dgt, base, hi, dgt);
  }

  // ----- printing -----

  /** The largest power of the base the number reaches. */
  method LeadingPlace(num: nat, base: nat) returns (d: nat, ghost k: nat)
    requires num < U32 && base >= 2
    ensures d == Pow(base, k) && 0 < d < U32 && num / d < base && (d <= num || d == 1)
    ensures |Digits(num, base)| == k + 1
  {
    hide Digits, Pow;
    d, k := 1, 0;
    PowZero(base);
    while num / d >= base
      invariant d == Pow(base, k) && 0 < d && (d <= num || d == 1)
      invariant |Digits(num, base)| == k + |Digits(num / d, base)|
      decreases num / d
    {
      NextPlace(num, d, base, k);
      d := d * base;
      k := k + 1;
    }
    DigitsDown(num / d, base);
  }

  lemma PowZero(base: nat)
    ensures Pow(base, 0) == 1
  {
  }

  lemma NextPlace(num: nat, d: nat, base: nat, k: nat)
    requires base >= 2 && d == Pow(base, k) && 0 < d && num / d >= base
    ensures 0 < d * base <= num && d * base == Pow(base, k + 1)
    ensures 0 <= num / (d * base) < num / d && |Digits(num / d, base)| == 1 + |Digits(num / (d * base), base)|
  {
    DivDiv(num, d, base);
    Smaller(num / d, base);
    DigitsDown(num / d, base);
    FitsWord(num, d, base);
  }

  /** The product stays within the number, so within 32 bits. */
  lemma FitsWord(num: nat, d: nat, base: nat)
    requires d > 0 && num / d >= base
    ensures d * base <= num
  {
    Times(num / d, base, d);
    assert num == (num / d) * d + num % d;
  }

  /** ui2a: the digits of the number as characters, then the terminator, and nothing else. */
  method Ui2a(n0: nat, base: nat, bf: array<int>)
    requires n0 < U32 && base >= 2 && |Digits(n0, base)| < bf.Length
    modifies bf
    ensures var ds := Digits(n0, base);
      bf[..|ds|] == Chars(ds) && bf[|ds|] == 0 && bf[|ds| + 1..] == old(bf[|ds| + 1..])
  {
    hide Digits, Pow, Above, AtPlace, Lifted, Rest;
    var num, n := n0, 0;
    var d, places := LeadingPlace(num, base);
    ghost var hi: nat, k: nat, w: seq<int> := 0, places, [];
    AtStart(n0, d, base, k);
    while d != 0
      invariant 0 <= d && 0 <= num && n == |w| && n + (if d == 0 then 0 else k + 1) == |Digits(n0, base)|
      invariant forall i :: 0 <= i < n ==> bf[i] == CharOf(w[i])
      invariant forall i :: n <= i < bf.Length ==> bf[i] == old(bf[i])
      invariant d == 0 ==> w == Digits(n0, base)
      invariant d > 0 ==>
        AtPlace(n0, hi, d, base, num, k) && w == Above(hi, base) && (hi == 0 ==> Quot(num, d) > 0 || d == 1)
      decreases d
    {
      PlaceStep(n0, hi, d, base, num, k);
      var dgt := num / d;
      num, d := Remainder(num, d), d / base;
      assert n != 0 || dgt > 0 || d == 0;
      if n != 0 || dgt > 0 || d == 0 {
        bf[n] := CharOf(dgt);
        w := w + [dgt];
        n := n + 1;
      }
      hi := Lifted(hi, base, dgt);
      k := if d == 0 then 0 else k - 1;
    }
    bf[n] := 0;
    assert bf[..n] == Chars(w);
  }

  function Remainder(num: nat, d: nat): (r: nat)
    requires d > 0
    ensures r == Rest(num, d)
  {
    num % d
  }

  ghost function Quot(n: nat, d: nat): nat {
    if d == 0 then 0 else n / d
  }

  ghost function Rest(n: nat, d: nat): nat {
    if d == 0 then 0 else n % d
  }

  /** With hi printed and num left, at the place d = base^k. */
  ghost predicate AtPlace(n0: nat, hi: nat, d: nat, base: nat, num: nat, k: nat) {
    d == Pow(base, k) && n0 == hi * (d * base) + num && num < d * base
  }

  /** What is printed so far. */
  ghost function Above(hi: nat, base: nat): seq<int>
    requires base >= 2
  {
    if hi == 0 then [] else Digits(hi, base)
  }

  ghost function Lifted(hi: nat, base: nat, dgt: nat): nat {
    hi * base + dgt
  }

  lemma LeadingFits(num: nat, d: nat, base: nat)
    requires d > 0 && num / d < base
    ensures num < d * base
  {
    assert num == (num / d) * d + num % d;
    Times(base, num / d + 1, d);
    assert (num / d + 1) * d == (num / d) * d + d;
  }

  /** One digit more: the place value moves down by the base. */
  lemma PlaceStep(n0: nat, hi: nat, d: nat, base: nat, num: nat, k: nat)
    requires base >= 2 && d > 0 && AtPlace(n0, hi, d, base, num, k) && (hi == 0 ==> Quot(num, d) > 0 || d == 1)
    ensures hi == 0 <==> Above(hi, base) == []
    ensures k == 0 ==> Quot(d, base) == 0 && Digits(n0, base) == Above(hi, base) + [Quot(num, d)]
    ensures k > 0 ==> 0 < Quot(d, base) < d && Lifted(hi, base, Quot(num, d)) > 0 && (hi == 0 ==> Quot(num, d) > 0) &&
                      Above(Lifted(hi, base, Quot(num, d)), base) == Above(hi, base) + [Quot(num, d)] &&
                      AtPlace(n0, Lifted(hi, base, Quot(num, d)), Quot(d, base), base, Rest(num, d), k - 1)
  {
    hide Digits, Pow, AtPlace, Lifted, Quot, Rest;
    PlaceMoves(n0, hi, d, base, num, k);
    LiftedDigits(hi, base, Quot(num, d));
  }

  lemma LiftedDigits(hi: nat, base: nat, dgt: nat)
    requires base >= 2 && dgt < base
    ensures Digits(Lifted(hi, base, dgt), base) == Above(hi, base) + [dgt]
    ensures hi > 0 || dgt > 0 ==> Lifted(hi, base, dgt) > 0
  {
    DigitsSnoc(hi, dgt, base);
    Lifts(hi, base, dgt);
  }

  lemma PlaceMoves(n0: nat, hi: nat, d: nat, base: nat, num: nat, k: nat)
    requires base >= 2 && d > 0 && AtPlace(n0, hi, d, base, num, k)
    ensures Quot(num, d) < base
    ensures k == 0 ==> d == 1 && Quot(d, base) == 0 && n0 == Lifted(hi, base, Quot(num, d))
    ensures k > 0 ==>
      0 < Quot(d, base) < d && d > 1 &&
        AtPlace(n0, Lifted(hi, base, Quot(num, d)), Quot(d, base), base, Rest(num, d), k - 1)
  {
    hide Pow, Quot, Rest;
    PlaceArith(n0, hi, d, base, num);
    PowStep(base, k);
    if k > 0 { DownPlace(d, base, Pow(base, k - 1)); } else { OverOne(num, base); }
  }

  lemma PlaceArith(n0: nat, hi: nat, d: nat, base: nat, num: nat)
    requires d > 0 && n0 == hi * (d * base) + num && num < d * base
    ensures Quot(num, d) < base && Rest(num, d) < d && n0 == (hi * base + Quot(num, d)) * d + Rest(num, d)
  {
    Spread(hi, base, num / d, d);
    assert num == (num / d) * d + num % d;
    DigitBelow(num, d, base);
  }

  lemma OverOne(num: nat, base: nat)
    requires base >= 2
    ensures Quot(1, base) == 0 && Quot(num, 1) == num && Rest(num, 1) == 0
  {
  }

  lemma DownPlace(d: nat, base: nat, p: nat)
    requires d == p * base && base >= 2 && p > 0
    ensures Quot(d, base) == p && p < d
  {
    DivUnique(d, base, p, 0);
    Doubled(p, base);
  }

  lemma PowStep(base: nat, k: nat)
    requires base > 0
    ensures k == 0 ==> Pow(base, k) == 1
    ensures k > 0 ==> Pow(base, k) == Pow(base, k - 1) * base && Pow(base, k - 1) > 0
  {
    if k > 0 { PowPositive(base, k - 1); }
  }

  lemma Lifts(hi: nat, base: nat, dgt: nat)
    requires base > 0
    ensures hi > 0 || dgt > 0 ==> hi * base + dgt > 0
  {
    if hi > 0 { Times(hi, 1, base); }
  }

  lemma AtStart(n0: nat, d: nat, base: nat, k: nat)
    requires base >= 2 && d > 0 && d == Pow(base, k) && n0 / d < base && (d <= n0 || d == 1)
    ensures AtPlace(n0, 0, d, base, n0, k) && Above(0, base) == [] && (Quot(n0, d) > 0 || d == 1)
  {
    LeadingFits(n0, d, base);
    if d <= n0 { AtLeastOne(n0, d); }
  }

  lemma AtLeastOne(n: nat, d: nat)
    requires 0 < d <= n
    ensures n / d >= 1
  {
  }

  lemma DigitBelow(num: nat, d: nat, base: nat)
    requires d > 0 && num < d * base
    ensures num / d < base
  {
    assert num == (num / d) * d + num % d;
    if num / d >= base { Times(num / d, base, d); }
  }

  // ----- parsing -----

  /** How many characters in front are digits. */
  function Leading(s: seq<int>, hex: bool): (k: nat)
    ensures k <= |s|
  {
    if s == [] || DigitOf(s[0], hex) == -1 then 0 else 1 + Leading(s[1..], hex)
  }

  ghost function DigitsIn(s: seq<int>, hex: bool): (ds: seq<int>)
    ensures |ds| == |s| && forall i :: 0 <= i < |s| ==> ds[i] == DigitOf(s[i], hex)
  {
    seq(|s|, i requires 0 <= i < |s| => DigitOf(s[i], hex))
  }

  /** Conversion to int. */
  function ToInt(v: int): int {
    if v % U32 < I32 then v % U32 else v % U32 - U32
  }

  function Base(hex: bool): nat {
    if hex then 16 else 10
  }

  /** The number in front, of which 128 digits count, and what is left. */
  ghost function Parsed(s: seq<int>, hex: bool): (int, seq<int>) {
    var k := Leading(s, hex);
    (ToInt(ValueOf(DigitsIn(s[..if k < STACK then k else STACK], hex), Base(hex))), s[k..])
  }

  /** With the prefix 0x or 0X base 16, otherwise base 10; a leading 0 is skipped. */
  ghost function ParsedNumber(s: seq<int>): (int, seq<int>) {
    if s == [] || s[0] != 48 then Parsed(s, false)
    else if |s| > 1 && (s[1] == 120 || s[1] == 88) then Parsed(s[2..], true)
    else Parsed(s[1..], false)
  }

  lemma {:induction false} LeadingSplits(s: seq<int>, hex: bool, k: nat)
    requires k <= |s| && (forall i :: 0 <= i < k ==> DigitOf(s[i], hex) != -1) && (k == |s| || DigitOf(s[k], hex) == -1)
    ensures Leading(s, hex) == k
  {
    if k > 0 { LeadingSplits(s[1..], hex, k - 1); }
  }

  lemma DigitsMore(s: seq<int>, k: nat, hex: bool)
    requires k < |s|
    ensures DigitsIn(s[..k + 1], hex) == DigitsIn(s[..k], hex) + [DigitOf(s[k], hex)]
  {
  }

  /** The digits of the stack, with the place value and the sum in 32 bits. */
  method Evaluate(stack: Deque, hex: bool) returns (res: int)
    requires stack.Valid()
    modifies stack
    ensures res == ToInt(ValueOf(old(stack.Contents()), Base(hex)))
  {
    hide Deque.Contents, Pow, ValueOf, ToInt;
    ghost var all, j: nat, low, base := stack.Contents(), 0, 0, Base(hex);
    NothingYet(base, all);
    var dig := 1;
    res := 0;
    while !stack.Empty()
      invariant stack.Valid() && dig == Pow(base, j) % U32 && res == ToInt(low)
      invariant ValueOf(all, base) == ValueOf(stack.Contents(), base) * Pow(base, j) + low
      decreases stack.size
    {
      ghost var before := stack.Contents();
      var x := stack.PopBack();
      assert before[..|before| - 1] == stack.Contents() && before[|before| - 1] == x;
      OneDigitLess(before, base, x, j, low, dig);
      res := ToInt(res + dig * x);
      low := low + Pow(base, j) * x;
      dig := (dig * Base(hex)) % U32;
      j := j + 1;
    }
  }

  lemma NothingYet(base: nat, all: seq<int>)
    ensures Pow(base, 0) == 1 && ToInt(0) == 0 && ValueOf([], base) == 0
    ensures ValueOf(all, base) == ValueOf(all, base) * Pow(base, 0) + 0
  {
  }

  /** One round: the last digit x of ds is worth its place, base to the power j. */
  lemma OneDigitLess(ds: seq<int>, base: nat, x: int, j: nat, low: int, dig: nat)
    requires ds != [] && x == ds[|ds| - 1] && dig == Pow(base, j) % U32
    ensures ValueOf(ds, base) * Pow(base, j) + low ==
      ValueOf(ds[..|ds| - 1], base) * Pow(base, j + 1) + (low + Pow(base, j) * x)
    ensures ToInt(ToInt(low) + dig * x) == ToInt(low + Pow(base, j) * x)
    ensures (dig * base) % U32 == Pow(base, j + 1) % U32
  {
    hide ToInt;
    ValueStep(ValueOf(ds[..|ds| - 1], base), base, x, Pow(base, j));
    SumWraps(low, Pow(base, j), x);
    ScaleWraps(Pow(base, j), base);
  }

  lemma ValueStep(v: int, base: nat, x: int, p: nat)
    ensures (v * base + x) * p == v * (base * p) + p * x
  {
    assert (v * base) * p == v * (base * p);
  }

  lemma SumWraps(low: int, p: nat, x: int)
    ensures ToInt(ToInt(low) + (p % U32) * x) == ToInt(low + p * x)
  {
    var q, r := low / U32, p / U32;
    assert low == q * U32 + low % U32 && p == r * U32 + p % U32;
    var carry := if low % U32 < I32 then 0 else -1;
    assert ToInt(low) == low + (carry - q) * U32;
    Lower(p, p % U32, r, x);
    assert ToInt(low) + (p % U32) * x == (low + p * x) + (carry - q - r * x) * U32 by { Gather(carry - q, r * x); }
    ModDrop(low + p * x, carry - q - r * x, U32);
  }

  lemma Lower(p: int, m: int, r: int, x: int)
    requires p == r * U32 + m
    ensures m * x == p * x - (r * x) * U32
  {
    assert p * x == (r * U32) * x + m * x;
  }

  lemma Gather(a: int, b: int)
    ensures a * U32 - b * U32 == (a - b) * U32
  {
  }

  lemma ScaleWraps(p: nat, base: nat)
    ensures ((p % U32) * base) % U32 == (base * p) % U32
  {
    var r := p / U32;
    assert p == r * U32 + p % U32;
    Lower(p, p % U32, r, base);
    ModDrop(p * base, -(r * base), U32);
    assert base * p == p * base;
  }

  lemma NoDigits(s: seq<int>, hex: bool)
    ensures DigitsIn(s[..0], hex) == []
  {
  }

  method NewStack() returns (stack: Deque)
    ensures fresh(stack) && fresh(stack.buf) && stack.Valid() && stack.Contents() == [] && stack.maxSize == STACK
  {
    stack := new Deque();
    assert Pow2(7) == STACK by { assert Pow2(4) == 16; }
    var status := stack.Init(7);
  }

  /** The character read is taken off the input, its digit put on the stack as far as there is room. */
  method Take(input: Deque, stack: Deque, d: int, ghost s: seq<int>, ghost k: nat, hex: bool)
    requires input.Valid() && stack.Valid() && input != stack && input.buf != stack.buf && stack.maxSize == STACK
    requires k < |s| && input.Contents() == s[k..] && d == DigitOf(s[k], hex)
    requires stack.Contents() == DigitsIn(s[..if k < STACK then k else STACK], hex)
    modifies input, stack, stack.buf
    ensures input.Valid() && stack.Valid() && stack.maxSize == STACK && input.Contents() == s[k + 1..]
    ensures stack.Contents() == DigitsIn(s[..if k + 1 < STACK then k + 1 else STACK], hex)
  {
    hide Deque.Contents, Deque.Valid, DigitOf, DigitsIn;
    DigitsMore(s, k, hex);
    stack.PushBack(d);
    var popped := input.PopFront();
    FirstOff(s, k, popped, input.Contents());
  }

  lemma FirstOff(s: seq<int>, k: nat, x: int, rest: seq<int>)
    requires k < |s| && s[k..] == [x] + rest
    ensures x == s[k] && rest == s[k + 1..]
  {
    assert s[k..][1..] == rest && s[k..][1..] == s[k + 1..];
  }

  /** parse_int. */
  method ParseInt(input: Deque) returns (res: int)
    requires input.Valid()
    modifies input
    ensures input.Valid() && (res, input.Contents()) == Parsed(old(input.Contents()), false)
  {
    hide Deque.Contents, Deque.Valid, Leading, ValueOf, DigitsIn;
    var stack := NewStack();
    ghost var s, k: nat := input.Contents(), 0;
    assert s[0..] == s;
    NoDigits(s, false);
    while input.size != 0
      invariant input.Valid() && stack.Valid() && fresh(stack) && fresh(stack.buf) && stack.maxSize == STACK
      invariant k <= |s| && input.Contents() == s[k..] && forall i :: 0 <= i < k ==> DigitOf(s[i], false) != -1
      invariant stack.Contents() == DigitsIn(s[..if k < STACK then k else STACK], false)
      decreases |s| - k
    {
      var c := input.Front();
      c := c % 256;
      if 48 <= c <= 57 {
        Take(input, stack, c - 48, s, k, false);
      } else {
        break;
      }
      k := k + 1;
    }
    LeadingSplits(s, false, k);
    res := Evaluate(stack, false);
  }

  /** parse_hex_int. */
  method ParseHexInt(input: Deque) returns (res: int)
    requires input.Valid()
    modifies input
    ensures input.Valid() && (res, input.Contents()) == Parsed(old(input.Contents()), true)
  {
    hide Deque.Contents, Deque.Valid, Leading, ValueOf, DigitsIn;
    var stack := NewStack();
    ghost var s, k: nat := input.Contents(), 0;
    assert s[0..] == s;
    NoDigits(s, true);
    while input.size != 0
      invariant input.Valid() && stack.Valid() && fresh(stack) && fresh(stack.buf) && stack.maxSize == STACK
      invariant k <= |s| && input.Contents() == s[k..] && forall i :: 0 <= i < k ==> DigitOf(s[i], true) != -1
      invariant stack.Contents() == DigitsIn(s[..if k < STACK then k else STACK], true)
      decreases |s| - k
    {
      var c := input.Front();
      c := c % 256;
      if 48 <= c <= 57 {
        Take(input, stack, c - 48, s, k, true);
      } else if 97 <= c <= 102 {
        Take(input, stack, c - 97 + 10, s, k, true);
      } else if 65 <= c <= 70 {
        Take(input, stack, c - 65 + 10, s, k, true);
      } else {
        break;
      }
      k := k + 1;
    }
    LeadingSplits(s, true, k);
    res := Evaluate(stack, true);
  }

  /** parse_num.  Of an empty buffer the program looks at a cell left from before; the result does not depend on it. */
  method ParseNum(input: Deque) returns (res: int)
    requires input.Valid()
    modifies input
    ensures input.Valid() && (res, input.Contents()) == ParsedNumber(old(input.Contents()))
  {
    hide Deque.Contents, Deque.Valid, Parsed, ParsedNumber;
    ghost var s := input.Contents();
    NothingParsed(false);
    NothingParsed(true);
    NumberCases(s);
    var c := input.Front();
    if c == 48 {
      var popped := input.PopFront();
      ghost var s1 := input.Contents();
      assert s != [] ==> s1 == s[1..];
      c := input.Front();
      if c == 120 || c == 88 {
        popped := input.PopFront();
        assert s1 != [] ==> input.Contents() == s1[1..];
        res := ParseHexInt(input);
      } else {
        res := ParseInt(input);
      }
    } else {
      res := ParseInt(input);
    }
  }

  lemma NumberCases(s: seq<int>)
    ensures s == [] || s[0] != 48 ==> ParsedNumber(s) == Parsed(s, false)
    ensures |s| > 1 && s[0] == 48 && (s[1] == 120 || s[1] == 88) ==>
      ParsedNumber(s) == Parsed(s[2..], true) && s[1..][0] == s[1] && s[1..][1..] == s[2..]
    ensures |s| > 1 && s[0] == 48 && !(s[1] == 120 || s[1] == 88) ==>
      ParsedNumber(s) == Parsed(s[1..], false) && s[1..][0] == s[1]
    ensures |s| == 1 && s[0] == 48 ==> ParsedNumber(s) == Parsed([], false) && s[1..] == []
  {
    assert |s| == 1 ==> s[1..] == [];
  }

  lemma NothingParsed(hex: bool)
    ensures Parsed([], hex) == (0, [])
  {
    assert DigitsIn([], hex) == [];
  }

  // ----- round trips -----

  lemma {:induction false} ValueOfDigits(n: nat, base: nat)
    requires base >= 2
    ensures ValueOf(Digits(n, base), base) == n
    decreases n
  {
    if n < base {
      assert [n][..0] == [];
    } else {
      Smaller(n, base);
      ValueOfDigits(n / base, base);
      assert (Digits(n / base, base) + [n % base])[..|Digits(n / base, base)|] == Digits(n / base, base);
      assert n == (n / base) * base + n % base;
    }
  }

  lemma {:induction false} DigitsRange(n: nat, base: nat, i: nat)
    requires base >= 2 && i < |Digits(n, base)|
    ensures 0 <= Digits(n, base)[i] < base
    ensures n > 0 && i == 0 ==> Digits(n, base)[i] > 0
    decreases n
  {
    if n >= base {
      Smaller(n, base);
      if i < |Digits(n / base, base)| { DigitsRange(n / base, base, i); }
    }
  }

  /** A number below 2^b has at most b digits. */
  lemma {:induction false} DigitsShort(n: nat, base: nat, b: nat)
    requires base >= 2 && b >= 1 && n < Pow2(b)
    ensures |Digits(n, base)| <= b
    decreases n
  {
    if n >= base {
      Smaller(n, base);
      assert n == (n / base) * base + n % base;
      Doubled(n / base, base);
      Pow2One();
      DigitsShort(n / base, base, b - 1);
    }
  }

  lemma Pow2One()
    ensures Pow2(1) == 2
  {
  }

  /** What is printed, followed by anything that does not continue it, parses to the number and that rest. */
  lemma PrintedParses(n: nat, hex: bool, rest: seq<int>)
    requires n < I32 && (rest == [] || DigitOf(rest[0], hex) == -1)
    ensures Parsed(Chars(Digits(n, Base(hex))) + rest, hex) == (n as int, rest)
  {
    hide Digits, Pow2, ValueOf, Leading;
    Below2To31(n);
    PrintedSplits(n, hex, rest, 31);
    ValueOfDigits(n, Base(hex));
  }

  /** The digits of a number below 2^e are what is read of it. */
  lemma PrintedSplits(n: nat, hex: bool, rest: seq<int>, e: nat)
    requires n < Pow2(e) && 0 < e < 128 && (rest == [] || DigitOf(rest[0], hex) == -1)
    ensures var ds, s := Digits(n, Base(hex)), Chars(Digits(n, Base(hex))) + rest;
      |ds| <= 128 && Leading(s, hex) == |ds| && DigitsIn(s[..|ds|], hex) == ds && s[|ds|..] == rest
  {
    hide Digits, Pow2, ValueOf, Leading;
    var base := Base(hex);
    var ds := Digits(n, base);
    var s := Chars(ds) + rest;
    DigitsShort(n, base, e);
    forall i | 0 <= i < |ds| ensures DigitOf(s[i], hex) == ds[i] && DigitOf(s[i], hex) != -1 {
      DigitsRange(n, base, i);
      assert s[i] == CharOf(ds[i]);
    }
    LeadingSplits(s, hex, |ds|);
    assert s[..|ds|] == Chars(ds) && s[|ds|..] == rest && DigitsIn(s[..|ds|], hex) == ds;
  }

  lemma Below2To31(n: nat)
    requires n < I32
    ensures n < Pow2(31)
  {
    assert Pow2(8) == 256 by { assert Pow2(4) == 16; }
    assert Pow2(12) == 4096 && Pow2(16) == 65536;
    assert Pow2(20) == 0x10_0000 && Pow2(24) == 0x100_0000;
    assert Pow2(28) == 0x1000_0000;
  }

  lemma {:induction false} LeadingAtLeast(s: seq<int>, hex: bool, k: nat)
    requires k <= |s| && forall i :: 0 <= i < k ==> DigitOf(s[i], hex) != -1
    ensures Leading(s, hex) >= k
  {
    if k > 0 { LeadingAtLeast(s[1..], hex, k - 1); }
  }

  /** What is printed, followed by another digit, does not end where the printed characters end. */
  lemma PrintedRunsOn(n: nat, hex: bool, rest: seq<int>)
    requires rest != [] && DigitOf(rest[0], hex) != -1
    ensures |Parsed(Chars(Digits(n, Base(hex))) + rest, hex).1| < |rest|
  {
    hide Digits, Leading;
    var ds := Digits(n, Base(hex));
    var s := Chars(ds) + rest;
    forall i | 0 <= i < |ds| + 1 ensures DigitOf(s[i], hex) != -1 {
      if i < |ds| {
        DigitsRange(n, Base(hex), i);
        assert s[i] == CharOf(ds[i]);
      }
    }
    LeadingAtLeast(s, hex, |ds| + 1);
  }

  /** Base 16 through parse_hex_int: what is printed comes back, and no more is consumed, exactly when it is not
      followed by another digit. */
  lemma HexRoundTrip(n: nat, rest: seq<int>)
    requires n < I32
    ensures Parsed(Chars(Digits(n, 16)) + rest, true) == (n as int, rest) <==>
      rest == [] || !DigitChar(rest[0], true)
  {
    hide Digits, Parsed;
    if rest != [] { DigitCharIs(rest[0], true); }
    if rest == [] || DigitOf(rest[0], true) == -1 {
      PrintedParses(n, true, rest);
    } else {
      PrintedRunsOn(n, true, rest);
    }
  }

  /** Whether a text is not taken for part of the printed number n before it: no digit, nor an x behind a lone 0. */
  predicate Apart(n: nat, rest: seq<int>) {
    rest == [] || (!DigitChar(rest[0], false) && (n == 0 ==> rest[0] != 120 && rest[0] != 88))
  }

  /** Base 10 through parse_num, which takes a leading 0 off: likewise, exactly when what follows stays apart. */
  lemma DecimalRoundTrip(n: nat, rest: seq<int>)
    requires n < I32
    ensures ParsedNumber(Chars(Digits(n, 10)) + rest) == (n as int, rest) <==> Apart(n, rest)
  {
    hide Digits, Parsed, DigitOf, DigitChar;
    if rest != [] { DigitCharIs(rest[0], false); }
    DigitsRange(n, 10, 0);
    if n == 0 {
      ZeroRoundTrip(rest);
    } else if rest == [] || DigitOf(rest[0], false) == -1 {
      PrintedParses(n, false, rest);
    } else {
      PrintedRunsOn(n, false, rest);
    }
  }

  lemma ZeroRoundTrip(rest: seq<int>)
    ensures ParsedNumber(Chars(Digits(0, 10)) + rest) == (0, rest) <==> Apart(0, rest)
  {
    if rest != [] { DigitCharIs(rest[0], false); }
    hide Digits, ValueOf, DigitOf;
    ZeroDigits();
    var s := Chars([0]) + rest;
    assert s[0] == 48 && s[1..] == rest;
    if rest != [] && (rest[0] == 120 || rest[0] == 88) {
      assert s[2..] == rest[1..];
      assert |Parsed(s[2..], true).1| < |rest|;
    } else if Apart(0, rest) {
      EmptyParses(rest);
    } else {
      LeadingAtLeast(rest, false, 1);
      assert |Parsed(rest, false).1| < |rest|;
    }
  }

  lemma ZeroDigits()
    ensures Digits(0, 10) == [0]
  {
  }

  lemma EmptyParses(rest: seq<int>)
    requires rest == [] || DigitOf(rest[0], false) == -1
    ensures Parsed(rest, false) == (0, rest)
  {
    assert DigitsIn(rest[..0], false) == [];
  }

  /** Without those conditions the text runs on: 0 before an x is taken for a prefix. */
  lemma ZeroBeforeX()
    ensures ParsedNumber(Chars(Digits(0, 10)) + [120, 53]) == (5, [])
  {
    ZeroDigits();
    assert Chars([0]) + [120, 53] == [48, 120, 53] && [48, 120, 53][2..] == [53];
    LeadingSplits([53], true, 1);
    assert DigitsIn([53][..1], true) == [5] && [5][..0] == [] && [53][1..] == [];
    assert ValueOf([5], 16) == 5;
  }

  /** A letter from a to f in its other case. */
  function UpperCase(c: int): int {
    if 97 <= c % 256 <= 102 then c - 32 else c
  }

  ghost function AllUpper(s: seq<int>): (r: seq<int>)
    ensures |r| == |s| && forall i :: 0 <= i < |s| ==> r[i] == UpperCase(s[i])
  {
    seq(|s|, i requires 0 <= i < |s| => UpperCase(s[i]))
  }

  lemma SameDigit(c: int)
    ensures DigitOf(UpperCase(c), true) == DigitOf(c, true)
  {
  }

  lemma {:induction false} SameLeading(s: seq<int>)
    ensures Leading(AllUpper(s), true) == Leading(s, true)
  {
    if s != [] {
      hide DigitOf, UpperCase;
      SameDigit(s[0]);
      SameLeading(s[1..]);
      assert AllUpper(s)[1..] == AllUpper(s[1..]);
    }
  }

  /** In base 16, capital letters count as small ones do. */
  lemma CaseDoesNotMatter(s: seq<int>)
    ensures Parsed(AllUpper(s), true).0 == Parsed(s, true).0
    ensures |Parsed(AllUpper(s), true).1| == |Parsed(s, true).1|
  {
    hide DigitOf, UpperCase, Leading;
    SameLeading(s);
    var k := Leading(s, true);
    var n := if k < STACK then k else STACK;
    forall i | 0 <= i < n ensures DigitsIn(AllUpper(s)[..n], true)[i] == DigitsIn(s[..n], true)[i] { SameDigit(s[i]); }
    assert DigitsIn(AllUpper(s)[..n], true) == DigitsIn(s[..n], true);
  }

  /** Of a longer row of digits all are consumed, and the first 128 count. */
  lemma OnlyTheFirst128Count(s: seq<int>, more: seq<int>, hex: bool)
    requires |s| == 128 && forall i :: 0 <= i < 128 ==> DigitChar(s[i], hex)
    requires forall i :: 0 <= i < |more| ==> DigitChar(more[i], hex)
    ensures Parsed(s + more, hex) == (Parsed(s, hex).0, [])
  {
    hide DigitOf, DigitChar, Leading;
    var all := s + more;
    forall i | 0 <= i < |all| ensures DigitOf(all[i], hex) != -1 {
      if i < 128 { DigitCharIs(s[i], hex); } else { DigitCharIs(more[i - 128], hex); }
    }
    LeadingSplits(all, hex, |all|);
    forall i | 0 <= i < 128 ensures DigitOf(s[i], hex) != -1 { assert s[i] == all[i]; }
    LeadingSplits(s, hex, 128);
    assert all[..128] == s && s[..128] == s && all[|all|..] == [] && |all| >= 128;
    assert (if |all| < STACK then |all| else STACK) == 128;
  }

  /** From 2^31 to 2^32, what is printed comes back less 2^32. */
  lemma LargeNumbersWrap(n: nat, hex: bool, rest: seq<int>)
    requires 0x8000_0000 <= n < 0x1_0000_0000 && (rest == [] || !DigitChar(rest[0], hex))
    ensures Parsed(Chars(Digits(n, Base(hex))) + rest, hex) == (n - 0x1_0000_0000, rest)
  {
    hide Digits, Pow2, ValueOf, Leading, DigitChar;
    if rest != [] { DigitCharIs(rest[0], hex); }
    Below2To32(n);
    PrintedSplits(n, hex, rest, 32);
    ValueOfDigits(n, Base(hex));
  }

  lemma Below2To32(n: nat)
    requires n < U32
    ensures n < Pow2(32)
  {
    Below2To31(0x7FFF_FFFF);
    assert Pow2(28) == 0x1000_0000 by {
      assert Pow2(8) == 256 by { assert Pow2(4) == 16; }
      assert Pow2(12) == 4096 && Pow2(16) == 65536;
      assert Pow2(20) == 0x10_0000 && Pow2(24) == 0x100_0000;
    }
    assert Pow2(32) == 0x1_0000_0000;
  }
}
