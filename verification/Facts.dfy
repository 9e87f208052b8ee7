/** Two facts about sequences and remainders that several modules need. */
module Facts {

  lemma Associative<T>(a: seq<T>, b: seq<T>, c: seq<T>)
    ensures (a + b) + c == a + (b + c)
  {
  }

  /** Whole multiples of the modulus do not matter. */
  lemma {:induction false} ModDrop(x: int, q: int, m: nat)
    requires m > 0
    ensures (x + q * m) % m == x % m
    decreases if q < 0 then -q else q
  {
    if q > 0 {
      ModDrop(x, q - 1, m);
      assert x + q * m == (x + (q - 1) * m) + m;
      OneMore(x + (q - 1) * m, m);
    } else if q < 0 {
      ModDrop(x, q + 1, m);
      assert x + q * m == (x + (q + 1) * m) - m;
      OneMore(x + q * m, m);
    }
  }

  lemma OneMore(y: int, m: nat)
    requires m > 0
    ensures (y + m) % m == y % m
  {
    var d := (y + m) / m - y / m;
    assert y + m == m * ((y + m) / m) + (y + m) % m && y == m * (y / m) + y % m;
    assert m * d == m * ((y + m) / m) - m * (y / m);
    assert m * d == m + y % m - (y + m) % m;
    assert d >= 2 ==> m * d >= 2 * m;
    assert d <= 0 ==> m * d <= 0;
  }
}
