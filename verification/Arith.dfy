/** Division facts shared by the counters, the length encodings and the ring buffer. */
module Arith {

  lemma {:induction false} MulGap(a: nat, b: nat, m: nat)
    requires a > b
    ensures a * m >= b * m + m
  {
    if a == b + 1 {
      assert a * m == b * m + m;
    } else {
      MulGap(a - 1, b, m);
      assert a * m == (a - 1) * m + m;
    }
  }

  lemma DivModIs(x: nat, m: nat, q: nat, r: nat)
    requires 0 < m && x == q * m + r && r < m
    ensures x / m == q && x % m == r
  {
    assert x == (x / m) * m + x % m;
    if x / m > q {
      MulGap(x / m, q, m);
    } else if x / m < q {
      MulGap(q, x / m, m);
    }
  }

  lemma ModAdd(x: nat, y: nat, m: nat)
    requires 0 < m
    ensures (x % m + y) % m == (x + y) % m
  {
    var z := x % m + y;
    assert x == (x / m) * m + x % m;
    assert z == (z / m) * m + z % m;
    assert x + y == (x / m + z / m) * m + z % m;
    DivModIs(x + y, m, x / m + z / m, z % m);
  }
}
