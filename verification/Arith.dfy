/** Facts about quotients and remainders. */
module Arith {
  lemma {:induction false} Multiple(q: nat, r: nat, n: nat)
    requires n > 0
    ensures (q * n + r) % n == r % n
  {
    if q > 0 {
      Multiple(q - 1, r, n);
      assert q * n + r == ((q - 1) * n + r) + n;
      AddOnce((q - 1) * n + r, n);
    }
  }

  lemma {:induction false} AddOnce(x: nat, n: nat)
    requires n > 0
    ensures (x + n) % n == x % n
  {
    var d, r := x / n, x % n;
    assert x + n == (d + 1) * n + r;
    DivUnique(x + n, n, d + 1, r);
  }

  lemma {:induction false} DivUnique(x: nat, n: nat, d: nat, r: nat)
    requires n > 0 && r < n && x == d * n + r
    ensures x % n == r
  {
    Unique(n, d, r, x / n, x % n);
  }

  lemma {:induction false} Unique(n: nat, d: int, r: nat, e: int, q: nat)
    requires d * n + r == e * n + q && r < n && q < n
    ensures r == q && d == e
  {
    Distribute(d, e, n);
    if d > e {
      Scale(d - e, n);
    } else if e > d {
      Scale(e - d, n);
    }
  }

  lemma {:induction false} Distribute(d: int, e: int, n: nat)
    ensures (d - e) * n == d * n - e * n && (e - d) * n == e * n - d * n
  {
  }

  lemma {:induction false} Scale(a: int, n: nat)
    requires a >= 1
    ensures a * n >= n
  {
  }

  lemma {:induction false} SlotsApart(n: nat, x: nat, y: nat)
    requires x < y < x + n
    ensures x % n != y % n
  {
    if x % n == y % n {
      Congruent(n, x / n, y / n, x % n);
    }
  }

  lemma {:induction false} Congruent(n: nat, d: int, e: int, r: nat)
    requires d * n + r <= e * n + r < d * n + r + n
    ensures d == e
  {
    Distribute(d, e, n);
    if e > d {
      Scale(e - d, n);
    } else if d > e {
      Scale(d - e, n);
    }
  }
}
