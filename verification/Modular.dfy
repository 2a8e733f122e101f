/** Division by a variable, kept away from the other proofs. */
module Modular {

  lemma MulMonotone(a: int, b: int, n: nat)
    requires a <= b
    ensures a * n <= b * n
  {
  }

  lemma DivModUnique(q: nat, r: nat, n: nat)
    requires r < n
    ensures (q * n + r) / n == q && (q * n + r) % n == r
  {
    var x := q * n + r;
    assert x == (x / n) * n + x % n;
    if x / n < q {
      MulMonotone(x / n + 1, q, n);
    } else if q < x / n {
      MulMonotone(q + 1, x / n, n);
    }
  }

  lemma NextMod(m: nat, n: nat)
    requires n > 0
    ensures (m + 1) % n == (m % n + 1) % n
    ensures (m + 1) % n == if m % n + 1 == n then 0 else m % n + 1
    ensures (m + 1) / n == m / n + if m % n + 1 == n then 1 else 0
  {
    var q, r := m / n, m % n;
    assert m == q * n + r;
    if r + 1 < n {
      DivModUnique(q, r + 1, n);
      DivModUnique(0, r + 1, n);
    } else {
      assert m + 1 == (q + 1) * n + 0;
      DivModUnique(q + 1, 0, n);
      DivModUnique(1, 0, n);
    }
  }

  lemma DivMonotone(a: nat, b: nat, n: nat)
    requires n > 0 && a <= b
    ensures a / n <= b / n
  {
    assert b == (b / n) * n + b % n;
    assert a == (a / n) * n + a % n;
    if b / n < a / n {
      MulMonotone(b / n + 1, a / n, n);
    }
  }

  lemma DivPlusDivisor(a: nat, n: nat)
    requires n > 0
    ensures (a + n) / n == a / n + 1
  {
    assert a == (a / n) * n + a % n;
    assert a + n == (a / n + 1) * n + a % n;
    DivModUnique(a / n + 1, a % n, n);
  }

  /** Among n numbers in a row, one has remainder i. */
  lemma RemainderWithin(a: nat, i: nat, n: nat) returns (t: nat)
    requires i < n
    ensures a <= t < a + n && t % n == i
  {
    var q, r := a / n, a % n;
    assert a == q * n + r;
    if r <= i {
      t := q * n + i;
      DivModUnique(q, i, n);
    } else {
      t := (q + 1) * n + i;
      DivModUnique(q + 1, i, n);
    }
  }
}
