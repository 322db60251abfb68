/** Division facts for the ring and sector arithmetic. */
module Arith {

  lemma {:induction false} MulAtLeast(m: int, k: int)
    requires m > 0 && k >= 1
    ensures m * k >= m
  {
    assert m * (k - 1) >= 0;
    assert m * k == m * (k - 1) + m;
  }

  lemma {:induction false} DivModUnique(a: int, m: int, q: int, r: int)
    requires m > 0 && a == m * q + r && 0 <= r < m
    ensures a / m == q && a % m == r
  {
    var q', r' := a / m, a % m;
    assert a == m * q' + r';
    assert m * (q - q') == r' - r && m * (q' - q) == r - r';
    if q - q' >= 1 {
      MulAtLeast(m, q - q');
    } else if q' - q >= 1 {
      MulAtLeast(m, q' - q);
    }
  }

  lemma {:induction false} MultipleSum(a: int, b: int, m: int)
    requires m > 0 && a % m == 0 && b % m == 0
    ensures (a + b) % m == 0
    ensures (a - b) % m == 0
  {
    assert a == m * (a / m) && b == m * (b / m);
    assert a + b == m * (a / m + b / m) && a - b == m * (a / m - b / m);
    DivModUnique(a + b, m, a / m + b / m, 0);
    DivModUnique(a - b, m, a / m - b / m, 0);
  }

  lemma {:induction false} RemainderBound(a: nat, m: int)
    requires m > 0
    ensures 0 <= a % m <= a && a % m < m
  {
    if a < m { DivModUnique(a, m, 0, a); }
  }

  /** Removing the remainder leaves a multiple. */
  lemma {:induction false} RoundDown(a: int, m: int)
    requires m > 0
    ensures (a - a % m) % m == 0
  {
    DivModUnique(a - a % m, m, a / m, 0);
  }

  /** The largest multiple of `m` that is at most `n`. */
  function WholePart(n: nat, m: int): (r: nat)
    requires m > 0
    ensures r <= n
  {
    RemainderBound(n, m);
    n - n % m
  }

  lemma {:induction false} WholePartIs(n: nat, m: int)
    requires m > 0
    ensures WholePart(n, m) % m == 0
    ensures WholePart(n, m) > 0 <==> n >= m
    ensures n % m == 0 ==> WholePart(n, m) == n
  {
    RoundDown(n, m);
    RemainderBound(n, m);
    if n < m { DivModUnique(n, m, 0, n); }
  }
}
