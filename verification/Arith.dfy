/** Facts about division and multiplication that the solver does not find by itself. */
module Arith {

  lemma {:induction false} DivModUnique(n: int, b: int, q: int, r: int)
    requires b > 0 && n == b * q + r && 0 <= r < b
    ensures n / b == q && n % b == r
  {
    var d := n / b - q;
    assert b * d == r - n % b;
    if d >= 1 {
      MulMonotone(1, d, b);
    } else if d <= -1 {
      MulMonotone(d, -1, b);
    }
  }

  lemma {:induction false} MulMonotone(x: int, y: int, b: int)
    requires x <= y && b >= 0
    ensures x * b <= y * b && b * x <= b * y
  {
    assert 0 <= (y - x) * b;
  }

  /** Reducing by a multiple of b first does not change the residue mod b. */
  lemma {:induction false} ModOfMultiple(n: int, a: int, b: int)
    requires a > 0 && b > 0 && a % b == 0
    ensures n % a % b == n % b
  {
    var k, r := a / b, n % a;
    assert a == b * k;
    assert n == a * (n / a) + r;
    assert r == b * (r / b) + r % b;
    assert (b * k) * (n / a) == b * (k * (n / a));
    assert n == b * (k * (n / a) + r / b) + r % b;
    DivModUnique(n, b, k * (n / a) + r / b, r % b);
  }

  lemma {:induction false} OneMore(n: int, b: int)
    ensures (n + 1) * b == n * b + b
  {
  }

  lemma {:induction false} Regroup(a: int, b: int, c: int)
    ensures a * (b * c) == (a * b) * c
  {
  }

  lemma {:induction false} Distribute(a: int, b: int, c: int)
    ensures a * (b + c) == a * b + a * c
  {
  }
}
