/** Facts about Euclidean division by a positive divisor, which is floor
    division for the non-negative values used here. */
module Arith {

  lemma MulMono(a: int, c: int, b: int)
    ensures a >= c && b > 0 ==> a * b >= c * b
  {
    if a >= c && b > 0 {
      assert a * b - c * b == (a - c) * b;
    }
  }

  /** Euclidean division has one quotient. */
  lemma DivUnique(n: int, b: int, q: int, r: int)
    requires b > 0 && n == q * b + r && 0 <= r < b
    ensures n / b == q
  {
    MulMono(n / b, q + 1, b);
    MulMono(q, n / b + 1, b);
  }

  /** Dividing by `b`, then by `c`, is dividing by `b * c`. */
  lemma DivDiv(a: nat, b: nat, c: nat)
    requires b > 0 && c > 0
    ensures a / b / c == a / (b * c)
  {
    var q, r := a / (b * c), a % (b * c);
    assert a == q * (b * c) + r;
    var r1, r2 := r / b, r % b;
    MulMono(r1, c, b);
    assert a == (q * c + r1) * b + r2;
    DivUnique(a, b, q * c + r1, r2);
    DivUnique(q * c + r1, c, q, r1);
  }
}
