/** Small facts about integer arithmetic that the solver does not find on its own. */
module Arith {

  function Max(a: int, b: int): (m: int)
    ensures m >= a && m >= b && (m == a || m == b)
  {
    if a >= b then a else b
  }

  function Min(a: int, b: int): (m: int)
    ensures m <= a && m <= b && (m == a || m == b)
  {
    if a <= b then a else b
  }

  /** Multiplying by a non-negative factor keeps order. */
  lemma MulMonotone(w: int, x: int, y: int)
    requires w >= 0
    ensures x <= y ==> w * x <= w * y
  {
    if x <= y {
      assert w * y == w * x + w * (y - x);
    }
  }

  /** Euclidean division is determined by its quotient-remainder decomposition. */
  lemma DivUnique(x: int, k: int, q: int, r: int)
    requires k > 0 && 0 <= r < k && x == k * q + r
    ensures x / k == q && x % k == r
  {
    var q', r' := x / k, x % k;
    assert k * (q - q') == r' - r;
    MulMonotone(k, 1, q - q');
    MulMonotone(k, q - q', -1);
  }

  lemma DivStep(x: int, k: int)
    requires k > 0
    ensures x / k - (x - 1) / k == if x % k == 0 then 1 else 0
  {
    var q, r := x / k, x % k;
    if r == 0 {
      DivUnique(x - 1, k, q - 1, k - 1);
    } else {
      DivUnique(x - 1, k, q, r - 1);
    }
  }

}
