/** Facts about Euclidean division and remainder used by the partition count and the partition cursor. */
module Arith {

  lemma MulMonoLe(x: int, y: int, size: nat)
    requires x <= y
    ensures x * size <= y * size
  {
    assert y * size == x * size + (y - x) * size;
  }

  /** `q` is the quotient of `a` by `size` when `a` lies in `[q * size, q * size + size)`. */
  lemma DivUnique(a: nat, size: nat, q: int)
    requires size > 0
    requires q * size <= a < q * size + size
    ensures a / size == q
    ensures a % size == a - q * size
  {
    var k := a / size;
    assert k * size + a % size == a;
    if k < q {
      MulMonoLe(k + 1, q, size);
      assert false;
    }
    if k > q {
      MulMonoLe(q + 1, k, size);
      assert false;
    }
  }

  lemma DivShift(a: nat, size: nat)
    requires size > 0
    ensures (a + size) / size == a / size + 1
  {
    var q := a / size;
    assert q * size + a % size == a;
    assert (q + 1) * size == q * size + size;
    DivUnique(a + size, size, q + 1);
  }

  /** Ceiling division grows by one when the dividend grows by the divisor. */
  lemma CeilStep(n: nat, m: nat, size: nat)
    requires size > 0 && n == m + size
    ensures (n + size - 1) / size == (m + size - 1) / size + 1
  {
    DivShift(m + size - 1, size);
    assert n + size - 1 == (m + size - 1) + size;
  }

  /** Advancing a counter and then reducing it modulo `n` agrees with advancing its remainder. */
  lemma ModStep(a: nat, n: nat)
    requires n > 0
    ensures (a + 1) % n == (a % n + 1) % n
  {
    var q := a / n;
    assert q * n + a % n == a;
    if a % n + 1 < n {
      DivUnique(a + 1, n, q);
      DivUnique(a % n + 1, n, 0);
    } else {
      assert (q + 1) * n == q * n + n;
      DivUnique(a + 1, n, q + 1);
      DivUnique(a % n + 1, n, 1);
    }
  }

  /** One more round of `n` is `n` more. */
  lemma MulSucc(k: nat, n: nat)
    ensures k * n + n == (k + 1) * n
  {
  }
}
