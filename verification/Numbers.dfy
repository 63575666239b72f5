/** Division facts the address arithmetic of planes and windows rests on. */
module Numbers {
  lemma MulGrows(t: int, d: int)
    requires d > 0
    ensures t >= 1 ==> t * d >= d
    ensures t <= -1 ==> t * d <= -d
  {
    if t >= 1 {
      assert t * d == (t - 1) * d + d;
      assert (t - 1) * d >= 0;
    }
    if t <= -1 {
      assert t * d == (t + 1) * d - d;
      assert (-t - 1) * d >= 0;
    }
  }

  /** Quotient and remainder are the only way to write k as q * d + r with 0 <= r < d. */
  lemma DivMod(k: int, q: int, r: int, d: int)
    requires 0 <= r < d && k == q * d + r
    ensures k / d == q && k % d == r
  {
    var t := k / d - q;
    assert k == (k / d) * d + k % d;
    assert t * d == (k / d) * d - q * d;
    MulGrows(t, d);
  }

  lemma MulMono(a: int, b: int, d: int)
    requires a <= b && d >= 0
    ensures a * d <= b * d
  {
    assert (b - a) * d >= 0;
    assert (b - a) * d == b * d - a * d;
  }

  lemma MulNext(a: int, d: int)
    ensures (a + 1) * d == a * d + d
  {
  }

  /** An address inside n rows of d cells lies in one of the n rows, and conversely. */
  lemma RowOf(k: int, n: int, d: int)
    requires d > 0 && n >= 0
    ensures 0 <= k < n * d <==> 0 <= k / d < n
    ensures k == (k / d) * d + k % d && 0 <= k % d < d
  {
    assert k == (k / d) * d + k % d;
    if k / d < 0 { MulMono(k / d, -1, d); }
    if k / d >= n { MulMono(n, k / d, d); }
    if 0 <= k / d < n { MulMono(k / d + 1, n, d); assert (k / d + 1) * d == (k / d) * d + d; MulMono(0, k / d, d); }
  }
}
