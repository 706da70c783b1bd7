/** Powers of a base, and the wrap-around of the source's machine integers. */
module Powers {

  function Pow(base: nat, n: nat): (r: nat)
    ensures base > 0 ==> r > 0
  {
    if n == 0 then 1 else base * Pow(base, n - 1)
  }

  function Pow2(n: nat): (r: nat)
    ensures r > 0
  {
    Pow(2, n)
  }

  /** A product by repeated addition: `n` copies of `w`, none for a negative count. */
  function Times(n: int, w: nat): nat
    decreases n
  {
    if n <= 0 then 0 else Times(n - 1, w) + w
  }

  lemma {:induction false} TimesIsProduct(n: nat, w: nat)
    ensures Times(n, w) == n * w
  {
    if n > 0 {
      TimesIsProduct(n - 1, w);
      assert (n - 1) * w + w == n * w;
    }
  }

  lemma Regroup(a: int, b: int, c: int)
    ensures a * (b * c) == (a * b) * c
  {
  }

  lemma {:induction false} PowAdds(base: nat, m: nat, n: nat)
    ensures Pow(base, m + n) == Pow(base, m) * Pow(base, n)
    decreases m
  {
    if m > 0 {
      PowAdds(base, m - 1, n);
      Regroup(base, Pow(base, m - 1), Pow(base, n));
    }
  }

  lemma Pow2Adds(m: nat, n: nat)
    ensures Pow2(m + n) == Pow2(m) * Pow2(n)
  {
    PowAdds(2, m, n);
  }

  lemma {:induction false} Pow2Grows(m: nat, n: nat)
    requires m <= n
    ensures Pow2(m) <= Pow2(n)
    decreases n
  {
    if m < n {
      Pow2Grows(m, n - 1);
    }
  }

  const TWO32: int := 0x1_0000_0000
  const TWO63: int := 0x8000_0000_0000_0000
  const TWO64: int := 0x1_0000_0000_0000_0000

  lemma {:induction false} Pow2Squares(n: nat, m: nat, v: nat)
    requires m == n + n && Pow2(n) == v
    ensures Pow2(m) == v * v
  {
    Pow2Adds(n, n);
  }

  lemma {:induction false} Pow2Is64()
    ensures Pow2(64) == TWO64
  {
    var four := 4;
    assert Pow2(four) == 16;
    Pow2Squares(four, 8, 16);
    Pow2Squares(8, 16, 0x100);
    Pow2Squares(16, 32, 0x1_0000);
    Pow2Squares(32, 64, 0x1_0000_0000);
  }

  function Low64(x: int): (r: nat)
    ensures r < TWO64
    ensures 0 <= x < TWO64 ==> r == x
  {
    x % 0x1_0000_0000_0000_0000
  }

  /** The two's-complement reading of the low 64 bits. */
  function Wrap64(x: int): (r: int)
    ensures -TWO63 <= r < TWO63
    ensures -TWO63 <= x < TWO63 ==> r == x
  {
    if Low64(x) < TWO63 then Low64(x) else Low64(x) - TWO64
  }

  lemma WrapShift(x: int, k: int)
    ensures Wrap64(x + k * 0x1_0000_0000_0000_0000) == Wrap64(x)
  {
  }

  /** Wrapping at every step is wrapping once at the end. */
  lemma WrapStep(x: int, base: int, digit: int)
    ensures Wrap64(Wrap64(x) * base + digit) == Wrap64(x * base + digit)
  {
    var quotient := x / 0x1_0000_0000_0000_0000;
    var q := if Low64(x) < TWO63 then quotient else quotient + 1;
    assert x == Wrap64(x) + q * 0x1_0000_0000_0000_0000;
    calc {
      x * base + digit;
      (Wrap64(x) + q * 0x1_0000_0000_0000_0000) * base + digit;
      (Wrap64(x) * base + digit) + (q * base) * 0x1_0000_0000_0000_0000;
    }
    WrapShift(Wrap64(x) * base + digit, q * base);
  }

  /** The low 32 bits. */
  function Low32(x: int): (r: nat)
    ensures r < TWO32
    ensures r == x <==> 0 <= x < TWO32
  {
    x % 0x1_0000_0000
  }

  lemma Low32Adds(x: int, y: int)
    ensures Low32(Low32(x) + y) == Low32(x + y)
  {
  }

  lemma Low32OfLow64(x: int)
    ensures Low32(Low64(x)) == Low32(x)
  {
    var q := x / 0x1_0000_0000_0000_0000;
    assert x == Low64(x) + (q * 0x1_0000_0000) * 0x1_0000_0000;
  }

  lemma Low32Step(x: nat, base: nat, digit: nat)
    ensures Low32(Low32(x) * base + digit) == Low32(x * base + digit)
  {
    var q := x / 0x1_0000_0000;
    calc {
      x * base + digit;
      (Low32(x) + q * 0x1_0000_0000) * base + digit;
      (Low32(x) * base + digit) + (q * base) * 0x1_0000_0000;
    }
  }
}
