/// Combinatorics of `norcina-core/src/math.rs`: the factorial and `n`
/// choose `m` as a product and a run of divisions.
module CoreMath {

  /// `fac`: n * (n - 1) * ... * 1.
  function Fac(n: nat): (r: nat)
    ensures r >= 1
  {
    if n == 0 then 1 else n * Fac(n - 1)
  }

  /// The falling factorial n * (n - 1) * ... * (n - m + 1), which is 0 once
  /// the product reaches the factor 0.
  function Falling(n: nat, m: nat): nat {
    if m == 0 then 1 else if n == 0 then 0 else n * Falling(n - 1, m - 1)
  }

  /// The binomial coefficient by Pascal's rule, independent of both loops of
  /// `choose`.
  function Binomial(n: nat, m: nat): nat {
    if m == 0 then 1 else if n == 0 then 0 else Binomial(n - 1, m - 1) + Binomial(n - 1, m)
  }

  /// `choose`: multiply in n, n - 1, ..., n - m + 1, then divide out m,
  /// m - 1, ..., 1.  The source subtracts `n - i` in `usize`, which needs
  /// `m <= n + 1`.
  method Choose(n: nat, m: nat) returns (output: nat)
    requires m <= n + 1
    ensures output == Binomial(n, m)
  {
    output := 1;
    var i := 0;
    while i < m
      invariant 0 <= i <= m
      invariant output == Falling(n, i)
    {
      FallingStep(n, i);
      output := output * (n - i);
      i := i + 1;
    }
    FallingBinomial(n, m);
    i := 0;
    while i < m
      invariant 0 <= i <= m
      invariant output == Binomial(n, m) * Fac(m - i)
    {
      DivideOut(Binomial(n, m), m - i);
      output := output / (m - i);
      i := i + 1;
    }
  }

  /// The last factor of the falling product: the first loop's step.
  lemma {:induction false} FallingStep(n: nat, i: nat)
    requires i <= n
    ensures Falling(n, i + 1) == Falling(n, i) * (n - i)
  {
    if i > 0 {
      FallingStep(n - 1, i - 1);
      var inner := Falling(n - 1, i - 1);
      assert Falling(n - 1, i) == inner * (n - i);
      assert Falling(n, i + 1) == n * (inner * (n - i));
      assert Falling(n, i) == n * inner;
      Associate(n, inner, n - i);
    }
  }

  /// Regrouping a product of three.
  lemma Associate(a: int, b: int, c: int)
    ensures a * (b * c) == (a * b) * c
  {
  }

  /// A multiple of `k` divides by `k` exactly.
  lemma MulDivExact(x: nat, k: nat)
    requires k >= 1
    ensures (x * k) % k == 0 && (x * k) / k == x
  {
    var q, r := (x * k) / k, (x * k) % k;
    assert x * k == q * k + r && 0 <= r < k;
    assert (x - q) * k == r;
    SignedMultiple(x - q, k);
  }

  /// A non-zero multiple of a positive `k` is at least `k` away from 0.
  lemma SignedMultiple(d: int, k: int)
    requires k >= 1
    ensures d >= 1 ==> d * k >= k
    ensures d <= -1 ==> d * k <= -k
  {
  }

  /// Dividing `b * k!` by `k` is exact and leaves `b * (k - 1)!`: the second
  /// loop's step.
  lemma DivideOut(b: nat, k: nat)
    requires k >= 1
    ensures b * Fac(k) % k == 0 && b * Fac(k) / k == b * Fac(k - 1)
  {
    var f := Fac(k - 1);
    assert Fac(k) == k * f;
    assert b * (k * f) == (b * f) * k;
    MulDivExact(b * f, k);
  }

  /// The falling product satisfies a Pascal-style rule.
  lemma {:induction false} FallingPascal(n: nat, k: nat)
    ensures Falling(n + 1, k + 1) == Falling(n, k + 1) + (k + 1) * Falling(n, k)
  {
    if k == 0 {
    } else if n == 0 {
      assert Falling(0, k) == 0 && Falling(0, k + 1) == 0;
      assert Falling(1, k + 1) == Falling(0, k);
    } else {
      FallingPascal(n - 1, k - 1);
      var a, b := Falling(n - 1, k), Falling(n - 1, k - 1);
      assert Falling(n, k) == a + k * b;
      assert Falling(n + 1, k + 1) == (n + 1) * (a + k * b);
      assert Falling(n, k + 1) == n * a;
      assert Falling(n, k) == n * b;
      PascalArith(n, k, a, b);
    }
  }

  /// The arithmetic step of `FallingPascal`: (n + 1)(a + kb) = na + (k + 1)nb
  /// when a + kb = nb.
  lemma PascalArith(n: int, k: int, a: int, b: int)
    requires a + k * b == n * b
    ensures (n + 1) * (a + k * b) == n * a + (k + 1) * (n * b)
  {
    calc {
      (n + 1) * (a + k * b);
      n * (a + k * b) + (a + k * b);
      n * a + n * (k * b) + n * b;
      { assert n * (k * b) == k * (n * b); }
      n * a + k * (n * b) + n * b;
      n * a + (k + 1) * (n * b);
    }
  }

  /// The falling product is the binomial coefficient times m!.
  lemma {:induction false} FallingBinomial(n: nat, m: nat)
    ensures Falling(n, m) == Binomial(n, m) * Fac(m)
  {
    if m == 0 {
    } else if n == 0 {
    } else {
      var k := m - 1;
      FallingBinomial(n - 1, k);
      FallingBinomial(n - 1, m);
      FallingPascal(n - 1, k);
      var b1, b0, f := Binomial(n - 1, m), Binomial(n - 1, k), Fac(k);
      assert Fac(m) == m * f;
      assert Falling(n, m) == b1 * (m * f) + m * (b0 * f);
      assert Binomial(n, m) == b0 + b1;
      BinomialArith(m, b0, b1, f);
    }
  }

  /// The arithmetic step of `FallingBinomial`.
  lemma BinomialArith(m: int, b0: int, b1: int, f: int)
    ensures b1 * (m * f) + m * (b0 * f) == (b0 + b1) * (m * f)
  {
    assert m * (b0 * f) == b0 * (m * f);
  }

  /// The falling product times (n - m)! is n!.
  lemma {:induction false} FallingFac(n: nat, m: nat)
    requires m <= n
    ensures Falling(n, m) * Fac(n - m) == Fac(n)
  {
    if m > 0 {
      FallingFac(n - 1, m - 1);
      var a, c := Falling(n - 1, m - 1), Fac(n - m);
      assert Falling(n, m) == n * a;
      assert Fac(n) == n * (a * c);
      Associate(n, a, c);
    }
  }

  /// `choose(n, m)` is n! / (m! (n - m)!) for m <= n, as the doc comment says.
  lemma ChooseFactorials(n: nat, m: nat)
    requires m <= n
    ensures Binomial(n, m) * (Fac(m) * Fac(n - m)) == Fac(n)
    ensures Binomial(n, m) == Fac(n) / (Fac(m) * Fac(n - m))
  {
    FallingBinomial(n, m);
    FallingFac(n, m);
    var b, f, g := Binomial(n, m), Fac(m), Fac(n - m);
    Associate(b, f, g);
    MulDivExact(b, f * g);
  }

  /// Choosing more than there are gives 0.
  lemma {:induction false} BinomialAbove(n: nat, m: nat)
    requires m > n
    ensures Binomial(n, m) == 0
  {
    if n > 0 {
      BinomialAbove(n - 1, m - 1);
      BinomialAbove(n - 1, m);
    }
  }

  /// `choose(n, 0)` is 1 and `choose(n, n + 1)`, the largest the source
  /// allows, is 0.
  lemma ChooseEdges(n: nat)
    ensures Binomial(n, 0) == 1 && Binomial(n, n + 1) == 0
  {
    BinomialAbove(n, n + 1);
  }

  /// The first loop yields the falling factorial: n! / (n - m)! for m <= n.
  lemma FallingIsQuotient(n: nat, m: nat)
    requires m <= n
    ensures Falling(n, m) == Fac(n) / Fac(n - m)
  {
    FallingFac(n, m);
    MulDivExact(Falling(n, m), Fac(n - m));
  }
}
