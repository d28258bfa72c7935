// Bit fields of the packed bytes, written as arithmetic on naturals:
// `x >> k` is `x / Pow2(k)`, `x & 1` is `x % 2`, `x ^ (1 << k)` is FlipBit.
module Bits {

  /// `1 << k`.  It is never zero, so the shifts below can divide by it.
  function Pow2(k: nat): (r: nat)
    ensures r >= 1
  {
    if k == 0 then 1 else 2 * Pow2(k - 1)
  }

  /// `(x >> k) & 1`.
  function Bit(x: nat, k: nat): (r: nat)
    ensures r < 2
    ensures r == 1 ==> x >= Pow2(k)
  {
    (x / Pow2(k)) % 2
  }

  /// `x ^ (1 << k)`.
  function FlipBit(x: nat, k: nat): nat {
    if Bit(x, k) == 1 then x - Pow2(k) else x + Pow2(k)
  }

  /// Flipping bit 0 or bit 1 toggles that bit, keeps the other one and the
  /// higher bits, and undoes itself.
  lemma FlipLowBit(x: nat, k: nat)
    requires k < 2
    ensures var y := FlipBit(x, k);
      y / 4 == x / 4 && Bit(y, k) == 1 - Bit(x, k) && Bit(y, 1 - k) == Bit(x, 1 - k) && FlipBit(y, k) == x
  {
    assert Pow2(0) == 1 && Pow2(1) == 2;
    var q, a, b := x / 4, x % 2, (x / 2) % 2;
    assert x == 4 * q + 2 * b + a;
    assert Bit(x, 0) == a && Bit(x, 1) == b;
    var y := FlipBit(x, k);
    var a', b' := if k == 0 then 1 - a else a, if k == 1 then 1 - b else b;
    assert y == 4 * q + 2 * b' + a';
    LowBits(y, q, a', b');
    LowBits(FlipBit(y, k), q, a, b);
  }

  /// The fields of `4 * q + 2 * b + a`.
  lemma LowBits(x: nat, q: nat, a: nat, b: nat)
    requires a < 2 && b < 2 && x == 4 * q + 2 * b + a
    ensures x / 4 == q && Bit(x, 0) == a && Bit(x, 1) == b
  {
    assert Pow2(0) == 1 && Pow2(1) == 2;
    assert x / 2 == 2 * q + b;
  }
}
