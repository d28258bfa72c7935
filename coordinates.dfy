/// The ranking schemes behind the search coordinates of
/// `norcina-cube3/src/search`: numbers written in a fixed base, numbers in
/// the mixed radix n, n - 1, ..., 1, the Lehmer code of an arrangement, and
/// the combinatorial number system for choosing which slots are occupied.
/// The decoders are the loops of the search code; the facts here are what
/// their round trips rest on.
module Coordinates {
  import opened CoreMath

  // ---- Fixed base ----

  function Pow(b: nat, n: nat): (r: nat)
    ensures b >= 1 ==> r >= 1
  {
    if n == 0 then 1 else Pow(b, n - 1) * b
  }

  /// The value of the digits `ds` in base `b`, most significant first: the
  /// accumulator is multiplied by `b` before each digit is added.
  function Horner(ds: seq<nat>, b: nat): nat {
    if ds == [] then 0 else Horner(ds[..|ds| - 1], b) * b + ds[|ds| - 1]
  }

  /// One more digit below a bound `h < p` stays below `p * b`.
  lemma DigitBelow(h: nat, p: nat, d: nat, b: nat)
    requires h < p && d < b
    ensures h * b + d < p * b
  {
    assert (h + 1) * b <= p * b;
  }

  /// Digits below `b` give a value below `b^|ds|`.
  lemma {:induction false} HornerBound(ds: seq<nat>, b: nat)
    requires forall k :: 0 <= k < |ds| ==> ds[k] < b
    ensures Horner(ds, b) < Pow(b, |ds|)
  {
    if ds != [] {
      var init := ds[..|ds| - 1];
      HornerBound(init, b);
      DigitBelow(Horner(init, b), Pow(b, |init|), ds[|ds| - 1], b);
    }
  }

  /// A new most significant digit `d` adds `d * b^|ds|`.
  lemma {:induction false} HornerCons(d: nat, ds: seq<nat>, b: nat)
    ensures Horner([d] + ds, b) == d * Pow(b, |ds|) + Horner(ds, b)
    decreases |ds|
  {
    if ds != [] {
      var init, e := ds[..|ds| - 1], ds[|ds| - 1];
      assert ([d] + ds)[..|ds|] == [d] + init;
      HornerCons(d, init, b);
      ShiftArith(d, Pow(b, |init|), Horner(init, b), b, e);
    }
  }

  /// `(d p + h) b + e == d (p b) + (h b + e)`.
  lemma ShiftArith(d: int, p: int, h: int, b: int, e: int)
    ensures (d * p + h) * b + e == d * (p * b) + (h * b + e)
  {
    assert (d * p) * b == d * (p * b);
  }

  /// `x == q (b p) + r` when `x == c p + s` and `c == q b + d`, with
  /// `r == d p + s`: peeling one more digit off the accumulator.
  lemma PeelArith(x: int, c: int, p: int, s: int, q: int, b: int, d: int)
    requires x == c * p + s && c == q * b + d
    ensures x == q * (b * p) + (d * p + s) && x == q * (p * b) + (d * p + s)
  {
    assert c * p == q * (b * p) + d * p by {
      assert (q * b + d) * p == (q * b) * p + d * p;
    }
  }

  /// `x == c m + v` with `0 <= v < m` makes `v` the remainder of `x` by `m`.
  lemma RemainderOf(x: nat, c: nat, m: nat, v: nat)
    requires v < m && x == c * m + v
    ensures x % m == v
  {
    var q, r := x / m, x % m;
    assert (q - c) * m == v - r;
    SignedMultiple(q - c, m);
  }

  /// The sum of a sequence of digits.
  function Sum(ds: seq<nat>): nat {
    if ds == [] then 0 else Sum(ds[..|ds| - 1]) + ds[|ds| - 1]
  }

  lemma {:induction false} SumCons(d: nat, ds: seq<nat>)
    ensures Sum([d] + ds) == d + Sum(ds)
    decreases |ds|
  {
    if ds != [] {
      var init := ds[..|ds| - 1];
      assert ([d] + ds)[..|ds|] == [d] + init;
      SumCons(d, init);
    }
  }

  // ---- Mixed radix n, n - 1, ..., 1 ----

  /// The value of `ds` when digit `k` has radix `n - k`: the accumulator is
  /// multiplied by `n - k` before digit `k` is added.
  function MixedValue(ds: seq<nat>, n: nat): nat
    requires |ds| <= n
  {
    if ds == [] then 0 else MixedValue(ds[..|ds| - 1], n) * (n - (|ds| - 1)) + ds[|ds| - 1]
  }

  /// One more digit: the prefix of length `i + 1` in terms of the prefix of
  /// length `i`.
  lemma MixedSnoc(ds: seq<nat>, i: nat, n: nat, d: nat)
    requires i < |ds| <= n && ds[i] == d
    ensures MixedValue(ds[..i + 1], n) == MixedValue(ds[..i], n) * (n - i) + d
  {
    assert ds[..i + 1][..i] == ds[..i];
  }

  /// Digits within their radices give a value below n (n - 1) ... (n - |ds| + 1).
  lemma {:induction false} MixedBound(ds: seq<nat>, n: nat)
    requires |ds| <= n
    requires forall k :: 0 <= k < |ds| ==> ds[k] < n - k
    ensures MixedValue(ds, n) < Falling(n, |ds|)
  {
    if ds != [] {
      var init := ds[..|ds| - 1];
      MixedBound(init, n);
      FallingStep(n, |init|);
      DigitBelow(MixedValue(init, n), Falling(n, |init|), ds[|ds| - 1], n - |init|);
    }
  }

  /// A new leading digit `d` of radix `m + 1` in front of digits of radices
  /// m, m - 1, ... adds `d` times the product of those radices.
  lemma {:induction false} MixedCons(d: nat, ds: seq<nat>, m: nat)
    requires |ds| <= m
    ensures MixedValue([d] + ds, m + 1) == d * Falling(m, |ds|) + MixedValue(ds, m)
    decreases |ds|
  {
    if ds != [] {
      var init, e := ds[..|ds| - 1], ds[|ds| - 1];
      assert ([d] + ds)[..|ds|] == [d] + init;
      MixedCons(d, init, m);
      FallingStep(m, |init|);
      ShiftArith(d, Falling(m, |init|), MixedValue(init, m), m - |init|, e);
    }
  }

  // ---- Lehmer code ----

  /// How many elements of `s` are smaller than `v`.
  function Smaller(s: seq<nat>, v: nat): (c: nat)
    ensures c <= |s|
  {
    if s == [] then 0 else Smaller(s[..|s| - 1], v) + (if s[|s| - 1] < v then 1 else 0)
  }

  /// Digit `i` of the Lehmer code: how many later elements are smaller than
  /// element `i`.  Digit `i` is below `|s| - i`.
  function LehmerDigits(s: seq<nat>): (ds: seq<nat>)
    ensures |ds| == |s|
    ensures forall k :: 0 <= k < |s| ==> ds[k] < |s| - k
  {
    seq(|s|, i requires 0 <= i < |s| => Smaller(s[i + 1..], s[i]))
  }

  /// The rank of an arrangement: its Lehmer digits in the mixed radix
  /// |s|, |s| - 1, ..., 1.
  function Rank(s: seq<nat>): nat {
    MixedValue(LehmerDigits(s), |s|)
  }

  /// `v`, moved up by one when it is at least `e`.
  function BumpValue(v: nat, e: nat): nat {
    if v >= e then v + 1 else v
  }

  function Bump(s: seq<nat>, e: nat): (r: seq<nat>)
    ensures |r| == |s|
  {
    seq(|s|, i requires 0 <= i < |s| => BumpValue(s[i], e))
  }

  /// The arrangement with Lehmer digits `ds`, built from the back: the first
  /// element is `ds[0]`, and the arrangement of the rest is bumped past it.
  function Place(ds: seq<nat>): (s: seq<nat>)
    ensures |s| == |ds|
  {
    if ds == [] then [] else [ds[0]] + Bump(Place(ds[1..]), ds[0])
  }

  lemma {:induction false} SmallerCons(e: nat, t: seq<nat>, d: nat)
    ensures Smaller([e] + t, d) == (if e < d then 1 else 0) + Smaller(t, d)
    decreases |t|
  {
    if t != [] {
      var init := t[..|t| - 1];
      assert ([e] + t)[..|t|] == [e] + init;
      SmallerCons(e, init, d);
    }
  }

  /// Bumping past `e` does not change how many elements are below `d <= e`.
  lemma {:induction false} SmallerBumpBelow(t: seq<nat>, e: nat, d: nat)
    requires d <= e
    ensures Smaller(Bump(t, e), d) == Smaller(t, d)
  {
    if t != [] {
      var init := t[..|t| - 1];
      assert Bump(t, e)[..|t| - 1] == Bump(init, e);
      SmallerBumpBelow(init, e, d);
    }
  }

  /// Above `e`, counting below `d` after the bump is counting below `d - 1`
  /// before it.
  lemma {:induction false} SmallerBumpAbove(t: seq<nat>, e: nat, d: nat)
    requires d > e
    ensures Smaller(Bump(t, e), d) == Smaller(t, d - 1)
  {
    if t != [] {
      var init := t[..|t| - 1];
      assert Bump(t, e)[..|t| - 1] == Bump(init, e);
      SmallerBumpAbove(init, e, d);
    }
  }

  /// The bump keeps the order of any two values.
  lemma {:induction false} SmallerBumpValue(t: seq<nat>, e: nat, v: nat)
    ensures Smaller(Bump(t, e), BumpValue(v, e)) == Smaller(t, v)
  {
    if t != [] {
      var init := t[..|t| - 1];
      assert Bump(t, e)[..|t| - 1] == Bump(init, e);
      SmallerBumpValue(init, e, v);
    }
  }

  /// Digits within their radices.
  predicate ValidDigits(ds: seq<nat>) {
    forall k :: 0 <= k < |ds| ==> ds[k] < |ds| - k
  }

  /// The arrangement built from valid digits holds exactly `d` values below
  /// `d`, for every `d` up to its length.
  lemma {:induction false} PlaceSmaller(ds: seq<nat>, d: nat)
    requires ValidDigits(ds) && d <= |ds|
    ensures Smaller(Place(ds), d) == d
  {
    if ds != [] {
      var e, t := ds[0], Place(ds[1..]);
      assert ValidDigits(ds[1..]) by {
        forall k | 0 <= k < |ds| - 1 ensures ds[1..][k] < |ds| - 1 - k {
          assert ds[1..][k] == ds[k + 1];
        }
      }
      SmallerCons(e, Bump(t, e), d);
      if d <= e {
        SmallerBumpBelow(t, e, d);
        PlaceSmaller(ds[1..], d);
      } else {
        SmallerBumpAbove(t, e, d);
        PlaceSmaller(ds[1..], d - 1);
      }
    }
  }

  /// Bumping every element keeps the Lehmer digits.
  lemma BumpDigits(t: seq<nat>, e: nat)
    ensures LehmerDigits(Bump(t, e)) == LehmerDigits(t)
  {
    forall i | 0 <= i < |t|
      ensures LehmerDigits(Bump(t, e))[i] == LehmerDigits(t)[i]
    {
      assert Bump(t, e)[i + 1..] == Bump(t[i + 1..], e);
      SmallerBumpValue(t[i + 1..], e, t[i]);
    }
  }

  /// The Lehmer digits of the arrangement built from valid digits are those
  /// digits.
  lemma {:induction false} PlaceDigits(ds: seq<nat>)
    requires ValidDigits(ds)
    ensures LehmerDigits(Place(ds)) == ds
  {
    if ds != [] {
      var e, rest := ds[0], ds[1..];
      var t := Place(rest);
      assert ValidDigits(rest) by {
        forall k | 0 <= k < |rest| ensures rest[k] < |rest| - k {
          assert rest[k] == ds[k + 1];
        }
      }
      PlaceDigits(rest);
      var s := Place(ds);
      assert s[1..] == Bump(t, e);
      forall i | 0 <= i < |ds|
        ensures LehmerDigits(s)[i] == ds[i]
      {
        if i == 0 {
          SmallerBumpBelow(t, e, e);
          PlaceSmaller(rest, e);
        } else {
          assert s[i + 1..] == Bump(t, e)[i..];
          assert s[i] == Bump(t, e)[i - 1];
          BumpDigits(t, e);
          assert LehmerDigits(Bump(t, e))[i - 1] == Smaller(Bump(t, e)[i..], Bump(t, e)[i - 1]);
        }
      }
    }
  }

  /// The arrangement built from valid digits lists each of 0 .. |ds| - 1
  /// once.
  lemma {:induction false} PlacePermutation(ds: seq<nat>)
    requires ValidDigits(ds)
    ensures forall k :: 0 <= k < |ds| ==> Place(ds)[k] < |ds|
    ensures forall j, k :: 0 <= j < k < |ds| ==> Place(ds)[j] != Place(ds)[k]
  {
    if ds != [] {
      var e, rest := ds[0], ds[1..];
      assert ValidDigits(rest) by {
        forall k | 0 <= k < |rest| ensures rest[k] < |rest| - k {
          assert rest[k] == ds[k + 1];
        }
      }
      PlacePermutation(rest);
    }
  }

  /// Every arrangement of n values has a rank below n!.
  lemma RankBound(s: seq<nat>)
    ensures Rank(s) < Fac(|s|)
  {
    MixedBound(LehmerDigits(s), |s|);
    FallingFac(|s|, |s|);
  }

  // ---- Combinatorial number system ----

  function CountTrue(flags: seq<bool>): (c: nat)
    ensures c <= |flags|
  {
    if flags == [] then 0 else CountTrue(flags[..|flags| - 1]) + (if flags[|flags| - 1] then 1 else 0)
  }

  /// Counting a prefix and the rest.
  lemma {:induction false} CountSplit(flags: seq<bool>, k: nat)
    requires k <= |flags|
    ensures CountTrue(flags[..k]) + CountTrue(flags[k..]) == CountTrue(flags)
    decreases |flags|
  {
    if k < |flags| {
      var n := |flags|;
      CountSplit(flags[..n - 1], k);
      assert flags[..n - 1][..k] == flags[..k];
      assert flags[k..][..n - 1 - k] == flags[..n - 1][k..];
    } else {
      assert flags[..k] == flags;
    }
  }

  /// The rank of a choice of `r` flagged slots, scanned from the top: a
  /// flagged slot `i` adds C(i, r'), where r' counts the flagged slots from
  /// `i` down.
  function CnsIndex(flags: seq<bool>, r: nat): nat
    requires CountTrue(flags) == r
  {
    if flags == [] then 0
    else
      var i := |flags| - 1;
      if flags[i] then Binomial(i, r) + CnsIndex(flags[..i], r - 1)
      else CnsIndex(flags[..i], r)
  }

  /// The choice of `r` of `n` slots with rank `x`, decided from the top: slot
  /// `n - 1` is flagged when `x` is at least C(n - 1, r).
  function CnsUnrank(x: nat, n: nat, r: nat): (flags: seq<bool>)
    requires r <= n && x < Binomial(n, r)
    ensures |flags| == n && CountTrue(flags) == r && CnsIndex(flags, r) == x
  {
    if n == 0 then []
    else
      var c := Binomial(n - 1, r);
      if x >= c then
        assert r > 0;
        var sub := CnsUnrank(x - c, n - 1, r - 1);
        CnsIndexSnoc(sub, true, r);
        sub + [true]
      else
        BinomialAbove(n - 1, n);
        var sub := CnsUnrank(x, n - 1, r);
        CnsIndexSnoc(sub, false, r);
        sub + [false]
  }

  /// A choice of `r` of `n` slots ranks below C(n, r).
  lemma {:induction false} CnsBound(flags: seq<bool>, r: nat)
    requires CountTrue(flags) == r
    ensures CnsIndex(flags, r) < Binomial(|flags|, r)
  {
    if flags != [] {
      var i := |flags| - 1;
      if flags[i] {
        CnsBound(flags[..i], r - 1);
      } else {
        CnsBound(flags[..i], r);
      }
    }
  }

  /// Ranking a choice with one more slot on top.
  lemma CnsIndexSnoc(flags: seq<bool>, top: bool, r: nat)
    requires CountTrue(flags) + (if top then 1 else 0) == r
    ensures CountTrue(flags + [top]) == r
    ensures CnsIndex(flags + [top], r) ==
      (if top then Binomial(|flags|, r) + CnsIndex(flags, r - 1) else CnsIndex(flags, r))
  {
    assert (flags + [top])[..|flags|] == flags;
  }

  /// Ranking the first `i + 1` slots from the top: slot `i` first, then the
  /// `i` below it.
  lemma CnsPrefixStep(flags: seq<bool>, i: nat, r: nat)
    requires i < |flags| && CountTrue(flags[..i + 1]) == r
    ensures flags[i] ==> r > 0
    ensures CountTrue(flags[..i]) == (if flags[i] then r - 1 else r)
    ensures CnsIndex(flags[..i + 1], r) ==
      (if flags[i] then Binomial(i, r) + CnsIndex(flags[..i], r - 1) else CnsIndex(flags[..i], r))
  {
    assert flags[..i + 1][..i] == flags[..i];
  }

  /// One step of unranking: the top slot is flagged when the rank reaches
  /// C(n - 1, r).
  lemma UnrankTop(x: nat, n: nat, r: nat)
    requires 0 < n && r <= n && x < Binomial(n, r) && x >= Binomial(n - 1, r)
    ensures 0 < r && x - Binomial(n - 1, r) < Binomial(n - 1, r - 1)
    ensures CnsUnrank(x, n, r) == CnsUnrank(x - Binomial(n - 1, r), n - 1, r - 1) + [true]
  {
  }

  /// Otherwise the top slot is left out.
  lemma UnrankBottom(x: nat, n: nat, r: nat)
    requires 0 < n && r <= n && x < Binomial(n, r) && x < Binomial(n - 1, r)
    ensures r <= n - 1
    ensures CnsUnrank(x, n, r) == CnsUnrank(x, n - 1, r) + [false]
  {
    BinomialAbove(n - 1, n);
  }

  /// One step of decoding from the top slot down: if the first `i + 1`
  /// flags of `u` decode from `x`, slot `i` is flagged exactly when `x`
  /// reaches C(i, r), and the first `i` flags decode from what is left.
  lemma UnrankPrefixStep(u: seq<bool>, x: nat, i: nat, r: nat)
    requires i < |u| && r <= i + 1 && x < Binomial(i + 1, r)
    requires CnsUnrank(x, i + 1, r) == u[..i + 1]
    ensures u[i] <==> x >= Binomial(i, r)
    ensures u[i] ==>
      0 < r && x - Binomial(i, r) < Binomial(i, r - 1) && CnsUnrank(x - Binomial(i, r), i, r - 1) == u[..i]
    ensures !u[i] ==> r <= i && x < Binomial(i, r) && CnsUnrank(x, i, r) == u[..i]
  {
    assert u[..i + 1][..i] == u[..i] && u[..i + 1][i] == u[i];
    if x >= Binomial(i, r) {
      UnrankTop(x, i + 1, r);
    } else {
      UnrankBottom(x, i + 1, r);
    }
  }

  /// Every rank below C(n, r) is the rank of some choice of `r` of `n`
  /// slots.
  lemma UnrankExists(x: nat, n: nat, r: nat) returns (flags: seq<bool>)
    requires r <= n && x < Binomial(n, r)
    ensures |flags| == n && CountTrue(flags) == r && CnsIndex(flags, r) == x
  {
    flags := CnsUnrank(x, n, r);
  }

  /// Two choices of `r` of the same slots with the same rank are the same.
  lemma {:induction false} CnsIndexInjective(f: seq<bool>, g: seq<bool>, r: nat)
    requires |f| == |g| && CountTrue(f) == r && CountTrue(g) == r
    requires CnsIndex(f, r) == CnsIndex(g, r)
    ensures f == g
  {
    if f != [] {
      var i := |f| - 1;
      assert f == f[..i] + [f[i]] && g == g[..i] + [g[i]];
      CnsIndexSnoc(f[..i], f[i], r);
      CnsIndexSnoc(g[..i], g[i], r);
      if f[i] && !g[i] {
        CnsBound(g[..i], r);
      } else if !f[i] && g[i] {
        CnsBound(f[..i], r);
      } else if f[i] {
        CnsIndexInjective(f[..i], g[..i], r - 1);
      } else {
        CnsIndexInjective(f[..i], g[..i], r);
      }
    }
  }

  /// Ranking and then unranking a choice gives it back.
  lemma CnsUnrankIndex(flags: seq<bool>, r: nat)
    requires CountTrue(flags) == r
    ensures CnsIndex(flags, r) < Binomial(|flags|, r)
    ensures CnsUnrank(CnsIndex(flags, r), |flags|, r) == flags
  {
    CnsBound(flags, r);
    var g := CnsUnrank(CnsIndex(flags, r), |flags|, r);
    CnsIndexInjective(flags, g, r);
  }
}
