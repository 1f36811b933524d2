/** Decimal digits: powers of ten, fixed-width digit lists and their values. */
module Decimals {

  function Pow10(n: nat): (p: nat)
    ensures p > 0
  {
    if n == 0 then 1 else 10 * Pow10(n - 1)
  }

  lemma {:induction false} Pow10Add(m: nat, n: nat)
    ensures Pow10(m + n) == Pow10(m) * Pow10(n)
  {
    if m > 0 {
      Pow10Add(m - 1, n);
    }
  }

  predicate AreDigits(ds: seq<int>) {
    forall k :: 0 <= k < |ds| ==> 0 <= ds[k] <= 9
  }

  function ToInt(ds: seq<int>): int {
    if ds == [] then 0 else 10 * ToInt(ds[..|ds| - 1]) + ds[|ds| - 1]
  }

  /** The last `n` decimal digits of `v`, most significant first. */
  function FixedDigits(v: nat, n: nat): (ds: seq<int>)
    ensures |ds| == n && AreDigits(ds)
  {
    if n == 0 then [] else FixedDigits(v / 10, n - 1) + [v % 10]
  }

  /** All decimal digits of `v`, at least one. */
  function IntDigits(v: nat): (ds: seq<int>)
    ensures |ds| >= 1 && AreDigits(ds)
  {
    if v < 10 then [v] else IntDigits(v / 10) + [v % 10]
  }

  function Zeros(n: nat): (ds: seq<int>)
    ensures |ds| == n && AreDigits(ds)
  {
    seq(n, _ => 0)
  }

  function RJust(ds: seq<int>, n: nat): seq<int> {
    if |ds| < n then Zeros(n - |ds|) + ds else ds
  }

  /** Fixed-width digits give the number back, up to the digits that were dropped. */
  lemma {:induction false} FixedDigitsValue(v: nat, n: nat)
    ensures ToInt(FixedDigits(v, n)) == Low(v, n)
  {
    if n > 0 {
      FixedDigitsValue(v / 10, n - 1);
      LowStep(v, n);
    }
  }

  lemma LowStep(v: nat, n: nat)
    requires n > 0
    ensures Low(v, n) == 10 * Low(v / 10, n - 1) + v % 10
    ensures High(v, n) == High(v / 10, n - 1)
  {
    var p := Pow10(n - 1);
    DivideNat(v / 10, p);
    ModByParts(v, p, (v / 10) / p, (v / 10) % p, v % 10);
  }

  lemma ModByParts(v: nat, p: nat, q: nat, r: nat, d: nat)
    requires p > 0 && r < p && d < 10 && v == 10 * (p * q + r) + d
    ensures v % (10 * p) == 10 * r + d && v / (10 * p) == q
  {
    assert v == (10 * p) * q + (10 * r + d);
    ModUnique(v, 10 * p, q, 10 * r + d);
  }

  lemma MultipleAtLeast(m: int, k: int)
    requires m > 0
    ensures k >= 1 ==> m * k >= m
    ensures k <= -1 ==> m * k <= -m
  {
    if k >= 1 {
      assert m * (k - 1) >= 0;
    } else if k <= -1 {
      assert m * (-1 - k) >= 0;
    }
  }

  lemma ModUnique(v: int, m: int, q: int, r: int)
    requires m > 0 && 0 <= r < m && v == m * q + r
    ensures v % m == r && v / m == q
  {
    var (q', r') := (v / m, v % m);
    assert v == m * q' + r';
    assert m * (q - q') == m * q - m * q';
    MultipleAtLeast(m, q - q');
  }

  /** The part of a number before a decimal point with `s` digits behind it. */
  function High(v: nat, s: nat): nat {
    DivideNat(v, Pow10(s));
    v / Pow10(s)
  }

  /** The `s` digits behind the decimal point. */
  function Low(v: nat, s: nat): nat {
    v % Pow10(s)
  }

  lemma DivideNat(v: nat, p: nat)
    requires p > 0
    ensures v / p >= 0 && 0 <= v % p < p && v == p * (v / p) + v % p
  {
    MultipleAtLeast(p, v / p);
  }

  lemma {:induction false} FixedDigitsOfZero(n: nat)
    ensures FixedDigits(0, n) == Zeros(n)
  {
    if n > 0 {
      FixedDigitsOfZero(n - 1);
    }
  }

  /** Right-justifying the plain digits gives the fixed-width digits of a number that fits. */
  lemma {:induction false} JustifiedDigits(v: nat, n: nat)
    requires n >= 1 && v < Pow10(n)
    ensures |IntDigits(v)| <= n && RJust(IntDigits(v), n) == FixedDigits(v, n)
  {
    if v < 10 {
      FixedDigitsOfZero(n - 1);
      assert FixedDigits(v, n) == FixedDigits(0, n - 1) + [v];
    } else {
      assert n >= 2;
      JustifiedDigits(v / 10, n - 1);
      var front := IntDigits(v / 10);
      assert RJust(front + [v % 10], n) == RJust(front, n - 1) + [v % 10];
    }
  }

  /** A fixed-width digit list splits at any decimal point. */
  lemma {:induction false} SplitDigits(v: nat, m: nat, s: nat)
    ensures FixedDigits(v, m + s) == FixedDigits(High(v, s), m) + FixedDigits(v, s)
  {
    if s > 0 {
      SplitDigits(v / 10, m, s - 1);
      LowStep(v, s);
    }
  }

  lemma {:induction false} LowDigits(v: nat, s: nat)
    ensures FixedDigits(Low(v, s), s) == FixedDigits(v, s)
  {
    if s > 0 {
      LowStep(v, s);
      LowDigits(v / 10, s - 1);
    }
  }

  lemma {:induction false} ToIntPrepend(n: nat, ds: seq<int>)
    ensures ToInt(Zeros(n) + ds) == ToInt(ds)
  {
    if ds == [] {
      if n > 0 {
        assert (Zeros(n) + ds)[..n - 1] == Zeros(n - 1) + [];
        ToIntPrepend(n - 1, []);
      } else {
        assert Zeros(n) + ds == [];
      }
    } else {
      var k := |ds| - 1;
      assert (Zeros(n) + ds)[..n + k] == Zeros(n) + ds[..k];
      ToIntPrepend(n, ds[..k]);
    }
  }
}
