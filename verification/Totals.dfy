/** Posting transactions and keeping batch totals, every running amount fitted to its PIC at each step.
    Money is in cents. */
module Totals {
  import opened Common
  import opened Copybook
  import opened Decimals

  const HASH_MODULUS: nat := Pow10(11)

  const ACCRUED_PIC := Pic(Num, true, 13, 2, Display)
  const FEES_PIC := Pic(Num, false, 13, 2, Display)
  const BALANCE_PIC := Pic(Num, true, 15, 2, Display)
  const PAID_PIC := Pic(Num, true, 13, 2, Display)

  /** Stores an amount of cents in a PIC with two decimals. */
  function FitCents(cents: int, p: Pic): Option<int> {
    FitToPic(Dec(cents, 2), p)
  }

  /** The two numbers differ by a multiple of `m`. */
  predicate Same(a: int, b: int, m: nat)
    requires m > 0
  {
    (a - b) % m == 0
  }

  lemma SameByMultiple(a: int, b: int, m: nat, k: int)
    requires m > 0 && a - b == m * k
    ensures Same(a, b, m)
  {
    ModUnique(a - b, m, k, 0);
  }

  lemma SameAdd(a: int, b: int, c: int, d: int, m: nat)
    requires m > 0 && Same(a, b, m) && Same(c, d, m)
    ensures Same(a + c, b + d, m) && Same(a - c, b - d, m)
  {
    var (j, k) := ((a - b) / m, (c - d) / m);
    SameByMultiple(a + c, b + d, m, j + k);
    SameByMultiple(a - c, b - d, m, j - k);
  }

  lemma SameTrans(a: int, b: int, c: int, m: nat)
    requires m > 0 && Same(a, b, m) && Same(b, c, m)
    ensures Same(a, c, m)
  {
    SameAdd(a, b, 0, 0, m);
    var (j, k) := ((a - b) / m, (b - c) / m);
    SameByMultiple(a, c, m, j + k);
  }

  lemma SameRefl(a: int, m: nat)
    requires m > 0
    ensures Same(a, a, m)
  {
    SameByMultiple(a, a, m, 0);
  }

  /** Fitting drops whole multiples of the PIC's capacity and nothing else, sign kept. */
  lemma FitDropsMultiples(cents: int, p: Pic)
    requires p.scale == 2 && FitCents(cents, p).Some? && (p.signed || cents >= 0)
    ensures Same(cents, FitCents(cents, p).value, Pow10(p.digits))
    ensures Abs(FitCents(cents, p).value) < Pow10(p.digits)
  {
    hide Pow10, Low;
    var m := Pow10(p.digits);
    CentsUnscaled(cents);
    FitMeaning(Dec(cents, 2), p);
    DivideNat(Abs(cents), m);
    LowIs(Abs(cents), p.digits);
    var k: int := Abs(cents) / m;
    assert m * (0 - k) == 0 - m * k;
    SameByMultiple(cents, FitCents(cents, p).value, m, if cents < 0 then 0 - k else k);
  }

  lemma LowIs(v: nat, n: nat)
    ensures Low(v, n) == v % Pow10(n)
  {}

  lemma CentsUnscaled(cents: int)
    ensures Quantize(Dec(cents, 2), 2) == cents
  {
    assert cents * Pow10(0) == cents;
  }

  /** An amount is stored unchanged exactly when it is within the PIC's capacity. */
  lemma FitKeeps(cents: int, p: Pic)
    requires p.scale == 2 && p.digits <= PRECISION && (p.signed || cents >= 0)
    ensures FitCents(cents, p) == Some(cents) <==> Abs(cents) < Pow10(p.digits)
  {
    hide Pow10, Low;
    CentsUnscaled(cents);
    FitMeaning(Dec(cents, 2), p);
    LowFits(Abs(cents), p.digits);
    PowerGrows(p.digits, PRECISION);
  }

  lemma {:induction false} PowerGrows(m: nat, n: nat)
    requires m <= n
    ensures Pow10(m) <= Pow10(n)
  {
    if m < n {
      PowerGrows(m, n - 1);
    }
  }

  // ---------------------------------------------------------------- running totals

  /** A running total that starts at zero and is fitted after every addition. */
  function Fold(xs: seq<int>, p: Pic): Option<int> {
    if xs == [] then Some(0)
    else
      match Fold(xs[..|xs| - 1], p)
      case None => None
      case Some(total) => FitCents(total + xs[|xs| - 1], p)
  }

  function Sum(xs: seq<int>): int {
    if xs == [] then 0 else Sum(xs[..|xs| - 1]) + xs[|xs| - 1]
  }

  lemma FoldAppend(xs: seq<int>, x: int, p: Pic)
    ensures Fold(xs + [x], p) == match Fold(xs, p) case None => None case Some(total) => FitCents(total + x, p)
    ensures Sum(xs + [x]) == Sum(xs) + x
  {
    hide FitCents;
    assert (xs + [x])[..|xs|] == xs;
  }

  /** A signed running total is the exact sum up to a multiple of its capacity, whatever overflowed. */
  lemma {:induction false} SignedTotal(xs: seq<int>, p: Pic)
    requires p.scale == 2 && p.signed && Fold(xs, p).Some?
    ensures Same(Sum(xs), Fold(xs, p).value, Pow10(p.digits))
  {
    hide FitCents, Same, Pow10;
    var m := Pow10(p.digits);
    if xs == [] {
      SameRefl(0, m);
    } else {
      var (front, x) := (xs[..|xs| - 1], xs[|xs| - 1]);
      SignedTotal(front, p);
      SameRefl(x, m);
      SameAdd(Sum(front), Fold(front, p).value, x, x, m);
      FitDropsMultiples(Fold(front, p).value + x, p);
      SameTrans(Sum(xs), Fold(front, p).value + x, Fold(xs, p).value, m);
    }
  }

  /** An unsigned running total of amounts that are not negative is the sum modulo its capacity. */
  lemma {:induction false} UnsignedTotal(xs: seq<int>, p: Pic)
    requires p.scale == 2 && !p.signed && Fold(xs, p).Some?
    requires forall k :: 0 <= k < |xs| ==> xs[k] >= 0
    ensures Sum(xs) >= 0 && Fold(xs, p).value == Sum(xs) % Pow10(p.digits)
  {
    hide FitCents, Pow10;
    var m := Pow10(p.digits);
    if xs == [] {
      ModUnique(0, m, 0, 0);
    } else {
      var (front, x) := (xs[..|xs| - 1], xs[|xs| - 1]);
      UnsignedTotal(front, p);
      CentsModulo(Fold(front, p).value + x, p);
      ModAdd(Sum(front), x, m);
    }
  }

  lemma CentsModulo(cents: nat, p: Pic)
    requires p.scale == 2 && FitCents(cents, p).Some?
    ensures FitCents(cents, p).value == cents % Pow10(p.digits)
  {
    hide Pow10, Low;
    CentsUnscaled(cents);
    FitMeaning(Dec(cents, 2), p);
    LowIs(cents, p.digits);
  }

  lemma ModAdd(a: int, b: int, m: nat)
    requires m > 0
    ensures (a % m + b) % m == (a + b) % m
  {
    var (q, r) := (a / m, (a % m + b) % m);
    ModUnique(a + b, m, q + (a % m + b) / m, r);
  }

  /** Every running total is exact exactly when no exact partial sum is beyond the capacity. */
  lemma {:induction false} ExactTotals(xs: seq<int>, p: Pic)
    requires p.scale == 2 && p.signed && p.digits <= PRECISION
    ensures (forall k :: 0 <= k <= |xs| ==> Fold(xs[..k], p) == Some(Sum(xs[..k])))
       <==> (forall k :: 0 <= k <= |xs| ==> Abs(Sum(xs[..k])) < Pow10(p.digits))
  {
    hide FitCents, Pow10, Fold, Sum;
    forall k | 0 <= k <= |xs| && Fold(xs[..k], p) == Some(Sum(xs[..k]))
      ensures Abs(Sum(xs[..k])) < Pow10(p.digits)
    {
      TotalInRange(xs[..k], p);
    }
    if forall k :: 0 <= k <= |xs| ==> Abs(Sum(xs[..k])) < Pow10(p.digits) {
      forall k | 0 <= k <= |xs|
        ensures Fold(xs[..k], p) == Some(Sum(xs[..k]))
      {
        ExactUpTo(xs, k, p);
      }
    }
  }

  lemma TotalInRange(xs: seq<int>, p: Pic)
    requires Fold(xs, p).Some?
    ensures Abs(Fold(xs, p).value) < Pow10(p.digits)
  {
    if xs != [] {
      FitInRange(Dec(Fold(xs[..|xs| - 1], p).value + xs[|xs| - 1], 2), p);
    }
  }

  lemma {:induction false} ExactUpTo(xs: seq<int>, k: nat, p: Pic)
    requires p.scale == 2 && p.signed && p.digits <= PRECISION && k <= |xs|
    requires forall j :: 0 <= j <= k ==> Abs(Sum(xs[..j])) < Pow10(p.digits)
    ensures Fold(xs[..k], p) == Some(Sum(xs[..k]))
  {
    hide FitCents, Pow10;
    if k > 0 {
      ExactUpTo(xs, k - 1, p);
      assert xs[..k][..k - 1] == xs[..k - 1];
      FitKeeps(Sum(xs[..k]), p);
    }
  }

  /** Amounts that leave room in the decimal context never stop a run. */
  lemma {:induction false} TotalsDefined(xs: seq<int>, p: Pic)
    requires p.scale == 2 && forall k :: 0 <= k < |xs| ==> Abs(xs[k]) + Pow10(p.digits) <= Pow10(PRECISION)
    ensures Fold(xs, p).Some?
  {
    hide Pow10;
    if xs != [] {
      var (front, x) := (xs[..|xs| - 1], xs[|xs| - 1]);
      TotalsDefined(front, p);
      TotalInRange(front, p);
      CentsUnscaled(Fold(front, p).value + x);
    }
  }
}
