/** The figures of every claim of a batch, in plain arithmetic over the history rows, the results of the
    claims before it, and its own items and terms. */
module ClaimFigures {
  import opened Common
  import opened OccurrenceLedger
  import opened Batches
  import opened Sums
  import opened Strings
  import Payments

  // ---------------------------------------------------------------- processing order

  /** The claims of a batch are processed by loss date, then by received date, then by claim id. */
  lemma ProcessingOrder(claims: seq<Claim>, batch: string, i: nat, j: nat)
    requires i < j < |BatchClaims(claims, batch)|
    ensures var (c, d) := (BatchClaims(claims, batch)[i], BatchClaims(claims, batch)[j]);
      c.loss < d.loss || (c.loss == d.loss && (c.received < d.received || (c.received == d.received && !StringLess(d.id, c.id))))
  {
    hide BatchClaims;
    BatchClaimsInOrder(claims, batch);
  }

  // ---------------------------------------------------------------- earlier activity as sums

  /** An amount summed over the rows of the occurrence that belong to other batches. */
  function OverHistory(history: seq<HistoryRow>, batch: string, occ: string, amount: HistoryRow -> int): int {
    SumTo(|history|, k =>
      if 0 <= k < |history| && history[k].occurrence == occ && history[k].batch != batch then amount(history[k]) else 0)
  }

  /** An amount summed over the results of the occurrence. */
  function OverResults(results: seq<Expected>, occ: string, amount: Expected -> int): int {
    SumTo(|results|, k => if 0 <= k < |results| && results[k].occurrence == occ then amount(results[k]) else 0)
  }

  lemma OverHistoryStep(history: seq<HistoryRow>, batch: string, occ: string, amount: HistoryRow -> int)
    requires history != []
    ensures var (n, h) := (|history| - 1, history[|history| - 1]);
      OverHistory(history, batch, occ, amount)
        == OverHistory(history[..n], batch, occ, amount) + if h.occurrence == occ && h.batch != batch then amount(h) else 0
  {
    var n := |history| - 1;
    var front := history[..n];
    SumToSame(n,
      k => if 0 <= k < |history| && history[k].occurrence == occ && history[k].batch != batch then amount(history[k]) else 0,
      k => if 0 <= k < |front| && front[k].occurrence == occ && front[k].batch != batch then amount(front[k]) else 0);
  }

  lemma OverResultsStep(results: seq<Expected>, e: Expected, occ: string, amount: Expected -> int)
    ensures OverResults(results + [e], occ, amount)
         == OverResults(results, occ, amount) + if e.occurrence == occ then amount(e) else 0
  {
    var all := results + [e];
    SumToSame(|results|,
      k => if 0 <= k < |all| && all[k].occurrence == occ then amount(all[k]) else 0,
      k => if 0 <= k < |results| && results[k].occurrence == occ then amount(results[k]) else 0);
  }

  /** Posting adds to the occurrence it is made on and to no other. */
  lemma Posted(b: Books, at: string, indemnity: nat, deductible: nat, attributed: map<string, nat>, occ: string, category: string)
    ensures var b' := Post(b, at, indemnity, deductible, attributed);
      && PaidOn(b', occ) == PaidOn(b, occ) + (if at == occ then indemnity else 0)
      && AbsorbedOn(b', occ) == AbsorbedOn(b, occ) + (if at == occ then deductible else 0)
      && AttributedOn(b', occ, category) == AttributedOn(b, occ, category) + (if at == occ then Get(attributed, category) else 0)
  {}

  lemma {:induction false} OpeningSums(history: seq<HistoryRow>, batch: string, occ: string, category: string)
    ensures var b := Opening(history, batch);
      && PaidOn(b, occ) == OverHistory(history, batch, occ, (h: HistoryRow) => h.indemnity)
      && AbsorbedOn(b, occ) == OverHistory(history, batch, occ, (h: HistoryRow) => h.deductible)
      && AttributedOn(b, occ, category) == OverHistory(history, batch, occ, (h: HistoryRow) => Get(h.attributed, category))
  {
    hide OverHistory, PaidOn, AbsorbedOn, AttributedOn, Post, Get;
    if history == [] {
      NoHistory(batch, occ, category);
    } else {
      var (n, h) := (|history| - 1, history[|history| - 1]);
      OpeningSums(history[..n], batch, occ, category);
      OverHistoryStep(history, batch, occ, (h: HistoryRow) => h.indemnity);
      OverHistoryStep(history, batch, occ, (h: HistoryRow) => h.deductible);
      OverHistoryStep(history, batch, occ, (h: HistoryRow) => Get(h.attributed, category));
      Posted(Opening(history[..n], batch), h.occurrence, h.indemnity, h.deductible, h.attributed, occ, category);
    }
  }

  lemma NoHistory(batch: string, occ: string, category: string)
    ensures PaidOn(EMPTY, occ) == 0 && AbsorbedOn(EMPTY, occ) == 0 && AttributedOn(EMPTY, occ, category) == 0
    ensures forall amount: HistoryRow -> int :: OverHistory([], batch, occ, amount) == 0
    ensures forall amount: Expected -> int :: OverResults([], occ, amount) == 0
  {}

  /** After any claims the books hold the opening amounts plus those of the results. */
  lemma {:induction false} BookSums(b: Books, claims: seq<Claim>, occ: string, category: string)
    ensures var (b', results) := (After(b, claims), Results(b, claims));
      && PaidOn(b', occ) == PaidOn(b, occ) + OverResults(results, occ, (e: Expected) => e.indemnity)
      && AbsorbedOn(b', occ) == AbsorbedOn(b, occ) + OverResults(results, occ, (e: Expected) => e.deductible)
      && AttributedOn(b', occ, category) == AttributedOn(b, occ, category) + OverResults(results, occ, (e: Expected) => Get(e.attributed, category))
  {
    hide OverResults, PaidOn, AbsorbedOn, AttributedOn, Post, Get, Settle;
    if claims == [] {
      NoHistory("", occ, category);
    } else {
      var (n, c) := (|claims| - 1, claims[|claims| - 1]);
      var before := After(b, claims[..n]);
      var (front, e) := (Results(b, claims[..n]), Settle(before, c));
      BookSums(b, claims[..n], occ, category);
      OverResultsStep(front, e, occ, (x: Expected) => x.indemnity);
      OverResultsStep(front, e, occ, (x: Expected) => x.deductible);
      OverResultsStep(front, e, occ, (x: Expected) => Get(x.attributed, category));
      Posted(before, e.occurrence, e.indemnity, e.deductible, e.attributed, occ, category);
      UncoveredIsZero(before, c, category);
    }
  }

  lemma UncoveredIsZero(b: Books, c: Claim, category: string)
    ensures var e := Settle(b, c);
      e.status == NoCoverage ==> e.indemnity == 0 && e.deductible == 0 && Get(e.attributed, category) == 0
  {
    hide SumMap, PerCategory, Attribute;
  }

  // ---------------------------------------------------------------- the items of a claim

  function GrossOf(items: seq<Item>): int {
    SumTo(|items|, k => if 0 <= k < |items| then items[k].acv else 0)
  }

  function ClaimedIn(items: seq<Item>, category: string): int {
    SumTo(|items|, k => if 0 <= k < |items| && items[k].category == category then items[k].acv else 0)
  }

  lemma {:induction false} ClaimedTotal(items: seq<Item>, category: string)
    ensures ItemTotal(items, category) == ClaimedIn(items, category)
  {
    if items != [] {
      var n := |items| - 1;
      var front := items[..n];
      ClaimedTotal(front, category);
      SumToSame(n, k => if 0 <= k < |items| && items[k].category == category then items[k].acv else 0,
                k => if 0 <= k < |front| && front[k].category == category then front[k].acv else 0);
    }
  }

  lemma GrossStep(items: seq<Item>)
    requires items != []
    ensures GrossOf(items) == GrossOf(items[..|items| - 1]) + items[|items| - 1].acv
  {
    var front := items[..|items| - 1];
    SumToSame(|front|, k => if 0 <= k < |items| then items[k].acv else 0, k => if 0 <= k < |front| then front[k].acv else 0);
  }

  /** The amounts per category add up to the items. */
  lemma {:induction false} GrossTotal(items: seq<Item>)
    ensures SumMap(PerCategory(items)) == GrossOf(items)
  {
    if items == [] {
      assert PerCategory(items) == map[];
    } else {
      hide SumMap, PerCategory, GrossOf;
      var n := |items| - 1;
      GrossTotal(items[..n]);
      AmountsOneMore(items, n);
      assert items[..n + 1] == items;
      Payments.SumMapAdd(PerCategory(items[..n]), items[n].category, items[n].acv);
      GrossStep(items);
    }
  }

  // ---------------------------------------------------------------- the figures of one claim

  lemma {:induction false} ResultAt(b: Books, claims: seq<Claim>, k: nat)
    requires k < |claims|
    ensures Results(b, claims)[k] == Settle(After(b, claims[..k]), claims[k])
    ensures Results(b, claims[..k]) == Results(b, claims)[..k]
  {
    hide Settle, After;
    var n := |claims| - 1;
    if k < n {
      ResultAt(b, claims[..n], k);
      assert claims[..n][..k] == claims[..k];
    }
  }

  /** Every claim has one result, under its id, occurrence, policy and state. Without a version in force it
      has no coverage and every figure is zero; otherwise it names the version and the days late, and is
      paid exactly when there is an indemnity. */
  lemma {:induction false} ResultHeads(b: Books, claims: seq<Claim>, k: nat)
    requires k < |claims|
    ensures var (e, c) := (Results(b, claims)[k], claims[k]);
      && e.claim == c.id && e.occurrence == c.occurrence && e.policy == c.policy && e.state == c.state
      && (c.terms.None? ==>
            && e.status == NoCoverage && e.version == None && e.attributed == map[] && e.daysLate == 0
            && e.gross == 0 && e.reduction == 0 && e.deductible == 0 && e.indemnity == 0 && e.interest == 0)
      && (c.terms.Some? ==>
            && e.version == Some(c.version) && e.daysLate == c.daysLate
            && e.status == if e.indemnity > 0 then Paid else ZeroPayment)
  {
    hide SumMap, PerCategory, Attribute, Results, After;
    ResultAt(b, claims, k);
  }

  /** Each category of the items is attributed what was claimed in it or what its sublimit still leaves,
      whichever is less, given the rows of other batches and the results before; the gross amount is the sum
      of the items, and the reduction is what the sublimits cut. */
  lemma {:induction false} AttributedFigures(history: seq<HistoryRow>, batch: string, claims: seq<Claim>, k: nat, category: string)
    requires k < |claims| && claims[k].terms.Some?
    ensures var (results, c) := (Results(Opening(history, batch), claims), claims[k]);
      var (e, sublimits) := (results[k], c.terms.value.sublimits);
      var prior := OverHistory(history, batch, c.occurrence, (h: HistoryRow) => Get(h.attributed, category))
        + OverResults(results[..k], c.occurrence, (e: Expected) => Get(e.attributed, category));
      var claimed := ClaimedIn(c.items, category);
      && e.gross == GrossOf(c.items) == e.reduction + SumMap(e.attributed)
      && (category in e.attributed <==> exists i :: i in c.items && i.category == category)
      && (category in e.attributed ==>
            if category !in sublimits then e.attributed[category] == claimed
            else if sublimits[category] <= prior then e.attributed[category] == 0
            else if claimed <= sublimits[category] - prior then e.attributed[category] == claimed
            else e.attributed[category] == sublimits[category] - prior)
  {
    hide SumMap, Results, After, OverHistory, OverResults, GrossOf, ClaimedIn, ItemTotal, Opening, Deduct, Indemnify, InterestOn;
    var (b, c) := (Opening(history, batch), claims[k]);
    ResultAt(b, claims, k);
    OpeningSums(history, batch, c.occurrence, category);
    BookSums(b, claims[..k], c.occurrence, category);
    GrossTotal(c.items);
    ClaimedTotal(c.items, category);
    SettledCategory(After(b, claims[..k]), c, category);
  }

  lemma SettledCategory(b: Books, c: Claim, category: string)
    requires c.terms.Some?
    ensures var e := Settle(b, c);
      && e.gross == SumMap(PerCategory(c.items)) == e.reduction + SumMap(e.attributed)
      && (category in e.attributed <==> exists i :: i in c.items && i.category == category)
      && (category in e.attributed ==>
            e.attributed[category] == Fitting(c.terms.value, category, AttributedOn(b, c.occurrence, category), ItemTotal(c.items, category)))
  {
    hide SumMap, Fitting, ItemTotal, Deduct, Indemnify, InterestOn;
    AttributedAtMost(c.terms.value, CategoriesOn(b, c.occurrence), PerCategory(c.items));
  }

  /** The deductible takes what is left of it, at most the covered amount; the indemnity is the rest of the
      covered amount, at most what is left of the limit. What was absorbed and paid before is counted over
      the rows of other batches and the results before. */
  lemma {:induction false} MoneyFigures(history: seq<HistoryRow>, batch: string, claims: seq<Claim>, k: nat)
    requires k < |claims| && claims[k].terms.Some?
    ensures var (results, c) := (Results(Opening(history, batch), claims), claims[k]);
      var (e, terms) := (results[k], c.terms.value);
      var absorbed := OverHistory(history, batch, c.occurrence, (h: HistoryRow) => h.deductible)
        + OverResults(results[..k], c.occurrence, (e: Expected) => e.deductible);
      var paid := OverHistory(history, batch, c.occurrence, (h: HistoryRow) => h.indemnity)
        + OverResults(results[..k], c.occurrence, (e: Expected) => e.indemnity);
      var covered := e.gross - e.reduction;
      && (if terms.deductible <= absorbed then e.deductible == 0
          else if terms.deductible - absorbed <= covered then e.deductible == terms.deductible - absorbed
          else e.deductible == covered)
      && (if terms.limit <= paid then e.indemnity == 0
          else if covered - e.deductible <= terms.limit - paid then e.indemnity == covered - e.deductible
          else e.indemnity == terms.limit - paid)
  {
    hide SumMap, Results, After, OverHistory, OverResults, PerCategory, Attribute, Opening, InterestOn;
    var (b, c) := (Opening(history, batch), claims[k]);
    ResultAt(b, claims, k);
    OpeningSums(history, batch, c.occurrence, "");
    BookSums(b, claims[..k], c.occurrence, "");
    AttributedAtMost(c.terms.value, CategoriesOn(After(b, claims[..k]), c.occurrence), PerCategory(c.items));
  }

  lemma CancelYear(x: int, y: int)
    ensures 365 * x <= 365 * y <==> x <= y
    ensures 365 * x < 365 * y <==> x < y
  {}

  /** Interest is nothing without a rate, an indemnity or a day of delay. Otherwise it is the whole number of
      cents nearest to rate percent a year of the indemnity for the days late, halves up: with a year of 365
      days, so that 365 days late cost exactly the rate. */
  lemma {:induction false} InterestFigures(b: Books, claims: seq<Claim>, k: nat)
    requires k < |claims| && claims[k].terms.Some?
    ensures var (e, c) := (Results(b, claims)[k], claims[k]);
      (c.rate.None? || e.indemnity == 0 || c.daysLate == 0 ==> e.interest == 0)
    ensures var (e, c) := (Results(b, claims)[k], claims[k]);
      c.rate.Some? ==>
        var (num, den) := (c.rate.value.num, c.rate.value.den);
        && 2 * (365 * 100 * den) * e.interest <= 2 * (e.indemnity * num * c.daysLate) + 365 * 100 * den
        && 2 * (e.indemnity * num * c.daysLate) + 365 * 100 * den < 2 * (365 * 100 * den) * (e.interest + 1)
    ensures var (e, c) := (Results(b, claims)[k], claims[k]);
      c.rate.Some? && c.daysLate == 365 ==>
        var (num, den) := (c.rate.value.num, c.rate.value.den);
        2 * (100 * den) * e.interest <= 2 * (e.indemnity * num) + 100 * den < 2 * (100 * den) * (e.interest + 1)
  {
    hide SumMap, PerCategory, Attribute, Results, After, HalfUp;
    ResultAt(b, claims, k);
    var (e, c) := (Results(b, claims)[k], claims[k]);
    if c.rate.Some? {
      var (num, den) := (c.rate.value.num, c.rate.value.den);
      InterestBounds(c.rate.value, e.indemnity, c.daysLate);
      if c.daysLate == 365 {
        FullYear(e.indemnity * num, den, e.interest);
      }
    }
  }

  lemma InterestBounds(rate: Rate, indemnity: nat, daysLate: nat)
    ensures var (r, den) := (InterestOn(Some(rate), indemnity, daysLate), rate.den);
      && 2 * (365 * 100 * den) * r <= 2 * (indemnity * rate.num * daysLate) + 365 * 100 * den
      && 2 * (indemnity * rate.num * daysLate) + 365 * 100 * den < 2 * (365 * 100 * den) * (r + 1)
  {
    hide HalfUp;
  }

  lemma FullYear(x: nat, den: Positive, r: nat)
    requires 2 * (365 * 100 * den) * r <= 2 * (x * 365) + 365 * 100 * den < 2 * (365 * 100 * den) * (r + 1)
    ensures 2 * (100 * den) * r <= 2 * x + 100 * den < 2 * (100 * den) * (r + 1)
  {
    assert 2 * (365 * 100 * den) * r == 365 * (2 * (100 * den) * r);
    assert 2 * (365 * 100 * den) * (r + 1) == 365 * (2 * (100 * den) * (r + 1));
    CancelYear(2 * (100 * den) * r, 2 * x + 100 * den);
    CancelYear(2 * x + 100 * den, 2 * (100 * den) * (r + 1));
  }
}
