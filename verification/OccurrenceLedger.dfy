/** Contents claims against an occurrence: how much was paid, absorbed by the deductible and
    attributed per category, claim after claim and batch after batch. All money is cents. */
module OccurrenceLedger {
  import opened Common

  /** A line item with its category and actual cash value. */
  datatype Item = Item(category: string, acv: nat)

  /** The terms of the version in force on the loss date. */
  datatype Terms = Terms(limit: nat, deductible: nat, sublimits: map<string, nat>)

  type Positive = n: nat | n > 0 witness 1

  /** An annual interest rate of num / den percent. */
  datatype Rate = Rate(num: nat, den: Positive)

  /** `terms` is None when no version was in force: the claim has no coverage; `version` names the version.
      `daysLate` counts the days from the payment deadline to the as-of date, and `rate` is None in states
      without interest. */
  datatype Claim = Claim(id: string, occurrence: string, policy: string, state: string, batch: string, loss: int, received: int,
    items: seq<Item>, version: string, terms: Option<Terms>, daysLate: nat, rate: Option<Rate>)

  datatype HistoryRow = HistoryRow(claim: string, occurrence: string, batch: string, indemnity: nat, deductible: nat, attributed: map<string, nat>)

  datatype Status = Paid | ZeroPayment | NoCoverage

  datatype Expected = Expected(claim: string, occurrence: string, policy: string, state: string, status: Status, version: Option<string>,
    gross: nat, reduction: nat, deductible: nat, indemnity: nat, daysLate: nat, interest: nat, attributed: map<string, nat>)

  // ---------------------------------------------------------------- sums over categories

  function Get<K>(m: map<K, nat>, key: K): nat {
    if key in m then m[key] else 0
  }

  ghost function SumOver(s: set<string>, f: string -> int): int {
    if s == {} then 0 else var c :| c in s; f(c) + SumOver(s - {c}, f)
  }

  lemma {:induction false} SumSplit(s: set<string>, f: string -> int, c: string)
    requires c in s
    ensures SumOver(s, f) == f(c) + SumOver(s - {c}, f)
    decreases s
  {
    var d :| d in s && SumOver(s, f) == f(d) + SumOver(s - {d}, f);
    if c != d {
      SumSplit(s - {d}, f, c);
      SumSplit(s - {c}, f, d);
      assert s - {d} - {c} == s - {c} - {d};
    }
  }

  /** Sums are additive, and ignore members where the summand is zero. */
  lemma {:induction false} SumAdd(s: set<string>, f: string -> int, g: string -> int, h: string -> int)
    requires forall c :: c in s ==> h(c) == f(c) + g(c)
    ensures SumOver(s, h) == SumOver(s, f) + SumOver(s, g)
    decreases s
  {
    if s != {} {
      var c :| c in s;
      SumSplit(s, f, c);
      SumSplit(s, g, c);
      SumSplit(s, h, c);
      SumAdd(s - {c}, f, g, h);
    }
  }

  lemma {:induction false} SumWiden(s: set<string>, t: set<string>, f: string -> int, g: string -> int)
    requires s <= t
    requires forall c :: c in s ==> f(c) == g(c)
    requires forall c :: c in t - s ==> g(c) == 0
    ensures SumOver(t, g) == SumOver(s, f)
    decreases t
  {
    if t != {} {
      var c :| c in t;
      SumSplit(t, g, c);
      if c in s {
        SumSplit(s, f, c);
        SumWiden(s - {c}, t - {c}, f, g);
      } else {
        assert s == s - {c};
        SumWiden(s, t - {c}, f, g);
      }
    }
  }

  /** A sum splits over a part of its index set and the rest. */
  lemma {:induction false} SumParts(s: set<string>, t: set<string>, f: string -> int)
    requires t <= s
    ensures SumOver(s, f) == SumOver(t, f) + SumOver(s - t, f)
    decreases t
  {
    if t == {} {
      assert s - t == s;
    } else {
      var c :| c in t;
      SumSplit(s, f, c);
      SumSplit(t, f, c);
      SumParts(s - {c}, t - {c}, f);
      assert s - {c} - (t - {c}) == s - t;
    }
  }

  /** A sum of amounts that are not negative is zero exactly when each of them is. */
  lemma {:induction false} SumZero(s: set<string>, f: string -> int)
    requires forall c :: f(c) >= 0
    ensures SumOver(s, f) >= 0
    ensures SumOver(s, f) == 0 <==> forall c :: c in s ==> f(c) == 0
    decreases s
  {
    if s != {} {
      var c :| c in s;
      SumSplit(s, f, c);
      SumZero(s - {c}, f);
    }
  }

  ghost function SumMap(m: map<string, nat>): int {
    SumOver(m.Keys, c => Get(m, c))
  }

  method SumValues(m: map<string, nat>) returns (total: nat)
    ensures total == SumMap(m)
  {
    total := 0;
    var left := m.Keys;
    ghost var f := c => Get(m, c);
    while left != {}
      invariant left <= m.Keys
      invariant total + SumOver(left, f) == SumOver(m.Keys, f)
      decreases |left|
    {
      var c :| c in left;
      SumSplit(left, f, c);
      total := total + m[c];
      left := left - {c};
    }
  }

  // ---------------------------------------------------------------- the books

  /** The three dictionaries, keyed by occurrence. */
  datatype Books = Books(paid: map<string, nat>, absorbed: map<string, nat>, attributed: map<string, map<string, nat>>)

  const EMPTY := Books(map[], map[], map[])

  function PaidOn(b: Books, occ: string): nat {
    Get(b.paid, occ)
  }

  function AbsorbedOn(b: Books, occ: string): nat {
    Get(b.absorbed, occ)
  }

  function CategoriesOn(b: Books, occ: string): map<string, nat> {
    if occ in b.attributed then b.attributed[occ] else map[]
  }

  function AttributedOn(b: Books, occ: string, category: string): nat {
    Get(CategoriesOn(b, occ), category)
  }

  function AddAll(m: map<string, nat>, more: map<string, nat>): map<string, nat> {
    map c | c in m.Keys + more.Keys :: Get(m, c) + Get(more, c)
  }

  function Post(b: Books, occ: string, indemnity: nat, deductible: nat, attributed: map<string, nat>): Books {
    Books(
      b.paid[occ := PaidOn(b, occ) + indemnity],
      b.absorbed[occ := AbsorbedOn(b, occ) + deductible],
      b.attributed[occ := AddAll(CategoriesOn(b, occ), attributed)])
  }

  /** Books seeded from the history rows that do not belong to the batch. */
  function Opening(history: seq<HistoryRow>, batch: string): Books {
    if history == [] then EMPTY
    else
      var n := |history| - 1;
      var (b, h) := (Opening(history[..n], batch), history[n]);
      if h.batch == batch then b else Post(b, h.occurrence, h.indemnity, h.deductible, h.attributed)
  }

  // ---------------------------------------------------------------- one claim

  /** Total of the items of one category. */
  function ItemTotal(items: seq<Item>, category: string): nat {
    if items == [] then 0
    else
      var n := |items| - 1;
      ItemTotal(items[..n], category) + if items[n].category == category then items[n].acv else 0
  }

  function ItemCategories(items: seq<Item>): set<string> {
    set i | i in items :: i.category
  }

  lemma {:induction false} NoItems(items: seq<Item>, category: string)
    ensures category !in ItemCategories(items) ==> ItemTotal(items, category) == 0
  {
    if items != [] {
      var n := |items| - 1;
      NoItems(items[..n], category);
      assert items[n].category in ItemCategories(items);
      assert ItemCategories(items[..n]) <= ItemCategories(items);
    }
  }

  function PerCategory(items: seq<Item>): map<string, nat> {
    map c | c in ItemCategories(items) :: ItemTotal(items, c)
  }

  /** What of a category amount fits under the sublimit, given what was attributed before. */
  function Fitting(terms: Terms, category: string, prior: nat, amount: nat): nat {
    if category in terms.sublimits then Min(amount, Max(0, terms.sublimits[category] - prior)) else amount
  }

  function Attribute(terms: Terms, prior: map<string, nat>, amounts: map<string, nat>): map<string, nat> {
    map c | c in amounts :: Fitting(terms, c, Get(prior, c), amounts[c])
  }

  function Deduct(terms: Terms, absorbed: nat, covered: nat): nat {
    Min(Max(0, terms.deductible - absorbed), covered)
  }

  function Indemnify(terms: Terms, paid: nat, net: nat): nat {
    Min(net, Max(0, terms.limit - paid))
  }

  /** num / den rounded to the nearest whole number, halves up. */
  function HalfUp(num: nat, den: Positive): (r: nat)
    ensures 2 * den * r <= 2 * num + den < 2 * den * (r + 1)
  {
    (2 * num + den) / (2 * den)
  }

  /** Simple interest on a late payment, in cents: indemnity times the yearly rate times days over 365. */
  function InterestOn(rate: Option<Rate>, indemnity: nat, daysLate: nat): nat {
    if rate.None? || indemnity == 0 || daysLate == 0 then 0
    else
      HalfUp(indemnity * rate.value.num * daysLate, 36500 * rate.value.den)
  }

  /** A claim without coverage. */
  function Uncovered(c: Claim): Expected {
    Expected(c.id, c.occurrence, c.policy, c.state, NoCoverage, None, 0, 0, 0, 0, 0, 0, map[])
  }

  ghost function Settle(b: Books, c: Claim): Expected {
    if c.terms.None? then Uncovered(c)
    else
      var amounts := PerCategory(c.items);
      var attributed := Attribute(c.terms.value, CategoriesOn(b, c.occurrence), amounts);
      AttributedAtMost(c.terms.value, CategoriesOn(b, c.occurrence), amounts);
      var (gross, covered) := (SumMap(amounts), SumMap(attributed));
      var deductible := Deduct(c.terms.value, AbsorbedOn(b, c.occurrence), covered);
      var indemnity := Indemnify(c.terms.value, PaidOn(b, c.occurrence), covered - deductible);
      Expected(c.id, c.occurrence, c.policy, c.state, if indemnity > 0 then Paid else ZeroPayment, Some(c.version),
               gross, gross - covered, deductible, indemnity, c.daysLate, InterestOn(c.rate, indemnity, c.daysLate), attributed)
  }

  lemma {:induction false} SumNonNegative(s: set<string>, f: string -> int)
    requires forall c :: f(c) >= 0
    ensures SumOver(s, f) >= 0
    decreases s
  {
    if s != {} {
      var c :| c in s;
      SumSplit(s, f, c);
      SumNonNegative(s - {c}, f);
    }
  }

  lemma AttributedAtMost(terms: Terms, prior: map<string, nat>, amounts: map<string, nat>)
    ensures 0 <= SumMap(Attribute(terms, prior, amounts)) <= SumMap(amounts)
  {
    var attributed := Attribute(terms, prior, amounts);
    var f, g := c => Get(attributed, c), c => Get(amounts, c);
    var rest := c => Get(amounts, c) - Get(attributed, c);
    assert attributed.Keys == amounts.Keys;
    forall c
      ensures rest(c) >= 0 && g(c) == f(c) + rest(c)
    {}
    SumAdd(amounts.Keys, f, rest, g);
    SumNonNegative(amounts.Keys, f);
    SumNonNegative(amounts.Keys, rest);
  }

  /** A claim without coverage leaves no record. */
  function PostResult(b: Books, e: Expected): Books {
    if e.status == NoCoverage then b else Post(b, e.occurrence, e.indemnity, e.deductible, e.attributed)
  }

  // ---------------------------------------------------------------- a sequence of claims

  ghost function Results(b: Books, claims: seq<Claim>): (r: seq<Expected>)
    ensures |r| == |claims|
  {
    if claims == [] then []
    else
      var n := |claims| - 1;
      Results(b, claims[..n]) + [Settle(After(b, claims[..n]), claims[n])]
  }

  ghost function After(b: Books, claims: seq<Claim>): Books {
    if claims == [] then b
    else
      var n := |claims| - 1;
      PostResult(After(b, claims[..n]), Settle(After(b, claims[..n]), claims[n]))
  }
}
