/** Closed forms for an occurrence: what any sequence of its claims leaves paid, absorbed and
    attributed depends only on the amounts claimed per category. */
module OccurrenceTotals {
  import opened Common
  import opened OccurrenceLedger

  // ---------------------------------------------------------------- one category, one claim

  /** A capped quantity that grows by `more`: up to the cap, and never down. */
  function Grow(cap: int, prior: int, more: int): int {
    Max(prior, Min(cap, prior + more))
  }

  function CategoryAfter(terms: Terms, category: string, prior: nat, total: nat): nat {
    if category in terms.sublimits then Grow(terms.sublimits[category], prior, total) else prior + total
  }

  /** Growing twice is growing once by the sum. */
  lemma GrowTwice(cap: int, prior: int, x: nat, y: nat)
    ensures Grow(cap, Grow(cap, prior, x), y) == Grow(cap, prior, x + y)
    ensures prior <= Grow(cap, prior, x) <= prior + x
  {}

  lemma CategoryAfterFits(terms: Terms, category: string, prior: nat, amount: nat)
    ensures CategoryAfter(terms, category, prior, amount) == prior + Fitting(terms, category, prior, amount)
    ensures amount == 0 ==> Fitting(terms, category, prior, amount) == 0
  {}

  /** One covered claim moves each category of its occurrence to its capped total. */
  lemma CategoryStep(b: Books, c: Claim, category: string)
    requires c.terms.Some?
    ensures AttributedOn(PostResult(b, Settle(b, c)), c.occurrence, category)
         == CategoryAfter(c.terms.value, category, AttributedOn(b, c.occurrence, category), ItemTotal(c.items, category))
  {
    hide SumMap, Deduct, Indemnify, ItemTotal, Fitting, ItemCategories;
    CategoryAfterFits(c.terms.value, category, AttributedOn(b, c.occurrence, category), ItemTotal(c.items, category));
    NoItems(c.items, category);
    var prior, amounts := CategoriesOn(b, c.occurrence), PerCategory(c.items);
    var attributed := Attribute(c.terms.value, prior, amounts);
    assert Settle(b, c).attributed == attributed;
    assert CategoriesOn(PostResult(b, Settle(b, c)), c.occurrence) == AddAll(prior, attributed);
  }

  lemma OthersUntouched(b: Books, c: Claim, occ: string)
    requires c.occurrence != occ || c.terms.None?
    ensures var b' := PostResult(b, Settle(b, c));
      PaidOn(b', occ) == PaidOn(b, occ) && AbsorbedOn(b', occ) == AbsorbedOn(b, occ) && CategoriesOn(b', occ) == CategoriesOn(b, occ)
  {
    hide SumMap, Deduct, Indemnify, Attribute;
  }

  // ---------------------------------------------------------------- all categories together

  /** Growth of the attributed amounts from one state of the books to another, over the categories `s`. */
  ghost function Growth(s: set<string>, occ: string, b: Books, b': Books): int {
    SumOver(s, c => AttributedOn(b', occ, c) - AttributedOn(b, occ, c))
  }

  lemma GrowthTwice(s: set<string>, occ: string, b: Books, b1: Books, b2: Books)
    ensures Growth(s, occ, b, b2) == Growth(s, occ, b, b1) + Growth(s, occ, b1, b2)
  {
    hide AttributedOn;
    SumAdd(s, c => AttributedOn(b1, occ, c) - AttributedOn(b, occ, c), c => AttributedOn(b2, occ, c) - AttributedOn(b1, occ, c),
           c => AttributedOn(b2, occ, c) - AttributedOn(b, occ, c));
  }

  lemma NoGrowth(s: set<string>, occ: string, b: Books, b': Books)
    requires CategoriesOn(b', occ) == CategoriesOn(b, occ)
    ensures Growth(s, occ, b, b') == 0
  {
    var f := c => AttributedOn(b', occ, c) - AttributedOn(b, occ, c);
    SumAdd(s, f, f, f);
  }

  /** The covered amount of a claim is the growth it causes. */
  lemma CoveredIsGrowth(s: set<string>, b: Books, c: Claim)
    requires c.terms.Some? && ItemCategories(c.items) <= s
    ensures var e := Settle(b, c); SumMap(e.attributed) == Growth(s, c.occurrence, b, PostResult(b, e))
  {
    hide SumMap, SumOver, Deduct, Indemnify, PerCategory;
    var e := Settle(b, c);
    var prior, amounts := CategoriesOn(b, c.occurrence), PerCategory(c.items);
    AttributeKeys(c.terms.value, prior, c.items);
    assert CategoriesOn(PostResult(b, e), c.occurrence) == AddAll(prior, e.attributed);
    SumMapOver(e.attributed);
    SumWiden(e.attributed.Keys, s, x => Get(e.attributed, x),
             x => AttributedOn(PostResult(b, e), c.occurrence, x) - AttributedOn(b, c.occurrence, x));
  }

  lemma AttributeKeys(terms: Terms, prior: map<string, nat>, items: seq<Item>)
    ensures Attribute(terms, prior, PerCategory(items)).Keys == ItemCategories(items)
  {}

  lemma SumMapOver(m: map<string, nat>)
    ensures SumMap(m) == SumOver(m.Keys, x => Get(m, x))
  {}

  // ---------------------------------------------------------------- a sequence of claims

  /** What one claim adds to a category of an occurrence before any cap. */
  function Amount(c: Claim, occ: string, category: string): nat {
    if c.occurrence == occ && c.terms.Some? then ItemTotal(c.items, category) else 0
  }

  /** Covered items of the occurrence in one category, over all claims. */
  function ClaimTotal(claims: seq<Claim>, occ: string, category: string): nat {
    if claims == [] then 0
    else
      var (n, c) := (|claims| - 1, claims[|claims| - 1]);
      ClaimTotal(claims[..n], occ, category) + Amount(c, occ, category)
  }

  /** Every covered claim of the occurrence is settled under the same terms. */
  predicate SameTerms(claims: seq<Claim>, occ: string, terms: Terms) {
    forall c :: c in claims && c.occurrence == occ ==> c.terms == None || c.terms == Some(terms)
  }

  predicate WithinCategories(claims: seq<Claim>, occ: string, s: set<string>) {
    forall c :: c in claims && c.occurrence == occ ==> ItemCategories(c.items) <= s
  }

  lemma {:induction false} CategoryClosedForm(b: Books, claims: seq<Claim>, occ: string, terms: Terms, category: string)
    requires SameTerms(claims, occ, terms)
    ensures AttributedOn(After(b, claims), occ, category)
         == CategoryAfter(terms, category, AttributedOn(b, occ, category), ClaimTotal(claims, occ, category))
  {
    hide Settle, PostResult, AttributedOn, ItemTotal;
    if claims != [] {
      var (n, c) := (|claims| - 1, claims[|claims| - 1]);
      CategoryClosedForm(b, claims[..n], occ, terms, category);
      assert c in claims;
      if c.occurrence == occ && c.terms.Some? {
        CategoryStep(After(b, claims[..n]), c, category);
      } else {
        UntouchedCategory(After(b, claims[..n]), c, occ, category);
      }
    } else {
      assert CategoryAfter(terms, category, AttributedOn(b, occ, category), 0) == AttributedOn(b, occ, category);
    }
  }

  lemma UntouchedCategory(b: Books, c: Claim, occ: string, category: string)
    requires c.occurrence != occ || c.terms.None?
    ensures AttributedOn(PostResult(b, Settle(b, c)), occ, category) == AttributedOn(b, occ, category)
  {
    hide Settle, PostResult;
    OthersUntouched(b, c, occ);
  }

  /** One covered claim: what is absorbed and paid grows towards the deductible and the limit. */
  lemma MoneyStep(s: set<string>, b: Books, c: Claim)
    requires c.terms.Some? && ItemCategories(c.items) <= s
    ensures var (occ, b') := (c.occurrence, PostResult(b, Settle(b, c)));
      var covered := Growth(s, occ, b, b');
      && covered >= 0
      && AbsorbedOn(b', occ) == Grow(c.terms.value.deductible, AbsorbedOn(b, occ), covered)
      && PaidOn(b', occ) == Grow(c.terms.value.limit, PaidOn(b, occ), covered - (AbsorbedOn(b', occ) - AbsorbedOn(b, occ)))
  {
    hide SumMap, Attribute, PerCategory, Growth, AddAll;
    CoveredIsGrowth(s, b, c);
    AttributedAtMost(c.terms.value, CategoriesOn(b, c.occurrence), PerCategory(c.items));
  }

  /** The closed form of the money: for the covered total `g` of all claims together, the deductible
      absorbs as if it had met `g` at once, and the limit caps what is left of `g`. */
  ghost predicate MoneyTotals(terms: Terms, occ: string, b: Books, b': Books, g: int) {
    && g >= 0
    && AbsorbedOn(b', occ) == Grow(terms.deductible, AbsorbedOn(b, occ), g)
    && PaidOn(b', occ) == Grow(terms.limit, PaidOn(b, occ), g - (AbsorbedOn(b', occ) - AbsorbedOn(b, occ)))
  }

  lemma MoneyTwice(terms: Terms, occ: string, b: Books, b1: Books, b2: Books, x: int, y: int)
    requires MoneyTotals(terms, occ, b, b1, x) && MoneyTotals(terms, occ, b1, b2, y)
    ensures MoneyTotals(terms, occ, b, b2, x + y)
  {
    hide AbsorbedOn, PaidOn, Grow;
    GrowTwice(terms.deductible, AbsorbedOn(b, occ), x, y);
    GrowTwice(terms.deductible, AbsorbedOn(b1, occ), y, 0);
    var (p, q) := (x - (AbsorbedOn(b1, occ) - AbsorbedOn(b, occ)), y - (AbsorbedOn(b2, occ) - AbsorbedOn(b1, occ)));
    GrowTwice(terms.limit, PaidOn(b, occ), p, q);
  }

  lemma {:induction false} MoneyClosedForm(b: Books, claims: seq<Claim>, occ: string, terms: Terms, s: set<string>)
    requires SameTerms(claims, occ, terms) && WithinCategories(claims, occ, s)
    ensures MoneyTotals(terms, occ, b, After(b, claims), Growth(s, occ, b, After(b, claims)))
  {
    hide Settle, PostResult, AbsorbedOn, PaidOn, Growth, ItemCategories, Grow, CategoriesOn;
    if claims == [] {
      NoGrowth(s, occ, b, b);
      GrowTwice(terms.deductible, AbsorbedOn(b, occ), 0, 0);
      GrowTwice(terms.limit, PaidOn(b, occ), 0, 0);
    } else {
      var (n, c) := (|claims| - 1, claims[|claims| - 1]);
      var b1 := After(b, claims[..n]);
      MoneyClosedForm(b, claims[..n], occ, terms, s);
      assert c in claims;
      var b2 := PostResult(b1, Settle(b1, c));
      if c.occurrence == occ && c.terms.Some? {
        MoneyStep(s, b1, c);
        MoneyTwice(terms, occ, b, b1, b2, Growth(s, occ, b, b1), Growth(s, occ, b1, b2));
        GrowthTwice(s, occ, b, b1, b2);
      } else {
        OthersUntouched(b1, c, occ);
        NoGrowth(s, occ, b1, b2);
        GrowthTwice(s, occ, b, b1, b2);
      }
    }
  }

  /** The covered total of an occurrence, from the amounts claimed per category. */
  ghost function CoveredTotal(terms: Terms, s: set<string>, occ: string, b: Books, claims: seq<Claim>): int {
    SumOver(s, c => CategoryAfter(terms, c, AttributedOn(b, occ, c), ClaimTotal(claims, occ, c)) - AttributedOn(b, occ, c))
  }

  /** Closed form of an occurrence: after any sequence of claims under fixed terms, each category holds
      its capped total, and the absorbed deductible and the paid indemnity follow from those alone. */
  lemma ClosedForm(b: Books, claims: seq<Claim>, occ: string, terms: Terms, s: set<string>)
    requires SameTerms(claims, occ, terms) && WithinCategories(claims, occ, s)
    ensures forall c :: AttributedOn(After(b, claims), occ, c) == CategoryAfter(terms, c, AttributedOn(b, occ, c), ClaimTotal(claims, occ, c))
    ensures MoneyTotals(terms, occ, b, After(b, claims), CoveredTotal(terms, s, occ, b, claims))
  {
    hide AttributedOn, MoneyTotals, SumOver, CategoryAfter, After, ClaimTotal;
    forall c
      ensures AttributedOn(After(b, claims), occ, c) == CategoryAfter(terms, c, AttributedOn(b, occ, c), ClaimTotal(claims, occ, c))
    {
      CategoryClosedForm(b, claims, occ, terms, c);
    }
    MoneyClosedForm(b, claims, occ, terms, s);
    SumWiden(s, s, c => AttributedOn(After(b, claims), occ, c) - AttributedOn(b, occ, c),
             c => CategoryAfter(terms, c, AttributedOn(b, occ, c), ClaimTotal(claims, occ, c)) - AttributedOn(b, occ, c));
  }

  /** No total of the occurrence is above its cap. */
  predicate IsConsistent(terms: Terms, occ: string, b: Books) {
    && AbsorbedOn(b, occ) <= terms.deductible && PaidOn(b, occ) <= terms.limit
    && forall c :: c in terms.sublimits ==> AttributedOn(b, occ, c) <= terms.sublimits[c]
  }

  lemma GrowWithin(cap: int, prior: int, more: int)
    requires prior <= cap && more >= 0
    ensures Grow(cap, prior, more) == Min(cap, prior + more)
  {}

  /** From a consistent history every capped total is the plain minimum of its cap and what was asked for,
      and the books stay consistent. */
  lemma ConsistentClosedForm(b: Books, claims: seq<Claim>, occ: string, terms: Terms, s: set<string>)
    requires SameTerms(claims, occ, terms) && WithinCategories(claims, occ, s) && IsConsistent(terms, occ, b)
    ensures var (b', g) := (After(b, claims), CoveredTotal(terms, s, occ, b, claims));
      && g >= 0 && IsConsistent(terms, occ, b')
      && AbsorbedOn(b', occ) == Min(terms.deductible, AbsorbedOn(b, occ) + g)
      && PaidOn(b', occ) == Min(terms.limit, PaidOn(b, occ) + g - (AbsorbedOn(b', occ) - AbsorbedOn(b, occ)))
      && forall c :: c in terms.sublimits ==>
           AttributedOn(b', occ, c) == Min(terms.sublimits[c], AttributedOn(b, occ, c) + ClaimTotal(claims, occ, c))
  {
    hide AttributedOn, AbsorbedOn, PaidOn, After, ClaimTotal, CoveredTotal, SumOver;
    ClosedForm(b, claims, occ, terms, s);
    var (b', g) := (After(b, claims), CoveredTotal(terms, s, occ, b, claims));
    GrowWithin(terms.deductible, AbsorbedOn(b, occ), g);
    GrowWithin(terms.limit, PaidOn(b, occ), g - (AbsorbedOn(b', occ) - AbsorbedOn(b, occ)));
    forall c | c in terms.sublimits
      ensures AttributedOn(b', occ, c) == Min(terms.sublimits[c], AttributedOn(b, occ, c) + ClaimTotal(claims, occ, c))
    {
      GrowWithin(terms.sublimits[c], AttributedOn(b, occ, c), ClaimTotal(claims, occ, c));
    }
  }

  // ---------------------------------------------------------------- order and splitting do not matter

  function AllCategories(claims: seq<Claim>): set<string> {
    set c, i | c in claims && i in c.items :: i.category
  }

  /** The books agree on an occurrence. */
  ghost predicate SameOn(occ: string, x: Books, y: Books) {
    PaidOn(x, occ) == PaidOn(y, occ) && AbsorbedOn(x, occ) == AbsorbedOn(y, occ) && forall c :: AttributedOn(x, occ, c) == AttributedOn(y, occ, c)
  }

  /** Two sequences of claims with equal totals per category leave an occurrence in the same state,
      however they are ordered, split, or interleaved with claims of other occurrences. */
  lemma OnlyTotalsMatter(b: Books, claims: seq<Claim>, claims': seq<Claim>, occ: string, terms: Terms)
    requires SameTerms(claims, occ, terms) && SameTerms(claims', occ, terms)
    requires forall c :: ClaimTotal(claims, occ, c) == ClaimTotal(claims', occ, c)
    ensures SameOn(occ, After(b, claims), After(b, claims'))
  {
    hide AttributedOn, SumOver, CategoryAfter, After, ClaimTotal, Grow, AbsorbedOn, PaidOn;
    var s := AllCategories(claims) + AllCategories(claims');
    ClosedForm(b, claims, occ, terms, s);
    ClosedForm(b, claims', occ, terms, s);
    SumWiden(s, s, c => CategoryAfter(terms, c, AttributedOn(b, occ, c), ClaimTotal(claims, occ, c)) - AttributedOn(b, occ, c),
             c => CategoryAfter(terms, c, AttributedOn(b, occ, c), ClaimTotal(claims', occ, c)) - AttributedOn(b, occ, c));
  }

  lemma {:induction false} ClaimTotalConcat(x: seq<Claim>, y: seq<Claim>, occ: string, category: string)
    ensures ClaimTotal(x + y, occ, category) == ClaimTotal(x, occ, category) + ClaimTotal(y, occ, category)
  {
    if y == [] {
      assert x + y == x;
    } else {
      var n := |y| - 1;
      ClaimTotalConcat(x, y[..n], occ, category);
      assert (x + y)[..|x| + n] == x + y[..n];
    }
  }

  lemma WithoutOne(x: seq<Claim>, k: nat)
    requires k < |x|
    ensures multiset(x[..k] + x[k + 1..]) == multiset(x) - multiset{x[k]}
  {
    assert x == x[..k] + [x[k]] + x[k + 1..];
  }

  lemma {:induction false} PermutedTotal(x: seq<Claim>, y: seq<Claim>, occ: string, category: string)
    requires multiset(x) == multiset(y)
    ensures ClaimTotal(x, occ, category) == ClaimTotal(y, occ, category)
    decreases |x|
  {
    if x == [] {
      assert |multiset(y)| == 0;
    } else {
      hide ClaimTotal;
      var (n, c) := (|x| - 1, x[|x| - 1]);
      assert x == x[..n] + [c];
      assert c in multiset(y);
      var k :| 0 <= k < |y| && y[k] == c;
      assert y == y[..k] + [c] + y[k + 1..];
      WithoutOne(x, n);
      WithoutOne(y, k);
      assert x[..n] + x[n + 1..] == x[..n];
      PermutedTotal(x[..n], y[..k] + y[k + 1..], occ, category);
      ClaimTotalConcat(x[..n], [c], occ, category);
      ClaimTotalConcat(y[..k] + [c], y[k + 1..], occ, category);
      ClaimTotalConcat(y[..k], [c], occ, category);
      ClaimTotalConcat(y[..k], y[k + 1..], occ, category);
    }
  }

  /** Any order of the same claims leaves the occurrence in the same state. */
  lemma OrderIndependent(b: Books, claims: seq<Claim>, claims': seq<Claim>, occ: string, terms: Terms)
    requires SameTerms(claims, occ, terms) && multiset(claims) == multiset(claims')
    ensures SameOn(occ, After(b, claims), After(b, claims'))
  {
    forall c | c in claims'
      ensures c in claims
    {
      assert c in multiset(claims');
    }
    forall c
      ensures ClaimTotal(claims, occ, c) == ClaimTotal(claims', occ, c)
    {
      PermutedTotal(claims, claims', occ, c);
    }
    OnlyTotalsMatter(b, claims, claims', occ, terms);
  }

  lemma {:induction false} ItemTotalConcat(x: seq<Item>, y: seq<Item>, category: string)
    ensures ItemTotal(x + y, category) == ItemTotal(x, category) + ItemTotal(y, category)
  {
    if y == [] {
      assert x + y == x;
    } else {
      var n := |y| - 1;
      ItemTotalConcat(x, y[..n], category);
      assert (x + y)[..|x| + n] == x + y[..n];
    }
  }

  /** Splitting the items of a claim over an original and a supplemental claim, however late the
      supplemental one comes, leaves the occurrence in the same state. */
  lemma SplitIndependent(b: Books, before: seq<Claim>, c: Claim, between: seq<Claim>, first: Claim, second: Claim, terms: Terms)
    requires first.occurrence == second.occurrence == c.occurrence && first.terms == second.terms == c.terms
    requires c.items == first.items + second.items
    requires SameTerms(before + [c] + between, c.occurrence, terms)
    ensures SameOn(c.occurrence, After(b, before + [c] + between), After(b, before + [first] + between + [second]))
  {
    var occ := c.occurrence;
    var whole, split := before + [c] + between, before + [first] + between + [second];
    assert c in whole;
    forall x | x in split && x.occurrence == occ
      ensures x.terms == None || x.terms == Some(terms)
    {
      assert x == first || x == second || x in whole;
    }
    forall cat
      ensures ClaimTotal(whole, occ, cat) == ClaimTotal(split, occ, cat)
    {
      hide ClaimTotal;
      ClaimTotalConcat(before + [c], between, occ, cat);
      ClaimTotalConcat(before, [c], occ, cat);
      ClaimTotalConcat(before + [first] + between, [second], occ, cat);
      ClaimTotalConcat(before + [first], between, occ, cat);
      ClaimTotalConcat(before, [first], occ, cat);
      ItemTotalConcat(first.items, second.items, cat);
    }
    OnlyTotalsMatter(b, whole, split, occ, terms);
  }
}
