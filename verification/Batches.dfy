/** The batch computation over history rows and claims, and why batch boundaries do not matter. */
module Batches {
  import opened Common
  import opened OccurrenceLedger
  import opened Strings

  // ---------------------------------------------------------------- processing order

  /** Ascending (loss date, received date, claim id). */
  predicate Earlier(c: Claim, d: Claim) {
    c.loss < d.loss || (c.loss == d.loss && (c.received < d.received || (c.received == d.received && StringLess(c.id, d.id))))
  }

  function Insert(c: Claim, sorted: seq<Claim>): (r: seq<Claim>)
    ensures multiset(r) == multiset(sorted) + multiset{c}
  {
    if sorted == [] then [c]
    else if Earlier(c, sorted[0]) then [c] + sorted
    else
      assert sorted == [sorted[0]] + sorted[1..];
      [sorted[0]] + Insert(c, sorted[1..])
  }

  /** The claims of the batch in processing order. */
  function BatchClaims(claims: seq<Claim>, batch: string): (r: seq<Claim>)
    ensures forall c :: c in r ==> c in claims && c.batch == batch
  {
    if claims == [] then []
    else
      var n := |claims| - 1;
      var rest := BatchClaims(claims[..n], batch);
      if claims[n].batch == batch then
        assert forall c :: c in Insert(claims[n], rest) ==> c in multiset(Insert(claims[n], rest));
        Insert(claims[n], rest)
      else rest
  }

  lemma EarlierTransitive(c: Claim, d: Claim, e: Claim)
    requires Earlier(c, d) && Earlier(d, e)
    ensures Earlier(c, e)
  {
    if c.loss == e.loss && c.received == e.received {
      StringLessTransitive(c.id, d.id, e.id);
    }
  }

  predicate InOrder(claims: seq<Claim>) {
    forall i, j :: 0 <= i < j < |claims| ==> !Earlier(claims[j], claims[i])
  }

  lemma {:induction false} InsertInOrder(c: Claim, sorted: seq<Claim>)
    requires InOrder(sorted)
    ensures InOrder(Insert(c, sorted))
  {
    hide Earlier;
    if sorted != [] {
      if Earlier(c, sorted[0]) {
        forall k | 0 <= k < |sorted|
          ensures !Earlier(sorted[k], c)
        {
          if Earlier(sorted[k], c) {
            EarlierTransitive(sorted[k], c, sorted[0]);
            EarlierAsymmetric(sorted[0]);
          }
        }
      } else {
        var rest := Insert(c, sorted[1..]);
        InsertInOrder(c, sorted[1..]);
        forall k | 0 <= k < |rest|
          ensures !Earlier(rest[k], sorted[0])
        {
          assert rest[k] in multiset(rest);
          assert rest[k] == c || rest[k] in sorted[1..];
        }
      }
    }
  }

  lemma EarlierAsymmetric(c: Claim)
    ensures !Earlier(c, c)
  {
    StringLessIrreflexive(c.id);
  }

  function OfBatch(claims: seq<Claim>, batch: string): seq<Claim> {
    if claims == [] then []
    else
      var n := |claims| - 1;
      OfBatch(claims[..n], batch) + if claims[n].batch == batch then [claims[n]] else []
  }

  /** Exactly the claims of the batch, in ascending order. */
  lemma {:induction false} BatchClaimsInOrder(claims: seq<Claim>, batch: string)
    ensures multiset(BatchClaims(claims, batch)) == multiset(OfBatch(claims, batch))
    ensures InOrder(BatchClaims(claims, batch))
  {
    if claims != [] {
      var n := |claims| - 1;
      BatchClaimsInOrder(claims[..n], batch);
      InsertInOrder(claims[n], BatchClaims(claims[..n], batch));
    }
  }

  // ---------------------------------------------------------------- the computation

  /** Amounts per category, item by item. */
  method AmountsPerCategory(items: seq<Item>) returns (perCategory: map<string, nat>)
    ensures perCategory == PerCategory(items)
  {
    perCategory := map[];
    for n := 0 to |items|
      invariant perCategory == PerCategory(items[..n])
    {
      AmountsOneMore(items, n);
      perCategory := perCategory[items[n].category := Get(perCategory, items[n].category) + items[n].acv];
    }
    assert items[..|items|] == items;
  }

  lemma AmountsOneMore(items: seq<Item>, n: nat)
    requires n < |items|
    ensures var m := PerCategory(items[..n]);
      PerCategory(items[..n + 1]) == m[items[n].category := Get(m, items[n].category) + items[n].acv]
  {
    assert items[..n + 1][..n] == items[..n];
    assert items[..n + 1] == items[..n] + [items[n]];
    NoItems(items[..n], items[n].category);
  }

  method AttributeAmounts(terms: Terms, prior: map<string, nat>, amounts: map<string, nat>) returns (attributed: map<string, nat>)
    ensures attributed == Attribute(terms, prior, amounts)
  {
    hide Fitting;
    attributed := map[];
    var left := amounts.Keys;
    while left != {}
      invariant left <= amounts.Keys
      invariant attributed == map x | x in amounts.Keys - left :: Fitting(terms, x, Get(prior, x), amounts[x])
      decreases |left|
    {
      var cat :| cat in left;
      attributed := attributed[cat := Fitting(terms, cat, Get(prior, cat), amounts[cat])];
      left := left - {cat};
    }
  }

  /** Settle one claim against the books. */
  method SettleClaim(b: Books, c: Claim) returns (e: Expected)
    ensures e == Settle(b, c)
  {
    if c.terms.None? {
      return Uncovered(c);
    }
    hide PerCategory, SumMap, Attribute;
    var terms := c.terms.value;
    var amounts := AmountsPerCategory(c.items);
    var gross := SumValues(amounts);
    var prior := CategoriesOn(b, c.occurrence);
    var attributed := AttributeAmounts(terms, prior, amounts);
    AttributedAtMost(terms, prior, amounts);
    var covered := SumValues(attributed);
    var deductible := Deduct(terms, AbsorbedOn(b, c.occurrence), covered);
    var indemnity := Indemnify(terms, PaidOn(b, c.occurrence), covered - deductible);
    var interest := InterestOn(c.rate, indemnity, c.daysLate);
    e := Expected(c.id, c.occurrence, c.policy, c.state, if indemnity > 0 then Paid else ZeroPayment, Some(c.version),
                  gross, gross - covered, deductible, indemnity, c.daysLate, interest, attributed);
  }

  /** Results under their claim id; a later result of the same id replaces an earlier one. */
  function ByClaim(results: seq<Expected>): map<string, Expected> {
    if results == [] then map[] else ByClaim(results[..|results| - 1])[results[|results| - 1].claim := results[|results| - 1]]
  }

  /** With distinct claim ids every result is found under its id, and nothing else is. */
  lemma {:induction false} ByClaimExact(results: seq<Expected>)
    requires forall i, j :: 0 <= i < j < |results| ==> results[i].claim != results[j].claim
    ensures forall id :: id in ByClaim(results) <==> exists e :: e in results && e.claim == id
    ensures forall e :: e in results ==> ByClaim(results)[e.claim] == e
  {
    if results != [] {
      ByClaimExact(results[..|results| - 1]);
      assert results == results[..|results| - 1] + [results[|results| - 1]];
    }
  }

  /** Recompute a batch from scratch. */
  method ComputeBatch(history: seq<HistoryRow>, claims: seq<Claim>, batch: string) returns (out: map<string, Expected>)
    ensures out == ByClaim(Results(Opening(history, batch), BatchClaims(claims, batch)))
  {
    hide Settle, PostResult;
    var books := EMPTY;
    for n := 0 to |history|
      invariant books == Opening(history[..n], batch)
    {
      var h := history[n];
      assert history[..n + 1][..n] == history[..n];
      if h.batch == batch {
        continue;
      }
      books := Post(books, h.occurrence, h.indemnity, h.deductible, h.attributed);
    }
    assert history[..|history|] == history;
    var selected := BatchClaims(claims, batch);
    out := map[];
    for n := 0 to |selected|
      invariant out == ByClaim(Results(Opening(history, batch), selected[..n]))
      invariant books == After(Opening(history, batch), selected[..n])
    {
      ResultsStep(Opening(history, batch), selected, n);
      var e := SettleClaim(books, selected[n]);
      SettleKeepsId(books, selected[n]);
      out := out[selected[n].id := e];
      books := PostResult(books, e);
    }
    assert selected[..|selected|] == selected;
  }

  lemma ResultsStep(b: Books, claims: seq<Claim>, n: nat)
    requires n < |claims|
    ensures var e := Settle(After(b, claims[..n]), claims[n]);
      && Results(b, claims[..n + 1]) == Results(b, claims[..n]) + [e]
      && After(b, claims[..n + 1]) == PostResult(After(b, claims[..n]), e)
      && ByClaim(Results(b, claims[..n + 1])) == ByClaim(Results(b, claims[..n]))[e.claim := e]
  {
    hide Settle, PostResult;
    assert claims[..n + 1][..n] == claims[..n];
    var front := Results(b, claims[..n]);
    assert (front + [Settle(After(b, claims[..n]), claims[n])])[..|front|] == front;
  }

  lemma SettleKeepsId(b: Books, c: Claim)
    ensures Settle(b, c).claim == c.id
  {
    hide SumMap, PerCategory, Attribute;
  }

  // ---------------------------------------------------------------- history rows of a batch

  function ToRow(e: Expected, batch: string): HistoryRow {
    HistoryRow(e.claim, e.occurrence, batch, e.indemnity, e.deductible, e.attributed)
  }

  /** The payment records a batch leaves behind: none for a claim without coverage. */
  function ToRows(results: seq<Expected>, batch: string): seq<HistoryRow> {
    if results == [] then []
    else
      var n := |results| - 1;
      ToRows(results[..n], batch) + if results[n].status == NoCoverage then [] else [ToRow(results[n], batch)]
  }

  lemma {:induction false} RowsOfBatch(results: seq<Expected>, batch: string)
    ensures forall h :: h in ToRows(results, batch) ==> h.batch == batch
  {
    if results != [] {
      RowsOfBatch(results[..|results| - 1], batch);
    }
  }

  /** Rows of the batch itself are skipped when the books are opened. */
  lemma {:induction false} OwnRowsIgnored(history: seq<HistoryRow>, own: seq<HistoryRow>, batch: string)
    requires forall h :: h in own ==> h.batch == batch
    ensures Opening(history + own, batch) == Opening(history, batch)
  {
    if own == [] {
      assert history + own == history;
    } else {
      var n := |own| - 1;
      OwnRowsIgnored(history, own[..n], batch);
      assert (history + own)[..|history| + n] == history + own[..n];
    }
  }

  /** Recomputing a batch whose own rows are already in the history returns the same results. */
  lemma RecomputeIsStable(history: seq<HistoryRow>, claims: seq<Claim>, batch: string)
    ensures var results := Results(Opening(history, batch), BatchClaims(claims, batch));
      Results(Opening(history + ToRows(results, batch), batch), BatchClaims(claims, batch)) == results
  {
    var results := Results(Opening(history, batch), BatchClaims(claims, batch));
    RowsOfBatch(results, batch);
    OwnRowsIgnored(history, ToRows(results, batch), batch);
  }

  // ---------------------------------------------------------------- batch by batch

  predicate NoRowsOf(history: seq<HistoryRow>, batch: string) {
    forall h :: h in history ==> h.batch != batch
  }

  /** Opening the books on a history without rows of the batch posts every row. */
  lemma {:induction false} OpeningElsewhere(history: seq<HistoryRow>, batch: string, batch': string)
    requires NoRowsOf(history, batch) && NoRowsOf(history, batch')
    ensures Opening(history, batch) == Opening(history, batch')
  {
    if history != [] {
      var n := |history| - 1;
      assert history[n] in history;
      OpeningElsewhere(history[..n], batch, batch');
    }
  }

  /** Opening the books on the appended rows of a batch is carrying its final books over. */
  lemma {:induction false} CarryOver(history: seq<HistoryRow>, claims: seq<Claim>, b: Books, batch: string, next: string)
    requires batch != next && b == Opening(history, next)
    ensures Opening(history + ToRows(Results(b, claims), batch), next) == After(b, claims)
  {
    hide Settle;
    if claims == [] {
      assert history + ToRows(Results(b, claims), batch) == history;
    } else {
      var n := |claims| - 1;
      var (front, e) := (Results(b, claims[..n]), Settle(After(b, claims[..n]), claims[n]));
      CarryOver(history, claims[..n], b, batch, next);
      assert Results(b, claims) == front + [e];
      var rows := history + ToRows(front, batch);
      if e.status == NoCoverage {
        assert history + ToRows(front + [e], batch) == rows;
      } else {
        assert history + ToRows(front + [e], batch) == rows + [ToRow(e, batch)];
        assert (rows + [ToRow(e, batch)])[..|rows|] == rows;
      }
    }
  }

  datatype Batch = Batch(name: string, claims: seq<Claim>)

  /** Batch after batch, each appending its rows to the history of the next. */
  ghost function Nightly(history: seq<HistoryRow>, batches: seq<Batch>): (seq<Expected>, seq<HistoryRow>)
    decreases |batches|
  {
    if batches == [] then ([], history)
    else
      var results := Results(Opening(history, batches[0].name), batches[0].claims);
      var (rest, final) := Nightly(history + ToRows(results, batches[0].name), batches[1..]);
      (results + rest, final)
  }

  function AllClaims(batches: seq<Batch>): seq<Claim> {
    if batches == [] then [] else batches[0].claims + AllClaims(batches[1..])
  }

  predicate DistinctNames(batches: seq<Batch>) {
    forall i, j :: 0 <= i < j < |batches| ==> batches[i].name != batches[j].name
  }

  lemma {:induction false} TwoPasses(b: Books, x: seq<Claim>, y: seq<Claim>)
    ensures After(b, x + y) == After(After(b, x), y)
    ensures Results(b, x + y) == Results(b, x) + Results(After(b, x), y)
  {
    hide Settle, PostResult;
    if y == [] {
      assert x + y == x;
    } else {
      var n := |y| - 1;
      TwoPasses(b, x, y[..n]);
      assert (x + y)[..|x| + n] == x + y[..n];
    }
  }

  /** Batch boundaries do not matter: adjudicating batch by batch gives every claim the same result,
      and reaches the same books, as one pass over all claims. */
  lemma {:induction false} BatchByBatch(history: seq<HistoryRow>, batches: seq<Batch>, later: string)
    requires DistinctNames(batches) && NoRowsOf(history, later)
    requires forall x :: x in batches ==> NoRowsOf(history, x.name) && x.name != later
    ensures var b := Opening(history, later);
      && Nightly(history, batches).0 == Results(b, AllClaims(batches))
      && Opening(Nightly(history, batches).1, later) == After(b, AllClaims(batches))
    decreases |batches|
  {
    hide Results, After, ToRows, Opening;
    var b := Opening(history, later);
    if batches == [] {
      NothingDone(b);
    } else {
      var first := batches[0];
      assert first in batches;
      OpeningElsewhere(history, first.name, later);
      var results := Results(b, first.claims);
      var rows := ToRows(results, first.name);
      CarryOver(history, first.claims, b, first.name, later);
      RowsOfBatch(results, first.name);
      forall x | x in batches[1..]
        ensures NoRowsOf(history + rows, x.name) && x.name != later
      {
        assert x in batches;
      }
      BatchByBatch(history + rows, batches[1..], later);
      TwoPasses(b, first.claims, AllClaims(batches[1..]));
    }
  }

  lemma NothingDone(b: Books)
    ensures Results(b, []) == [] && After(b, []) == b
  {}
}
