/** The figures of every claim of an application run, and the rows it records, in plain arithmetic over the
    rows that were in the table before the run. */
module PaymentFigures {
  import opened Common
  import opened OccurrenceLedger
  import opened Payments
  import opened Sums

  // ---------------------------------------------------------------- the lines of a claim

  /** What a line is covered for: its value, or the sublimit of its category where there is one and it is less. */
  function CoverAt(lines: seq<Item>, sublimits: map<string, nat>, k: int): int {
    if !(0 <= k < |lines|) then 0
    else if lines[k].category in sublimits && sublimits[lines[k].category] < lines[k].acv then sublimits[lines[k].category]
    else lines[k].acv
  }

  function CoverOf(lines: seq<Item>, sublimits: map<string, nat>): int {
    SumTo(|lines|, k => CoverAt(lines, sublimits, k))
  }

  function CoverIn(lines: seq<Item>, sublimits: map<string, nat>, category: string): int {
    SumTo(|lines|, k => if 0 <= k < |lines| && lines[k].category == category then CoverAt(lines, sublimits, k) else 0)
  }

  function ValueOf(lines: seq<Item>): int {
    SumTo(|lines|, k => if 0 <= k < |lines| then lines[k].acv else 0)
  }

  lemma {:induction false} CoverSum(terms: Terms, lines: seq<Item>)
    ensures CoveredSum(terms, lines) == CoverOf(lines, terms.sublimits)
  {
    if lines != [] {
      var (n, sub, front) := (|lines| - 1, terms.sublimits, lines[..|lines| - 1]);
      CoverSum(terms, front);
      SumToSame(n, k => CoverAt(lines, sub, k), k => CoverAt(front, sub, k));
    }
  }

  lemma {:induction false} ValueSum(lines: seq<Item>)
    ensures GrossSum(lines) == ValueOf(lines)
  {
    if lines != [] {
      var (n, front) := (|lines| - 1, lines[..|lines| - 1]);
      ValueSum(front);
      SumToSame(n, k => if 0 <= k < |lines| then lines[k].acv else 0, k => if 0 <= k < |front| then front[k].acv else 0);
    }
  }

  lemma {:induction false} CategorySum(terms: Terms, lines: seq<Item>, category: string)
    ensures Get(Covered(terms, lines), category) == CoverIn(lines, terms.sublimits, category)
    ensures category in Covered(terms, lines) <==> exists l :: l in lines && l.category == category
  {
    if lines != [] {
      var (n, sub, front) := (|lines| - 1, terms.sublimits, lines[..|lines| - 1]);
      CategorySum(terms, front, category);
      SumToSame(n, k => if 0 <= k < |lines| && lines[k].category == category then CoverAt(lines, sub, k) else 0,
                k => if 0 <= k < |front| && front[k].category == category then CoverAt(front, sub, k) else 0);
      assert lines == front + [lines[n]];
    }
  }

  // ---------------------------------------------------------------- the rows a claim sees

  /** The rows of the claim in other batches, without those that payments of the claims before the k-th
      have overwritten. */
  function Standing(rows: Rows, cases: seq<Case>, batch: string, k: nat): set<string>
    requires k < |cases|
  {
    set id | id in rows && rows[id].claim == cases[k].id && rows[id].batch != batch
      && forall j :: 0 <= j < k ==> id != "PAY-" + batch + "-" + cases[j].id
  }

  lemma StandingSums(rows: Rows, cases: seq<Case>, batch: string, k: nat)
    requires k < |cases|
    ensures var (prior, seen) := (PriorOf(Survivors(rows, cases[..k], batch), cases[k].id, batch), Standing(rows, cases, batch, k));
      && prior.indemnity == SumOver(seen, id => if id in rows then rows[id].indemnity else 0)
      && prior.absorbed == SumOver(seen, id => if id in rows then rows[id].deductible else 0)
  {
    hide SumOver;
    var (seen, left, claim) := (Standing(rows, cases, batch, k), Survivors(rows, cases[..k], batch), cases[k].id);
    forall id | id in rows
      ensures id in seen <==> id in left && IsPrior(left[id], claim, batch)
    {
      StandsUnlessWritten(cases, batch, k, id);
    }
    SumWiden(seen, left.Keys, id => if id in rows then rows[id].indemnity else 0, PriorIndemnity(left, claim, batch));
    SumWiden(seen, left.Keys, id => if id in rows then rows[id].deductible else 0, PriorAbsorbed(left, claim, batch));
  }

  lemma StandsUnlessWritten(cases: seq<Case>, batch: string, k: nat, id: string)
    requires k < |cases|
    ensures Writes(id, cases[..k], batch) <==> !forall j :: 0 <= j < k ==> id != "PAY-" + batch + "-" + cases[j].id
  {
    if Writes(id, cases[..k], batch) {
      var c :| c in cases[..k] && id == PaymentId(c.id, batch);
      var j :| 0 <= j < k && cases[..k][j] == c;
      assert id == "PAY-" + batch + "-" + cases[j].id;
    }
    if j :| 0 <= j < k && id == "PAY-" + batch + "-" + cases[j].id {
      assert cases[j] in cases[..k];
      assert id == PaymentId(cases[j].id, batch);
    }
  }

  // ---------------------------------------------------------------- the figures of one claim

  /** The deductible takes what earlier batches have left of it, at most the covered amount; the indemnity is
      the rest of the covered amount, at most what they have left of the limit. */
  lemma {:induction false} RunFigures(rows: Rows, cases: seq<Case>, batch: string, interest: Interest, k: nat)
    requires k < |cases|
    ensures var (a, c) := (RunResults(rows, cases, batch, interest)[k], cases[k]);
      var seen := Standing(rows, cases, batch, k);
      var (paid, absorbed) := (SumOver(seen, id => if id in rows then rows[id].indemnity else 0),
                               SumOver(seen, id => if id in rows then rows[id].deductible else 0));
      var covered := CoverOf(c.lines, c.terms.sublimits);
      && a.claim == c.id && a.occurrence == c.occurrence
      && a.gross == ValueOf(c.lines) && a.reduction == a.gross - covered
      && (if c.terms.deductible <= absorbed then a.deductible == 0
          else if c.terms.deductible - absorbed <= covered then a.deductible == c.terms.deductible - absorbed
          else a.deductible == covered)
      && (if c.terms.limit <= paid then a.indemnity == 0
          else if covered - a.deductible <= c.terms.limit - paid then a.indemnity == covered - a.deductible
          else a.indemnity == c.terms.limit - paid)
      && a.interest == interest(c.id, a.indemnity)
  {
    hide PriorOf, RunResults, Survivors, Standing, SumOver, CoverOf, ValueOf;
    ResultsClosedForm(rows, cases, batch, interest, k);
    StandingSums(rows, cases, batch, k);
    CoverSum(cases[k].terms, cases[k].lines);
    ValueSum(cases[k].lines);
  }

  lemma {:induction false} RunCategories(rows: Rows, cases: seq<Case>, batch: string, interest: Interest, k: nat, category: string)
    requires k < |cases|
    ensures var (a, c) := (RunResults(rows, cases, batch, interest)[k], cases[k]);
      && (category in a.categories <==> exists l :: l in c.lines && l.category == category)
      && (category in a.categories ==> a.categories[category] == CoverIn(c.lines, c.terms.sublimits, category))
  {
    hide PriorOf, RunResults, Survivors, CoverIn;
    ResultsClosedForm(rows, cases, batch, interest, k);
    CategorySum(cases[k].terms, cases[k].lines, category);
  }

  /** The money of a claim is conserved: its gross amount is what the sublimits cut, what the deductible
      takes, what is paid and what the limit cuts; and what is paid never passes the limit, unless earlier
      batches already had. */
  lemma {:induction false} MoneyConserved(rows: Rows, cases: seq<Case>, batch: string, interest: Interest, k: nat)
    requires k < |cases|
    ensures var (a, c) := (RunResults(rows, cases, batch, interest)[k], cases[k]);
      var paid := SumOver(Standing(rows, cases, batch, k), id => if id in rows then rows[id].indemnity else 0);
      var net := a.gross - a.reduction - a.deductible;
      var cut := if paid + net <= c.terms.limit then 0 else if paid <= c.terms.limit then paid + net - c.terms.limit else net;
      && a.gross == a.reduction + a.deductible + a.indemnity + cut
      && a.deductible + a.indemnity <= a.gross - a.reduction
      && (paid + a.indemnity <= c.terms.limit || a.indemnity == 0)
  {
    hide RunResults, Standing, SumOver, CoverOf, ValueOf;
    RunFigures(rows, cases, batch, interest, k);
    CoverSum(cases[k].terms, cases[k].lines);
  }

  // ---------------------------------------------------------------- the recorded rows

  /** The payment id names the batch and the claim, and the row under it carries the figures of the result. */
  lemma {:induction false} RecordedFigures(rows: Rows, cases: seq<Case>, batch: string, interest: Interest, k: nat)
    requires DistinctCases(cases) && k < |cases|
    ensures var (after, a, id) := (RunRows(rows, cases, batch, interest), RunResults(rows, cases, batch, interest)[k], "PAY-" + batch + "-" + cases[k].id);
      && id in after && after[id].id == id && after[id].claim == cases[k].id && after[id].batch == batch
      && after[id].occurrence == cases[k].occurrence
      && after[id].indemnity == a.indemnity && after[id].deductible == a.deductible && after[id].interest == a.interest
      && after[id].categories == a.categories
  {
    hide RunResults, RunRows, PriorOf, Survivors, HasKeys, HasKept;
    RunClosedForm(rows, cases, batch, interest);
    var results := RunResults(rows, cases, batch, interest);
    assert IsPaid(cases[k], batch, results[k], RunRows(rows, cases, batch, interest));
    RunFigures(rows, cases, batch, interest, k);
  }
}
