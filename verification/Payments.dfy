/** The application's batch run over its payments table: adjudicate claim by claim against earlier
    activity, write one replaceable row per claim and batch. All money is cents. */
module Payments {
  import opened Common
  import opened OccurrenceLedger

  /** A claim with its valued lines and the terms of the selected version. */
  datatype Case = Case(id: string, occurrence: string, lines: seq<Item>, terms: Terms)

  datatype Payment = Payment(id: string, claim: string, occurrence: string, batch: string,
    indemnity: nat, interest: nat, deductible: nat, categories: map<string, nat>)

  datatype Prior = Prior(indemnity: nat, absorbed: nat)

  datatype Adjudication = Adjudication(claim: string, occurrence: string, gross: nat, reduction: nat,
    deductible: nat, indemnity: nat, interest: nat, categories: map<string, nat>)

  /** What the run takes from outside: interest by claim and indemnity, for its payment date. */
  type Interest = (string, nat) -> nat

  function PaymentId(claim: string, batch: string): string {
    "PAY-" + batch + "-" + claim
  }

  lemma PaymentIdInjective(claim: string, claim': string, batch: string)
    ensures PaymentId(claim, batch) == PaymentId(claim', batch) ==> claim == claim'
  {
    var n := |"PAY-" + batch + "-"|;
    assert PaymentId(claim, batch)[n..] == claim && PaymentId(claim', batch)[n..] == claim';
  }

  // ---------------------------------------------------------------- adjudication of one claim

  function Capped(terms: Terms, line: Item): nat {
    if line.category in terms.sublimits then Min(line.acv, terms.sublimits[line.category]) else line.acv
  }

  /** Every line capped on its own, added up per category. */
  function Covered(terms: Terms, lines: seq<Item>): map<string, nat> {
    if lines == [] then map[]
    else
      var (n, m) := (|lines| - 1, Covered(terms, lines[..|lines| - 1]));
      m[lines[n].category := Get(m, lines[n].category) + Capped(terms, lines[n])]
  }

  function CoveredSum(terms: Terms, lines: seq<Item>): nat {
    if lines == [] then 0 else CoveredSum(terms, lines[..|lines| - 1]) + Capped(terms, lines[|lines| - 1])
  }

  function GrossSum(lines: seq<Item>): nat {
    if lines == [] then 0 else GrossSum(lines[..|lines| - 1]) + lines[|lines| - 1].acv
  }

  lemma {:induction false} CoveredAtMostGross(terms: Terms, lines: seq<Item>)
    ensures CoveredSum(terms, lines) <= GrossSum(lines)
  {
    if lines != [] {
      CoveredAtMostGross(terms, lines[..|lines| - 1]);
    }
  }

  lemma SumMapAdd(m: map<string, nat>, c: string, x: nat)
    ensures SumMap(m[c := Get(m, c) + x]) == SumMap(m) + x
  {
    var m' := m[c := Get(m, c) + x];
    SumSplit(m'.Keys, k => Get(m', k), c);
    SumWiden(m'.Keys - {c}, m'.Keys - {c}, k => Get(m', k), k => Get(m, k));
    if c in m {
      assert m'.Keys == m.Keys;
      SumSplit(m.Keys, k => Get(m, k), c);
    } else {
      assert m'.Keys - {c} == m.Keys;
    }
  }

  /** The category totals add up to what the lines are covered for. */
  lemma {:induction false} CoveredTotalOf(terms: Terms, lines: seq<Item>)
    ensures SumMap(Covered(terms, lines)) == CoveredSum(terms, lines)
  {
    if lines != [] {
      var n := |lines| - 1;
      CoveredTotalOf(terms, lines[..n]);
      SumMapAdd(Covered(terms, lines[..n]), lines[n].category, Capped(terms, lines[n]));
    }
  }

  method ApplySublimits(lines: seq<Item>, terms: Terms) returns (covered: map<string, nat>, reduction: nat)
    ensures covered == Covered(terms, lines)
    ensures reduction == GrossSum(lines) - CoveredSum(terms, lines)
  {
    covered, reduction := map[], 0;
    for n := 0 to |lines|
      invariant covered == Covered(terms, lines[..n])
      invariant reduction == GrossSum(lines[..n]) - CoveredSum(terms, lines[..n])
    {
      assert lines[..n + 1][..n] == lines[..n];
      var amount := Capped(terms, lines[n]);
      reduction := reduction + (lines[n].acv - amount);
      covered := covered[lines[n].category := Get(covered, lines[n].category) + amount];
    }
    assert lines[..|lines|] == lines;
  }

  function Adjudicate(prior: Prior, c: Case, interest: Interest): Adjudication {
    CoveredAtMostGross(c.terms, c.lines);
    var (gross, covered) := (GrossSum(c.lines), CoveredSum(c.terms, c.lines));
    var deductible := Deduct(c.terms, prior.absorbed, covered);
    var indemnity := Indemnify(c.terms, prior.indemnity, covered - deductible);
    Adjudication(c.id, c.occurrence, gross, gross - covered, deductible, indemnity, interest(c.id, indemnity), Covered(c.terms, c.lines))
  }

  function BuildPayment(a: Adjudication, batch: string): Payment {
    Payment(PaymentId(a.claim, batch), a.claim, a.occurrence, batch, a.indemnity, a.interest, a.deductible, a.categories)
  }

  // ---------------------------------------------------------------- the table

  type Rows = map<string, Payment>

  /** Rows are keyed by their id, and no two rows share claim and batch. */
  ghost predicate IsTable(rows: Rows) {
    && (forall id :: id in rows ==> rows[id].id == id)
    && (forall i, j :: i in rows && j in rows && rows[i].claim == rows[j].claim && rows[i].batch == rows[j].batch ==> i == j)
  }

  /** Indemnity and deductible recorded against the claim in other batches. */
  ghost function PriorOf(rows: Rows, claim: string, batch: string): Prior {
    var f, g := PriorIndemnity(rows, claim, batch), PriorAbsorbed(rows, claim, batch);
    SumNonNegative(rows.Keys, f);
    SumNonNegative(rows.Keys, g);
    Prior(SumOver(rows.Keys, f), SumOver(rows.Keys, g))
  }

  predicate IsPrior(p: Payment, claim: string, batch: string) {
    p.claim == claim && p.batch != batch
  }

  function PriorIndemnity(rows: Rows, claim: string, batch: string): string -> int {
    id => if id in rows && IsPrior(rows[id], claim, batch) then rows[id].indemnity else 0
  }

  function PriorAbsorbed(rows: Rows, claim: string, batch: string): string -> int {
    id => if id in rows && IsPrior(rows[id], claim, batch) then rows[id].deductible else 0
  }

  /** INSERT OR REPLACE: a row with the same id, or with the same claim and batch, gives way. */
  function Record(rows: Rows, p: Payment): Rows {
    (map id | id in rows && !(rows[id].claim == p.claim && rows[id].batch == p.batch) :: rows[id])[p.id := p]
  }

  /** The rows of other batches. */
  function Others(rows: Rows, batch: string): Rows {
    map id | id in rows && rows[id].batch != batch :: rows[id]
  }

  /** Earlier activity only depends on the rows of other batches. */
  lemma PriorFromOthers(rows: Rows, claim: string, batch: string)
    ensures PriorOf(rows, claim, batch) == PriorOf(Others(rows, batch), claim, batch)
  {
    SumWiden(Others(rows, batch).Keys, rows.Keys, PriorIndemnity(Others(rows, batch), claim, batch), PriorIndemnity(rows, claim, batch));
    SumWiden(Others(rows, batch).Keys, rows.Keys, PriorAbsorbed(Others(rows, batch), claim, batch), PriorAbsorbed(rows, claim, batch));
  }

  // ---------------------------------------------------------------- a batch run

  ghost function Row(rows: Rows, c: Case, batch: string, interest: Interest): Payment {
    BuildPayment(Adjudicate(PriorOf(rows, c.id, batch), c, interest), batch)
  }

  /** The table after the claims were adjudicated and recorded one by one. */
  ghost function RunRows(rows: Rows, cases: seq<Case>, batch: string, interest: Interest): Rows {
    if cases == [] then rows
    else
      var (n, before) := (|cases| - 1, RunRows(rows, cases[..|cases| - 1], batch, interest));
      Record(before, Row(before, cases[n], batch, interest))
  }

  ghost function RunResults(rows: Rows, cases: seq<Case>, batch: string, interest: Interest): (r: seq<Adjudication>)
    ensures |r| == |cases|
  {
    if cases == [] then []
    else
      var (n, before) := (|cases| - 1, RunRows(rows, cases[..|cases| - 1], batch, interest));
      RunResults(rows, cases[..n], batch, interest) + [Adjudicate(PriorOf(before, cases[n].id, batch), cases[n], interest)]
  }

  /** One turn of the loop. */
  lemma RunStep(rows: Rows, cases: seq<Case>, n: nat, batch: string, interest: Interest)
    requires n < |cases|
    ensures var before := RunRows(rows, cases[..n], batch, interest);
      && RunRows(rows, cases[..n + 1], batch, interest) == Record(before, Row(before, cases[n], batch, interest))
      && RunResults(rows, cases[..n + 1], batch, interest)
           == RunResults(rows, cases[..n], batch, interest) + [Adjudicate(PriorOf(before, cases[n].id, batch), cases[n], interest)]
  {
    hide PriorOf, Adjudicate, Record;
    assert cases[..n + 1][..n] == cases[..n];
  }

  lemma RunStart(rows: Rows, batch: string, interest: Interest)
    ensures RunRows(rows, [], batch, interest) == rows && RunResults(rows, [], batch, interest) == []
  {}

  lemma AdjudicationParts(prior: Prior, c: Case, interest: Interest)
    ensures var a := Adjudicate(prior, c, interest);
      a.categories == Covered(c.terms, c.lines) && a.reduction == GrossSum(c.lines) - CoveredSum(c.terms, c.lines)
  {}

  class PaymentsTable {
    var rows: Rows

    constructor (initial: Rows)
      ensures rows == initial
    {
      rows := initial;
    }

    /** The payment is stored, rows under its id or of its claim and batch are gone, all others are kept. */
    method RecordPayment(p: Payment)
      modifies this
      ensures rows == Record(old(rows), p)
      ensures p.id in rows && rows[p.id] == p
      ensures forall id :: id != p.id ==>
        (id in rows <==> id in old(rows) && !(old(rows)[id].claim == p.claim && old(rows)[id].batch == p.batch))
      ensures forall id :: id in rows && id != p.id ==> rows[id] == old(rows)[id]
    {
      rows := Record(rows, p);
    }

    method PriorActivity(claim: string, batch: string) returns (prior: Prior)
      ensures prior == PriorOf(rows, claim, batch)
    {
      ghost var f, g := PriorIndemnity(rows, claim, batch), PriorAbsorbed(rows, claim, batch);
      var indemnity: nat, absorbed: nat := 0, 0;
      var left := rows.Keys;
      while left != {}
        invariant left <= rows.Keys
        invariant indemnity + SumOver(left, f) == SumOver(rows.Keys, f)
        invariant absorbed + SumOver(left, g) == SumOver(rows.Keys, g)
        decreases |left|
      {
        var id :| id in left;
        SumSplit(left, f, id);
        SumSplit(left, g, id);
        if IsPrior(rows[id], claim, batch) {
          indemnity := indemnity + rows[id].indemnity;
          absorbed := absorbed + rows[id].deductible;
        }
        left := left - {id};
      }
      prior := Prior(indemnity, absorbed);
    }

    /** Adjudicate every claim of the batch and record the payments. */
    method RunBatch(cases: seq<Case>, batch: string, interest: Interest) returns (results: seq<Adjudication>)
      modifies this
      ensures rows == RunRows(old(rows), cases, batch, interest)
      ensures results == RunResults(old(rows), cases, batch, interest)
    {
      hide RunRows, RunResults, PriorOf, Adjudicate, Record;
      results := [];
      RunStart(rows, batch, interest);
      assert cases[..0] == [];
      for n := 0 to |cases|
        invariant rows == RunRows(old(rows), cases[..n], batch, interest)
        invariant results == RunResults(old(rows), cases[..n], batch, interest)
      {
        RunStep(old(rows), cases, n, batch, interest);
        var prior := PriorActivity(cases[n].id, batch);
        var covered, reduction := ApplySublimits(cases[n].lines, cases[n].terms);
        var result := Adjudicate(prior, cases[n], interest);
        AdjudicationParts(prior, cases[n], interest);
        assert result.categories == covered && result.reduction == reduction;
        results := results + [result];
        RecordPayment(BuildPayment(result, batch));
      }
      assert cases[..|cases|] == cases;
    }
  }

  // ---------------------------------------------------------------- the closed form of a run

  predicate DistinctCases(cases: seq<Case>) {
    forall i, j :: 0 <= i < j < |cases| ==> cases[i].id != cases[j].id
  }

  predicate IsOwn(p: Payment, cases: seq<Case>, batch: string) {
    p.batch == batch && exists c :: c in cases && c.id == p.claim
  }

  predicate Writes(id: string, cases: seq<Case>, batch: string) {
    exists c :: c in cases && id == PaymentId(c.id, batch)
  }

  /** The rows of other batches that the claims do not overwrite. */
  function Survivors(rows: Rows, cases: seq<Case>, batch: string): Rows {
    map id | id in rows && rows[id].batch != batch && !Writes(id, cases, batch) :: rows[id]
  }

  lemma WritesOneMore(cases: seq<Case>, c: Case, batch: string)
    ensures forall id :: Writes(id, cases + [c], batch) <==> Writes(id, cases, batch) || id == PaymentId(c.id, batch)
    ensures forall p :: IsOwn(p, cases + [c], batch) <==> IsOwn(p, cases, batch) || (p.batch == batch && p.claim == c.id)
  {
    hide PaymentId;
    assert forall d :: d in cases + [c] <==> d in cases || d == c;
  }

  /** What recording a payment does to the table: the payment is stored, any other row of its claim and
      batch goes, every other row stays as it is. */
  lemma RecordFacts(before: Rows, p: Payment)
    ensures var after := Record(before, p);
      && (forall id :: id in after <==> id == p.id || (id in before && !(before[id].claim == p.claim && before[id].batch == p.batch)))
      && after[p.id] == p
      && (forall id :: id in after && id != p.id ==> after[id] == before[id])
  {}

  lemma RowFields(rows: Rows, c: Case, batch: string, interest: Interest)
    ensures var p := Row(rows, c, batch, interest); p.id == PaymentId(c.id, batch) && p.claim == c.id && p.batch == batch
  {
    hide PriorOf;
  }

  lemma {:induction false} OthersAreSurvivors(rows: Rows, cases: seq<Case>, batch: string, interest: Interest)
    ensures Others(RunRows(rows, cases, batch, interest), batch) == Survivors(rows, cases, batch)
  {
    hide Row, PaymentId, Record, Writes;
    if cases == [] {
      WritesNothing(batch);
    } else {
      var (n, c) := (|cases| - 1, cases[|cases| - 1]);
      var before := RunRows(rows, cases[..n], batch, interest);
      OthersAreSurvivors(rows, cases[..n], batch, interest);
      RowFields(before, c, batch, interest);
      RecordFacts(before, Row(before, c, batch, interest));
      WritesOneMore(cases[..n], c, batch);
      assert cases == cases[..n] + [c];
      OneSurvivorLess(rows, cases[..n], cases, batch, before, Row(before, c, batch, interest));
    }
  }

  lemma WritesNothing(batch: string)
    ensures forall id :: !Writes(id, [], batch)
  {}

  lemma OneSurvivorLess(rows: Rows, front: seq<Case>, cases: seq<Case>, batch: string, before: Rows, p: Payment)
    requires Others(before, batch) == Survivors(rows, front, batch) && p.batch == batch
    requires forall id :: Writes(id, cases, batch) <==> Writes(id, front, batch) || id == p.id
    ensures Others(Record(before, p), batch) == Survivors(rows, cases, batch)
  {
    hide Writes, Record;
    RecordFacts(before, p);
    var (was, now) := (Others(before, batch), Others(Record(before, p), batch));
    forall id
      ensures id in now <==> id in was && id != p.id
      ensures id in now ==> now[id] == was[id]
    {}
    assert forall id :: id in was <==> id in Survivors(rows, front, batch);
  }

  /** Each claim gets the result computed from the rows of other batches that the claims before it have
      left standing. */
  lemma {:induction false} ResultsClosedForm(rows: Rows, cases: seq<Case>, batch: string, interest: Interest, k: nat)
    requires k < |cases|
    ensures RunResults(rows, cases, batch, interest)[k]
         == Adjudicate(PriorOf(Survivors(rows, cases[..k], batch), cases[k].id, batch), cases[k], interest)
    decreases |cases|
  {
    hide PaymentId, PriorOf, Adjudicate, Others, RunRows, RunResults, Survivors;
    var n := |cases| - 1;
    RunStep(rows, cases, n, batch, interest);
    assert cases[..n + 1] == cases;
    if k < n {
      ResultsClosedForm(rows, cases[..n], batch, interest, k);
      assert cases[..n][..k] == cases[..k];
    } else {
      OthersAreSurvivors(rows, cases[..n], batch, interest);
      PriorFromOthers(RunRows(rows, cases[..n], batch, interest), cases[n].id, batch);
    }
  }

  /** After the run exactly the written ids and the ids of untouched rows are in the table. */
  ghost predicate HasKeys(rows: Rows, cases: seq<Case>, batch: string, after: Rows) {
    forall id :: id in after <==> Writes(id, cases, batch) || (id in rows && !IsOwn(rows[id], cases, batch))
  }

  /** Written rows are the payments of the results. */
  ghost predicate HasWritten(cases: seq<Case>, batch: string, results: seq<Adjudication>, after: Rows) {
    && |results| == |cases|
    && forall k :: 0 <= k < |cases| ==> IsPaid(cases[k], batch, results[k], after)
  }

  ghost predicate IsPaid(c: Case, batch: string, a: Adjudication, after: Rows) {
    a.claim == c.id && PaymentId(c.id, batch) in after && after[PaymentId(c.id, batch)] == BuildPayment(a, batch)
  }

  ghost predicate HasKept(rows: Rows, cases: seq<Case>, batch: string, after: Rows) {
    forall id :: id in after && !Writes(id, cases, batch) ==> id in rows && after[id] == rows[id]
  }

  /** The table after a run: one row per claim, the payment of its result, in place of any earlier row
      under that id or of that claim and batch; every other row is untouched. */
  ghost predicate IsRunOf(rows: Rows, cases: seq<Case>, batch: string, results: seq<Adjudication>, after: Rows) {
    HasKeys(rows, cases, batch, after) && HasWritten(cases, batch, results, after) && HasKept(rows, cases, batch, after)
  }

  /** A run of distinct claims leaves exactly that table, whatever was in it before. */
  lemma {:induction false} RunClosedForm(rows: Rows, cases: seq<Case>, batch: string, interest: Interest)
    requires DistinctCases(cases)
    ensures IsRunOf(rows, cases, batch, RunResults(rows, cases, batch, interest), RunRows(rows, cases, batch, interest))
  {
    hide *;
    if cases == [] {
      RunStart(rows, batch, interest);
      EmptyRun(rows, batch);
    } else {
      var (n, c) := (|cases| - 1, cases[|cases| - 1]);
      FrontCases(cases);
      RunClosedForm(rows, cases[..n], batch, interest);
      var before := RunRows(rows, cases[..n], batch, interest);
      var a := Adjudicate(PriorOf(before, c.id, batch), c, interest);
      RunStep(rows, cases, n, batch, interest);
      AdjudicationOf(before, c, batch, interest);
      RunOneMore(rows, cases[..n], batch, RunResults(rows, cases[..n], batch, interest), before, c, a);
      assert cases == cases[..n] + [c] && cases[..n + 1] == cases;
    }
  }

  lemma AdjudicationOf(rows: Rows, c: Case, batch: string, interest: Interest)
    ensures var a := Adjudicate(PriorOf(rows, c.id, batch), c, interest);
      Row(rows, c, batch, interest) == BuildPayment(a, batch) && a.claim == c.id
  {
    hide PriorOf;
  }

  lemma FrontCases(cases: seq<Case>)
    requires cases != [] && DistinctCases(cases)
    ensures var n := |cases| - 1; DistinctCases(cases[..n]) && forall d :: d in cases[..n] ==> d.id != cases[n].id
  {}

  lemma EmptyRun(rows: Rows, batch: string)
    ensures IsRunOf(rows, [], batch, [], rows)
  {}

  lemma RunOneMore(rows: Rows, cases: seq<Case>, batch: string, results: seq<Adjudication>, before: Rows, c: Case, a: Adjudication)
    requires IsRunOf(rows, cases, batch, results, before) && forall d :: d in cases ==> d.id != c.id
    requires a.claim == c.id
    ensures IsRunOf(rows, cases + [c], batch, results + [a], Record(before, BuildPayment(a, batch)))
  {
    hide HasKeys, HasWritten, HasKept;
    RecordWritten(cases, batch, results, before, c, a);
    RecordKeys(rows, cases, batch, results, before, c, a);
  }

  lemma RecordWritten(cases: seq<Case>, batch: string, results: seq<Adjudication>, before: Rows, c: Case, a: Adjudication)
    requires HasWritten(cases, batch, results, before) && forall d :: d in cases ==> d.id != c.id
    requires a.claim == c.id
    ensures HasWritten(cases + [c], batch, results + [a], Record(before, BuildPayment(a, batch)))
  {
    hide PaymentId, Record;
    var (p, all, paid) := (BuildPayment(a, batch), cases + [c], results + [a]);
    RecordFacts(before, p);
    forall k | 0 <= k < |all|
      ensures IsPaid(all[k], batch, paid[k], Record(before, p))
    {
      if k < |cases| {
        assert IsPaid(cases[k], batch, results[k], before);
        PaymentIdInjective(c.id, cases[k].id, batch);
      }
    }
  }

  lemma RecordKeys(rows: Rows, cases: seq<Case>, batch: string, results: seq<Adjudication>, before: Rows, c: Case, a: Adjudication)
    requires IsRunOf(rows, cases, batch, results, before) && forall d :: d in cases ==> d.id != c.id
    requires a.claim == c.id
    ensures HasKeys(rows, cases + [c], batch, Record(before, BuildPayment(a, batch)))
    ensures HasKept(rows, cases + [c], batch, Record(before, BuildPayment(a, batch)))
  {
    hide PaymentId, Record, IsOwn, Writes;
    RecordFacts(before, BuildPayment(a, batch));
    WritesOneMore(cases, c, batch);
    forall id | Writes(id, cases, batch)
      ensures before[id].claim != c.id
    {
      WrittenBy(cases, batch, results, before, id);
    }
  }

  lemma WrittenBy(cases: seq<Case>, batch: string, results: seq<Adjudication>, after: Rows, id: string)
    requires HasWritten(cases, batch, results, after) && Writes(id, cases, batch)
    ensures id in after && after[id].batch == batch && exists d :: d in cases && after[id].claim == d.id && id == PaymentId(d.id, batch)
  {
    hide PaymentId;
    var d :| d in cases && id == PaymentId(d.id, batch);
    var k :| 0 <= k < |cases| && cases[k] == d;
    assert IsPaid(cases[k], batch, results[k], after);
  }

  /** The closed form leaves one table only: orders of the same claims with the same result for each. */
  lemma RunUnique(rows: Rows, x: seq<Case>, y: seq<Case>, batch: string, rx: seq<Adjudication>, ry: seq<Adjudication>, a: Rows, b: Rows)
    requires SameCases(x, y) && IsRunOf(rows, x, batch, rx, a) && IsRunOf(rows, y, batch, ry, b)
    requires SameResults(x, y, rx, ry)
    ensures a == b
  {
    hide PaymentId, BuildPayment;
    assert forall id :: Writes(id, x, batch) <==> Writes(id, y, batch);
    assert forall p :: IsOwn(p, x, batch) <==> IsOwn(p, y, batch);
    assert a.Keys == b.Keys;
    forall id | id in a
      ensures a[id] == b[id]
    {
      if Writes(id, x, batch) {
        var c :| c in x && id == PaymentId(c.id, batch);
        var k :| 0 <= k < |x| && x[k] == c;
        var l :| 0 <= l < |y| && y[l] == c;
        assert IsPaid(x[k], batch, rx[k], a) && IsPaid(y[l], batch, ry[l], b);
      }
    }
  }

  ghost predicate SameCases(x: seq<Case>, y: seq<Case>) {
    forall c :: c in x <==> c in y
  }

  /** Every claim has the same result in both. */
  ghost predicate SameResults(x: seq<Case>, y: seq<Case>, rx: seq<Adjudication>, ry: seq<Adjudication>) {
    && |rx| == |x| && |ry| == |y|
    && forall k, l :: 0 <= k < |x| && 0 <= l < |y| && x[k] == y[l] ==> rx[k] == ry[l]
  }

  /** Whatever was in the table, after a run each claim of the batch has exactly one row for it. */
  lemma OneRowPerClaim(rows: Rows, cases: seq<Case>, batch: string, interest: Interest, c: Case, id: string)
    requires DistinctCases(cases) && c in cases
    ensures var after := RunRows(rows, cases, batch, interest);
      id in after && after[id].claim == c.id && after[id].batch == batch <==> id == PaymentId(c.id, batch)
  {
    hide PaymentId, RunRows, RunResults;
    RunClosedForm(rows, cases, batch, interest);
    var (after, results) := (RunRows(rows, cases, batch, interest), RunResults(rows, cases, batch, interest));
    assert Writes(PaymentId(c.id, batch), cases, batch);
    WrittenBy(cases, batch, results, after, PaymentId(c.id, batch));
    var d :| d in cases && after[PaymentId(c.id, batch)].claim == d.id && PaymentId(c.id, batch) == PaymentId(d.id, batch);
    PaymentIdInjective(c.id, d.id, batch);
    if id in after && Writes(id, cases, batch) {
      WrittenBy(cases, batch, results, after, id);
    }
  }

  /** Every run keeps the table keyed by id with at most one row per claim and batch. */
  lemma {:induction false} RunKeepsTable(rows: Rows, cases: seq<Case>, batch: string, interest: Interest)
    requires IsTable(rows)
    ensures IsTable(RunRows(rows, cases, batch, interest))
  {
    hide Row;
    if cases != [] {
      RunKeepsTable(rows, cases[..|cases| - 1], batch, interest);
    }
  }
}
