/** When re-running a batch, or running its claims in another order, can make a difference: payment ids
    of different batches may coincide, and then a run overwrites what other batches have paid. */
module Reruns {
  import opened Common
  import opened OccurrenceLedger
  import opened Payments

  // ---------------------------------------------------------------- what overwritten rows were worth

  /** No row of another batch already uses the payment id of one of the claims. */
  predicate NoClash(rows: Rows, cases: seq<Case>, batch: string) {
    forall c :: c in cases && PaymentId(c.id, batch) in rows ==> rows[PaymentId(c.id, batch)].batch == batch
  }

  /** A run leaves the rows of other batches alone exactly when none of them uses the payment id of
      one of its claims. */
  lemma OthersUntouchedIffNoClash(rows: Rows, cases: seq<Case>, batch: string, interest: Interest)
    ensures Others(RunRows(rows, cases, batch, interest), batch) == Others(rows, batch) <==> NoClash(rows, cases, batch)
  {
    hide RunRows, PaymentId;
    OthersAreSurvivors(rows, cases, batch, interest);
    if NoClash(rows, cases, batch) {
      assert Survivors(rows, cases, batch) == Others(rows, batch);
    } else {
      var c :| c in cases && PaymentId(c.id, batch) in rows && rows[PaymentId(c.id, batch)].batch != batch;
      assert PaymentId(c.id, batch) in Others(rows, batch) && PaymentId(c.id, batch) !in Survivors(rows, cases, batch);
    }
  }

  predicate IsWorthless(p: Payment) {
    p.indemnity == 0 && p.deductible == 0
  }

  /** Taking rows away lowers earlier activity, unless the claim's rows among them were worth nothing. */
  lemma PriorDrop(big: Rows, small: Rows, claim: string, batch: string)
    requires small.Keys <= big.Keys && forall id :: id in small ==> small[id] == big[id]
    ensures PriorOf(small, claim, batch).indemnity <= PriorOf(big, claim, batch).indemnity
    ensures PriorOf(small, claim, batch).absorbed <= PriorOf(big, claim, batch).absorbed
    ensures PriorOf(small, claim, batch) == PriorOf(big, claim, batch) <==>
      forall id :: id in big && id !in small && IsPrior(big[id], claim, batch) ==> IsWorthless(big[id])
  {
    var (f, g) := (PriorIndemnity(big, claim, batch), PriorAbsorbed(big, claim, batch));
    var dropped := big.Keys - small.Keys;
    SumWiden(small.Keys, small.Keys, PriorIndemnity(small, claim, batch), f);
    SumWiden(small.Keys, small.Keys, PriorAbsorbed(small, claim, batch), g);
    SumParts(big.Keys, small.Keys, f);
    SumParts(big.Keys, small.Keys, g);
    SumZero(dropped, f);
    SumZero(dropped, g);
    WorthlessDropped(big, dropped, claim, batch);
  }

  lemma WorthlessDropped(big: Rows, dropped: set<string>, claim: string, batch: string)
    requires dropped <= big.Keys
    ensures (forall id :: id in dropped ==> PriorIndemnity(big, claim, batch)(id) == 0 && PriorAbsorbed(big, claim, batch)(id) == 0)
       <==> forall id :: id in dropped && IsPrior(big[id], claim, batch) ==> IsWorthless(big[id])
  {
    var (f, g) := (PriorIndemnity(big, claim, batch), PriorAbsorbed(big, claim, batch));
    assert forall id :: id in dropped ==> (f(id) == 0 && g(id) == 0 <==> (IsPrior(big[id], claim, batch) ==> IsWorthless(big[id])));
  }

  /** Paying claim `other` overwrites nothing that counts for `claim`. */
  predicate Spares(rows: Rows, claim: string, other: string, batch: string) {
    var id := PaymentId(other, batch);
    id in rows && IsPrior(rows[id], claim, batch) ==> IsWorthless(rows[id])
  }

  /** A claim whose result under earlier activity `p` differs from that under `q`. */
  function Exposing(id: string, p: Prior, q: Prior): Case {
    if p.absorbed != q.absorbed then Case(id, "", [Item("", p.absorbed)], Terms(0, p.absorbed, map[]))
    else Case(id, "", [Item("", p.indemnity)], Terms(p.indemnity, 0, map[]))
  }

  lemma ExposingDiffers(id: string, p: Prior, q: Prior, interest: Interest)
    requires q.indemnity <= p.indemnity && q.absorbed <= p.absorbed && p != q
    ensures Adjudicate(p, Exposing(id, p, q), interest) != Adjudicate(q, Exposing(id, p, q), interest)
  {
    hide Covered;
    var c := Exposing(id, p, q);
    assert c.lines == [c.lines[0]];
  }

  /** A payment keeps everything of a result that depends on earlier activity. */
  lemma PaymentTells(p: Prior, q: Prior, c: Case, batch: string, interest: Interest)
    ensures BuildPayment(Adjudicate(p, c, interest), batch) == BuildPayment(Adjudicate(q, c, interest), batch)
       <==> Adjudicate(p, c, interest) == Adjudicate(q, c, interest)
  {
    hide Covered, CoveredSum, GrossSum, PaymentId, Deduct, Indemnify;
  }

  // ---------------------------------------------------------------- running a batch again

  /** Results of a run are repeatable. */
  ghost predicate IsRepeatable(rows: Rows, cases: seq<Case>, batch: string, interest: Interest) {
    RunResults(RunRows(rows, cases, batch, interest), cases, batch, interest) == RunResults(rows, cases, batch, interest)
  }

  /** A second run leaves the table as it is. */
  ghost predicate IsStable(rows: Rows, cases: seq<Case>, batch: string, interest: Interest) {
    RunRows(RunRows(rows, cases, batch, interest), cases, batch, interest) == RunRows(rows, cases, batch, interest)
  }

  lemma SecondResult(rows: Rows, cases: seq<Case>, batch: string, interest: Interest, k: nat)
    requires k < |cases|
    ensures RunResults(RunRows(rows, cases, batch, interest), cases, batch, interest)[k]
         == Adjudicate(PriorOf(Survivors(rows, cases, batch), cases[k].id, batch), cases[k], interest)
  {
    hide PaymentId, PriorOf, Adjudicate, RunRows, RunResults;
    var once := RunRows(rows, cases, batch, interest);
    OthersAreSurvivors(rows, cases, batch, interest);
    ResultsClosedForm(once, cases, batch, interest, k);
    assert forall id :: Writes(id, cases[..k], batch) ==> Writes(id, cases, batch);
    assert forall id :: id in Others(once, batch) <==> id in Survivors(rows, cases, batch);
    assert Survivors(once, cases[..k], batch) == Survivors(rows, cases, batch);
  }

  lemma RepeatsBy(rows: Rows, cases: seq<Case>, batch: string, interest: Interest)
    ensures IsRepeatable(rows, cases, batch, interest) <==> forall k :: 0 <= k < |cases| ==>
      Adjudicate(PriorOf(Survivors(rows, cases[..k], batch), cases[k].id, batch), cases[k], interest)
      == Adjudicate(PriorOf(Survivors(rows, cases, batch), cases[k].id, batch), cases[k], interest)
  {
    hide PriorOf, Adjudicate, RunRows, RunResults, Survivors;
    var once := RunRows(rows, cases, batch, interest);
    var (first, second) := (RunResults(rows, cases, batch, interest), RunResults(once, cases, batch, interest));
    forall k | 0 <= k < |cases|
      ensures first[k] == Adjudicate(PriorOf(Survivors(rows, cases[..k], batch), cases[k].id, batch), cases[k], interest)
      ensures second[k] == Adjudicate(PriorOf(Survivors(rows, cases, batch), cases[k].id, batch), cases[k], interest)
    {
      ResultsClosedForm(rows, cases, batch, interest, k);
      SecondResult(rows, cases, batch, interest, k);
    }
  }

  /** Nothing a claim still counts on is overwritten by itself or by a claim after it. */
  predicate IsRerunSafe(rows: Rows, cases: seq<Case>, batch: string) {
    forall k, j :: 0 <= k <= j < |cases| ==> Spares(rows, cases[k].id, cases[j].id, batch)
  }

  /** Claim for claim the same ids. */
  predicate SameIds(x: seq<Case>, y: seq<Case>) {
    |x| == |y| && forall k :: 0 <= k < |x| ==> x[k].id == y[k].id
  }

  lemma SurvivorsByIds(rows: Rows, x: seq<Case>, y: seq<Case>, batch: string)
    requires SameIds(x, y)
    ensures Survivors(rows, x, batch) == Survivors(rows, y, batch)
  {
    hide PaymentId;
    forall id
      ensures Writes(id, x, batch) <==> Writes(id, y, batch)
    {
      if Writes(id, x, batch) {
        var c :| c in x && id == PaymentId(c.id, batch);
        var k :| 0 <= k < |x| && x[k] == c;
        assert y[k] in y;
      }
      if Writes(id, y, batch) {
        var c :| c in y && id == PaymentId(c.id, batch);
        var k :| 0 <= k < |y| && y[k] == c;
        assert x[k] in x;
      }
    }
  }

  /** What a claim sees in the first run and in the second, and when that is the same. */
  lemma PriorStays(rows: Rows, cases: seq<Case>, batch: string, k: nat)
    requires DistinctCases(cases) && k < |cases|
    ensures var (first, second) := (Survivors(rows, cases[..k], batch), Survivors(rows, cases, batch));
      && PriorOf(second, cases[k].id, batch).indemnity <= PriorOf(first, cases[k].id, batch).indemnity
      && PriorOf(second, cases[k].id, batch).absorbed <= PriorOf(first, cases[k].id, batch).absorbed
      && (PriorOf(second, cases[k].id, batch) == PriorOf(first, cases[k].id, batch) <==>
          forall j :: k <= j < |cases| ==> Spares(rows, cases[k].id, cases[j].id, batch))
  {
    hide PriorOf, PaymentId, IsWorthless;
    var (first, second, claim) := (Survivors(rows, cases[..k], batch), Survivors(rows, cases, batch), cases[k].id);
    LaterWrites(cases, batch, k);
    PriorDrop(first, second, claim, batch);
    if forall j :: k <= j < |cases| ==> Spares(rows, claim, cases[j].id, batch) {
      forall id | id in first && id !in second && IsPrior(first[id], claim, batch)
        ensures IsWorthless(first[id])
      {
        var j :| k <= j < |cases| && id == PaymentId(cases[j].id, batch);
        assert Spares(rows, claim, cases[j].id, batch);
      }
    }
    if forall id :: id in first && id !in second && IsPrior(first[id], claim, batch) ==> IsWorthless(first[id]) {
      forall j | k <= j < |cases|
        ensures Spares(rows, claim, cases[j].id, batch)
      {
        var id := PaymentId(cases[j].id, batch);
        assert Writes(id, cases, batch) && !Writes(id, cases[..k], batch);
        assert id in rows && IsPrior(rows[id], claim, batch) ==> id in first && id !in second;
      }
    }
  }

  /** The ids written from position `k` on. */
  lemma LaterWrites(cases: seq<Case>, batch: string, k: nat)
    requires DistinctCases(cases) && k <= |cases|
    ensures forall id :: Writes(id, cases, batch) && !Writes(id, cases[..k], batch) ==>
      exists j :: k <= j < |cases| && id == PaymentId(cases[j].id, batch)
    ensures forall j :: k <= j < |cases| ==>
      Writes(PaymentId(cases[j].id, batch), cases, batch) && !Writes(PaymentId(cases[j].id, batch), cases[..k], batch)
    ensures forall id :: Writes(id, cases[..k], batch) ==> Writes(id, cases, batch)
  {
    hide PaymentId;
    forall id | Writes(id, cases, batch) && !Writes(id, cases[..k], batch)
      ensures exists j :: k <= j < |cases| && id == PaymentId(cases[j].id, batch)
    {
      var c :| c in cases && id == PaymentId(c.id, batch);
      assert cases == cases[..k] + cases[k..];
      var i :| 0 <= i < |cases[k..]| && cases[k..][i] == c;
      assert cases[k + i] == c;
    }
    forall j | k <= j < |cases|
      ensures Writes(PaymentId(cases[j].id, batch), cases, batch) && !Writes(PaymentId(cases[j].id, batch), cases[..k], batch)
    {
      assert cases[j] in cases;
      forall c | c in cases[..k]
        ensures PaymentId(c.id, batch) != PaymentId(cases[j].id, batch)
      {
        var i :| 0 <= i < k && cases[i] == c;
        PaymentIdInjective(c.id, cases[j].id, batch);
      }
    }
  }

  lemma SafeRepeats(rows: Rows, cases: seq<Case>, batch: string, interest: Interest)
    requires DistinctCases(cases) && IsRerunSafe(rows, cases, batch)
    ensures IsRepeatable(rows, cases, batch, interest)
  {
    hide PriorOf, Adjudicate, Survivors, Spares, IsRepeatable;
    forall k | 0 <= k < |cases|
      ensures PriorOf(Survivors(rows, cases[..k], batch), cases[k].id, batch) == PriorOf(Survivors(rows, cases, batch), cases[k].id, batch)
    {
      PriorStays(rows, cases, batch, k);
    }
    RepeatsBy(rows, cases, batch, interest);
  }

  /** A claim that counts on an overwritten row can be given contents that show it. */
  lemma UnsafeShows(rows: Rows, cases: seq<Case>, batch: string, interest: Interest) returns (shown: seq<Case>)
    requires DistinctCases(cases) && !IsRerunSafe(rows, cases, batch)
    ensures SameIds(cases, shown) && !IsRepeatable(rows, shown, batch, interest)
  {
    hide PriorOf, Adjudicate, Survivors, Spares, Exposing, IsRepeatable;
    var k, j :| 0 <= k <= j < |cases| && !Spares(rows, cases[k].id, cases[j].id, batch);
    var claim := cases[k].id;
    var p, q := PriorOf(Survivors(rows, cases[..k], batch), claim, batch), PriorOf(Survivors(rows, cases, batch), claim, batch);
    PriorStays(rows, cases, batch, k);
    shown := cases[k := Exposing(claim, p, q)];
    ExposingId(claim, p, q);
    SurvivorsByIds(rows, cases, shown, batch);
    SurvivorsByIds(rows, cases[..k], shown[..k], batch);
    ExposingDiffers(claim, p, q, interest);
    RepeatsBy(rows, shown, batch, interest);
  }

  lemma ExposingId(id: string, p: Prior, q: Prior)
    ensures Exposing(id, p, q).id == id
  {}

  /** Running the batch again is idempotent, whatever the claims of these ids contain, exactly when no
      claim counts on a row that it or a later claim overwrites, unless that row was worth nothing. */
  lemma RerunIsIdempotent(rows: Rows, cases: seq<Case>, batch: string, interest: Interest)
    requires DistinctCases(cases)
    ensures IsRerunSafe(rows, cases, batch) <==>
      forall other :: SameIds(cases, other) ==> IsRepeatable(rows, other, batch, interest)
    ensures IsRerunSafe(rows, cases, batch) <==>
      forall other :: SameIds(cases, other) ==> IsStable(rows, other, batch, interest)
  {
    hide Spares, IsRepeatable, IsStable;
    forall other | SameIds(cases, other)
      ensures IsRepeatable(rows, other, batch, interest) <==> IsStable(rows, other, batch, interest)
    {
      assert DistinctCases(other);
      RepeatableIffStable(rows, other, batch, interest);
    }
    if IsRerunSafe(rows, cases, batch) {
      forall other | SameIds(cases, other)
        ensures IsRepeatable(rows, other, batch, interest)
      {
        SafeRepeats(rows, other, batch, interest);
      }
    } else {
      var shown := UnsafeShows(rows, cases, batch, interest);
    }
  }

  /** The second run returns the same results exactly when it leaves the table as it is. */
  lemma RepeatableIffStable(rows: Rows, cases: seq<Case>, batch: string, interest: Interest)
    requires DistinctCases(cases)
    ensures IsRepeatable(rows, cases, batch, interest) <==> IsStable(rows, cases, batch, interest)
  {
    hide RunRows, RunResults, PaymentId, Adjudicate, PriorOf, HasKeys, HasKept, BuildPayment;
    var once := RunRows(rows, cases, batch, interest);
    var twice := RunRows(once, cases, batch, interest);
    var (r1, r2) := (RunResults(rows, cases, batch, interest), RunResults(once, cases, batch, interest));
    RunClosedForm(rows, cases, batch, interest);
    RunClosedForm(once, cases, batch, interest);
    if r1 == r2 {
      AlreadyRun(rows, cases, batch, r1, once);
      RunUnique(once, cases, cases, batch, r1, r1, once, twice);
    }
    if twice == once {
      forall k | 0 <= k < |cases|
        ensures r1[k] == r2[k]
      {
        assert IsPaid(cases[k], batch, r1[k], once) && IsPaid(cases[k], batch, r2[k], twice);
        ResultsClosedForm(rows, cases, batch, interest, k);
        ResultsClosedForm(once, cases, batch, interest, k);
        PaymentTells(PriorOf(Survivors(rows, cases[..k], batch), cases[k].id, batch),
                     PriorOf(Survivors(once, cases[..k], batch), cases[k].id, batch), cases[k], batch, interest);
      }
    }
  }

  lemma AlreadyRun(rows: Rows, cases: seq<Case>, batch: string, results: seq<Adjudication>, once: Rows)
    requires IsRunOf(rows, cases, batch, results, once)
    ensures IsRunOf(once, cases, batch, results, once)
  {
    hide PaymentId, IsOwn, Writes, BuildPayment;
    forall id | Writes(id, cases, batch)
      ensures id in once
    {
      WrittenBy(cases, batch, results, once, id);
    }
  }

  // ---------------------------------------------------------------- running the claims in another order

  function IdsOf(cases: seq<Case>): set<string> {
    set c | c in cases :: c.id
  }

  /** Nothing a claim counts on is overwritten by another claim. */
  predicate IsOrderSafe(rows: Rows, ids: set<string>, batch: string) {
    forall claim, other :: claim in ids && other in ids && claim != other ==> Spares(rows, claim, other, batch)
  }

  /** Both orders give every claim the same result. */
  ghost predicate SameOutcome(rows: Rows, x: seq<Case>, y: seq<Case>, batch: string, interest: Interest) {
    SameResults(x, y, RunResults(rows, x, batch, interest), RunResults(rows, y, batch, interest))
  }

  /** Both orders leave the same table. */
  ghost predicate SameTable(rows: Rows, x: seq<Case>, y: seq<Case>, batch: string, interest: Interest) {
    RunRows(rows, x, batch, interest) == RunRows(rows, y, batch, interest)
  }

  /** Two orders of the same claims. */
  ghost predicate AreOrders(ids: set<string>, x: seq<Case>, y: seq<Case>) {
    DistinctCases(x) && DistinctCases(y) && SameCases(x, y) && IdsOf(x) == ids
  }

  lemma OrderPrior(rows: Rows, cases: seq<Case>, batch: string, k: nat)
    requires DistinctCases(cases) && k < |cases| && IsOrderSafe(rows, IdsOf(cases), batch)
    ensures PriorOf(Survivors(rows, cases[..k], batch), cases[k].id, batch) == PriorOf(rows, cases[k].id, batch)
  {
    hide PriorOf, PaymentId, IsWorthless;
    var (all, left, claim) := (Others(rows, batch), Survivors(rows, cases[..k], batch), cases[k].id);
    PriorFromOthers(rows, claim, batch);
    PriorDrop(all, left, claim, batch);
    forall id | id in all && id !in left && IsPrior(all[id], claim, batch)
      ensures IsWorthless(all[id])
    {
      var c :| c in cases[..k] && id == PaymentId(c.id, batch);
      var i :| 0 <= i < k && cases[i] == c;
      assert c.id in IdsOf(cases) && claim in IdsOf(cases);
      assert Spares(rows, claim, c.id, batch);
    }
  }

  lemma OrderSafeSame(rows: Rows, ids: set<string>, x: seq<Case>, y: seq<Case>, batch: string, interest: Interest)
    requires IsOrderSafe(rows, ids, batch) && AreOrders(ids, x, y)
    ensures SameOutcome(rows, x, y, batch, interest)
  {
    hide PriorOf, Adjudicate, Survivors, Spares, RunResults, IsOrderSafe;
    assert IdsOf(y) == ids;
    forall k, l | 0 <= k < |x| && 0 <= l < |y| && x[k] == y[l]
      ensures RunResults(rows, x, batch, interest)[k] == RunResults(rows, y, batch, interest)[l]
    {
      OrderPrior(rows, x, batch, k);
      OrderPrior(rows, y, batch, l);
      ResultsClosedForm(rows, x, batch, interest, k);
      ResultsClosedForm(rows, y, batch, interest, l);
    }
  }

  /** Two orders give the same results exactly when they leave the same table. */
  lemma OutcomeIffTable(rows: Rows, x: seq<Case>, y: seq<Case>, batch: string, interest: Interest)
    requires DistinctCases(x) && DistinctCases(y) && SameCases(x, y)
    ensures SameOutcome(rows, x, y, batch, interest) <==> SameTable(rows, x, y, batch, interest)
  {
    hide RunRows, RunResults, PaymentId, Adjudicate, PriorOf, HasKeys, HasKept, BuildPayment;
    var (a, b) := (RunRows(rows, x, batch, interest), RunRows(rows, y, batch, interest));
    var (rx, ry) := (RunResults(rows, x, batch, interest), RunResults(rows, y, batch, interest));
    RunClosedForm(rows, x, batch, interest);
    RunClosedForm(rows, y, batch, interest);
    if SameResults(x, y, rx, ry) {
      RunUnique(rows, x, y, batch, rx, ry, a, b);
    }
    if a == b {
      forall k, l | 0 <= k < |x| && 0 <= l < |y| && x[k] == y[l]
        ensures rx[k] == ry[l]
      {
        assert IsPaid(x[k], batch, rx[k], a) && IsPaid(y[l], batch, ry[l], b);
        ResultsClosedForm(rows, x, batch, interest, k);
        ResultsClosedForm(rows, y, batch, interest, l);
        PaymentTells(PriorOf(Survivors(rows, x[..k], batch), x[k].id, batch),
                     PriorOf(Survivors(rows, y[..l], batch), y[l].id, batch), x[k], batch, interest);
      }
    }
  }

  /** A claim paid first sees what it no longer sees when paid last. */
  lemma OrderShows(rows: Rows, cases: seq<Case>, batch: string, interest: Interest) returns (x: seq<Case>, y: seq<Case>)
    requires DistinctCases(cases) && !IsOrderSafe(rows, IdsOf(cases), batch)
    ensures AreOrders(IdsOf(cases), x, y) && !SameOutcome(rows, x, y, batch, interest)
  {
    hide PriorOf, Adjudicate, Exposing, RunResults, IsWorthless, PaymentId;
    var claim, other :| claim in IdsOf(cases) && other in IdsOf(cases) && claim != other && !Spares(rows, claim, other, batch);
    var k :| 0 <= k < |cases| && cases[k].id == claim;
    var rest := cases[..k] + cases[k + 1..];
    var p, q := PriorOf(Survivors(rows, [], batch), claim, batch), PriorOf(Survivors(rows, rest, batch), claim, batch);
    var d :| d in cases && d.id == other;
    assert d in rest;
    assert Writes(PaymentId(other, batch), rest, batch);
    assert PaymentId(other, batch) in Survivors(rows, [], batch);
    PriorDrop(Survivors(rows, [], batch), Survivors(rows, rest, batch), claim, batch);
    var c := Exposing(claim, p, q);
    ExposingId(claim, p, q);
    ExposingDiffers(claim, p, q, interest);
    x, y := [c] + rest, rest + [c];
    MovedAround(cases, k, c);
    ResultsClosedForm(rows, x, batch, interest, 0);
    ResultsClosedForm(rows, y, batch, interest, |rest|);
    assert x[..0] == [] && y[..|rest|] == rest && x[0] == y[|rest|];
  }

  lemma MovedAround(cases: seq<Case>, k: nat, c: Case)
    requires DistinctCases(cases) && k < |cases| && c.id == cases[k].id
    ensures var rest := cases[..k] + cases[k + 1..]; AreOrders(IdsOf(cases), [c] + rest, rest + [c])
  {
    var rest := cases[..k] + cases[k + 1..];
    assert forall i :: 0 <= i < |rest| ==> rest[i] == cases[if i < k then i else i + 1];
    assert cases == cases[..k] + [cases[k]] + cases[k + 1..];
    forall id
      ensures id in IdsOf(cases) <==> id in IdsOf([c] + rest)
    {
      if id in IdsOf(cases) {
        var d :| d in cases && d.id == id;
        assert d == cases[k] || d in rest;
      }
      if id in IdsOf([c] + rest) {
        var d :| d in [c] + rest && d.id == id;
        assert d == c || d in cases;
      }
    }
  }

  /** The order of the claims does not matter, whatever the claims of these ids contain, exactly when no
      claim counts on a row that another claim overwrites, unless that row was worth nothing. */
  lemma OrderIndependent(rows: Rows, cases: seq<Case>, batch: string, interest: Interest)
    requires DistinctCases(cases)
    ensures IsOrderSafe(rows, IdsOf(cases), batch) <==>
      forall x, y :: AreOrders(IdsOf(cases), x, y) ==> SameOutcome(rows, x, y, batch, interest)
    ensures IsOrderSafe(rows, IdsOf(cases), batch) <==>
      forall x, y :: AreOrders(IdsOf(cases), x, y) ==> SameTable(rows, x, y, batch, interest)
  {
    hide SameOutcome, SameTable, IsOrderSafe;
    forall x, y | AreOrders(IdsOf(cases), x, y)
      ensures SameOutcome(rows, x, y, batch, interest) <==> SameTable(rows, x, y, batch, interest)
      ensures IsOrderSafe(rows, IdsOf(cases), batch) ==> SameOutcome(rows, x, y, batch, interest)
    {
      OutcomeIffTable(rows, x, y, batch, interest);
      if IsOrderSafe(rows, IdsOf(cases), batch) {
        OrderSafeSame(rows, IdsOf(cases), x, y, batch, interest);
      }
    }
    if !IsOrderSafe(rows, IdsOf(cases), batch) {
      var x, y := OrderShows(rows, cases, batch, interest);
    }
  }

  /** Without any clash of payment ids both are safe. */
  lemma NoClashIsSafe(rows: Rows, cases: seq<Case>, batch: string)
    requires NoClash(rows, cases, batch)
    ensures IsRerunSafe(rows, cases, batch) && IsOrderSafe(rows, IdsOf(cases), batch)
  {
    hide PaymentId;
  }

  /** A re-run can differ: a row of claim 06-3 in a batch named 2024 has the payment id of claim 3 in batch
      2024-06, so paying claim 3 overwrites what claim 06-3 had been paid. */
  lemma ClashBreaksRerun(interest: Interest)
    ensures exists rows: Rows, cases :: DistinctCases(cases) && IsTable(rows) && !IsRepeatable(rows, cases, "2024-06", interest)
  {
    hide IsRepeatable;
    var earlier := Payment("PAY-2024-06-3", "06-3", "o", "2024", 100, 0, 0, map[]);
    var rows: Rows := map[earlier.id := earlier];
    var none := Terms(0, 0, map[]);
    var cases := [Case("06-3", "o", [], none), Case("3", "p", [], none)];
    assert PaymentId("3", "2024-06") == earlier.id;
    assert !Spares(rows, cases[0].id, cases[1].id, "2024-06");
    var shown := UnsafeShows(rows, cases, "2024-06", interest);
    assert DistinctCases(shown) && IsTable(rows);
  }

  // ---------------------------------------------------------------- tables without clashes

  /** The id has the form of a payment id for a batch name of `n` characters and one of the claims. */
  predicate IsPossibleId(id: string, n: nat, claims: set<string>) {
    |id| >= n + 5 && id[..4] == "PAY-" && id[4 + n] == '-' && id[n + 5..] in claims
  }

  /** A row under such an id belongs to the batch that the id names. */
  predicate IsIssued(rows: Rows, n: nat, claims: set<string>) {
    forall id :: id in rows && IsPossibleId(id, n, claims) ==> rows[id].batch == id[4..4 + n]
  }

  lemma PaymentIdForm(claim: string, batch: string)
    ensures var id := PaymentId(claim, batch);
      |id| == |batch| + 5 + |claim| && id[..4] == "PAY-" && id[4..4 + |batch|] == batch && id[4 + |batch|] == '-' && id[|batch| + 5..] == claim
  {}

  lemma IdOfForm(id: string, n: nat, claims: set<string>)
    requires IsPossibleId(id, n, claims)
    ensures id == PaymentId(id[n + 5..], id[4..4 + n])
  {
    assert id == id[..4] + id[4..4 + n] + [id[4 + n]] + id[n + 5..];
  }

  /** No batch whose name has `n` characters clashes, whichever of the claims it holds, exactly when every
      row under a possible payment id belongs to the batch that its id names. */
  lemma IssuedNeverClash(rows: Rows, n: nat, claims: set<string>)
    ensures IsIssued(rows, n, claims) <==>
      forall batch: string, cases: seq<Case> :: |batch| == n && IdsOf(cases) <= claims ==> NoClash(rows, cases, batch)
  {
    hide PaymentId;
    if IsIssued(rows, n, claims) {
      forall batch: string, cases: seq<Case> | |batch| == n && IdsOf(cases) <= claims
        ensures NoClash(rows, cases, batch)
      {
        forall c | c in cases && PaymentId(c.id, batch) in rows
          ensures rows[PaymentId(c.id, batch)].batch == batch
        {
          assert c.id in IdsOf(cases);
          PaymentIdForm(c.id, batch);
        }
      }
    } else {
      var id :| id in rows && IsPossibleId(id, n, claims) && rows[id].batch != id[4..4 + n];
      var (claim, batch) := (id[n + 5..], id[4..4 + n]);
      IdOfForm(id, n, claims);
      var cases := [Case(claim, "", [], Terms(0, 0, map[]))];
      assert IdsOf(cases) == {claim};
      assert cases[0] in cases && PaymentId(cases[0].id, batch) in rows;
    }
  }

  /** Runs keep such tables, so no later run clashes either. */
  lemma {:induction false} RunKeepsIssued(rows: Rows, cases: seq<Case>, batch: string, interest: Interest, claims: set<string>)
    requires IsIssued(rows, |batch|, claims)
    ensures IsIssued(RunRows(rows, cases, batch, interest), |batch|, claims)
  {
    hide Row, PaymentId, Record, IsPossibleId;
    if cases != [] {
      var (front, c) := (cases[..|cases| - 1], cases[|cases| - 1]);
      var before := RunRows(rows, front, batch, interest);
      RunKeepsIssued(rows, front, batch, interest, claims);
      RowFields(before, c, batch, interest);
      RecordFacts(before, Row(before, c, batch, interest));
      PaymentIdForm(c.id, batch);
    }
  }

  function Shipped(id: string, claim: string, occurrence: string, batch: string, indemnity: nat, deductible: nat,
                   categories: map<string, nat>): Payment {
    Payment(id, claim, occurrence, batch, indemnity, 0, deductible, categories)
  }

  /** The table the application starts from. */
  function ShippedHistory(): Rows {
    map[
      "PAY-24-000117" := Shipped("PAY-24-000117", "CLM-24-0217", "OCC-24-0217", "2024-03", 643000, 150000,
        map["jewelry" := 120000, "electronics" := 410000, "furniture" := 263000]),
      "PAY-24-000141" := Shipped("PAY-24-000141", "CLM-24-0305", "OCC-24-0305", "2024-04", 6000000, 100000,
        map["furniture" := 2040000, "electronics" := 784000, "appliances" := 1031250, "clothing" := 450000, "art" := 320000]),
      "PAY-24-000163" := Shipped("PAY-24-000163", "CLM-24-0412", "OCC-24-0412", "2024-05", 19900, 250000,
        map["jewelry" := 190000, "electronics" := 79900])]
  }

  /** Its ids cannot be payment ids of a month written in seven characters, so no monthly batch ever clashes. */
  lemma ShippedHistoryIssued(claims: set<string>)
    ensures IsIssued(ShippedHistory(), 7, claims)
  {
    assert "PAY-24-000117"[11] == '1' && "PAY-24-000141"[11] == '4' && "PAY-24-000163"[11] == '6';
  }

  lemma ShippedHistoryIsTable()
    ensures IsTable(ShippedHistory())
  {}
}
