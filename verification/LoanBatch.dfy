/** The accrual batch: payments posted per account, closed accounts skipped, totals accumulated. */
module LoanBatch {
  import opened Common
  import opened Copybook
  import opened Decimals
  import opened Totals

  datatype Transaction = Transaction(account: nat, tranType: string, amount: int, voided: bool)

  datatype Account = Account(number: nat, status: string, principal: int)

  datatype Result = Result(account: Account, newBalance: int, paid: int, accrued: int, fee: int)

  /** Interest and late fee of an account, from its new balance and the amount paid. */
  type Charges = (Account, int, int) -> (int, int)

  predicate IsClosed(a: Account) {
    a.status == "Z"
  }

  // ---------------------------------------------------------------- posting

  function OfAccount(ts: seq<Transaction>, number: nat): seq<Transaction> {
    if ts == [] then []
    else
      var t := ts[|ts| - 1];
      OfAccount(ts[..|ts| - 1], number) + if t.account == number then [t] else []
  }

  function Get(grouped: map<nat, seq<Transaction>>, number: nat): seq<Transaction> {
    if number in grouped then grouped[number] else []
  }

  method GroupByAccount(ts: seq<Transaction>) returns (grouped: map<nat, seq<Transaction>>)
    ensures forall n :: Get(grouped, n) == OfAccount(ts, n)
  {
    grouped := map[];
    for i := 0 to |ts|
      invariant forall n :: Get(grouped, n) == OfAccount(ts[..i], n)
    {
      assert ts[..i + 1][..i] == ts[..i];
      grouped := grouped[ts[i].account := Get(grouped, ts[i].account) + [ts[i]]];
    }
    assert ts[..|ts|] == ts;
  }

  /** Signed amounts that count, in order; None when an entry that is not voided has an unknown type. */
  function Postings(ts: seq<Transaction>): Option<seq<int>> {
    if ts == [] then Some([])
    else
      var t := ts[|ts| - 1];
      match Postings(ts[..|ts| - 1])
      case None => None
      case Some(xs) =>
        if t.voided then Some(xs)
        else if t.tranType == "P" then Some(xs + [t.amount])
        else if t.tranType == "R" then Some(xs + [-t.amount])
        else None
  }

  /** Net amount paid: None stands for the errors that stop the run. */
  function Paid(ts: seq<Transaction>): Option<int> {
    match Postings(ts)
    case None => None
    case Some(xs) => Fold(xs, PAID_PIC)
  }

  lemma PostingsStep(ts: seq<Transaction>, i: nat)
    requires i < |ts|
    ensures Postings(ts[..i + 1]) ==
      match Postings(ts[..i])
      case None => None
      case Some(xs) =>
        if ts[i].voided then Some(xs)
        else if ts[i].tranType == "P" then Some(xs + [ts[i].amount])
        else if ts[i].tranType == "R" then Some(xs + [-ts[i].amount])
        else None
  {
    assert ts[..i + 1][..i] == ts[..i];
  }

  /** Once posting has failed it stays failed. */
  lemma {:induction false} PaidStuck(ts: seq<Transaction>, i: nat)
    requires i <= |ts| && Paid(ts[..i]).None?
    ensures Paid(ts).None?
    decreases |ts| - i
  {
    hide Postings, Fold;
    if i < |ts| {
      PostingsStep(ts, i);
      if Postings(ts[..i]).Some? {
        var xs := Postings(ts[..i]).value;
        FoldAppend(xs, ts[i].amount, PAID_PIC);
        FoldAppend(xs, -ts[i].amount, PAID_PIC);
      }
      PaidStuck(ts, i + 1);
    } else {
      assert ts[..i] == ts;
    }
  }

  method PaidInPeriod(ts: seq<Transaction>) returns (paid: Option<int>)
    ensures paid == Paid(ts)
  {
    hide Postings, Fold, FitCents;
    var total := 0;
    NothingPosted();
    for i := 0 to |ts|
      invariant Postings(ts[..i]).Some? && Fold(Postings(ts[..i]).value, PAID_PIC) == Some(total)
    {
      var t := ts[i];
      PostingsStep(ts, i);
      if t.voided {
        continue;
      }
      var next: Option<int>;
      if t.tranType == "P" {
        next := FitCents(total + t.amount, PAID_PIC);
        FoldAppend(Postings(ts[..i]).value, t.amount, PAID_PIC);
      } else if t.tranType == "R" {
        next := FitCents(total - t.amount, PAID_PIC);
        FoldAppend(Postings(ts[..i]).value, -t.amount, PAID_PIC);
      } else {
        next := None;
      }
      if next.None? {
        PaidStuck(ts, i + 1);
        return None;
      }
      total := next.value;
    }
    assert ts[..|ts|] == ts;
    paid := Some(total);
  }

  lemma NothingPosted()
    ensures Postings([]) == Some([]) && Fold([], PAID_PIC) == Some(0)
  {}

  function ApplyPayments(principal: int, paid: int): Option<int> {
    FitCents(principal - paid, PAID_PIC)
  }

  // ---------------------------------------------------------------- one account

  /** Result of an account that is not closed, given its transactions; None when an error stops the run. */
  function Process(a: Account, ts: seq<Transaction>, charges: Charges): Option<Result> {
    match Paid(ts)
    case None => None
    case Some(paid) =>
      match ApplyPayments(a.principal, paid)
      case None => None
      case Some(balance) =>
        var (accrued, fee) := charges(a, balance, paid);
        Some(Result(a, balance, paid, accrued, fee))
  }

  /** The new balance is the principal less the net postings, up to a multiple of the field's capacity. */
  lemma BalanceAfterPosting(a: Account, ts: seq<Transaction>, charges: Charges)
    requires Process(a, ts, charges).Some?
    ensures Postings(ts).Some?
    ensures Same(a.principal - Sum(Postings(ts).value), Process(a, ts, charges).value.newBalance, Pow10(13))
  {
    hide Postings, Fold, FitCents, Same, Pow10, Sum;
    var (xs, paid, balance) := (Postings(ts).value, Paid(ts).value, Process(a, ts, charges).value.newBalance);
    var m := Pow10(13);
    SignedTotal(xs, PAID_PIC);
    FitDropsMultiples(a.principal - paid, PAID_PIC);
    SameRefl(a.principal, m);
    SameAdd(a.principal, a.principal, Sum(xs), paid, m);
    SameTrans(a.principal - Sum(xs), a.principal - paid, balance, m);
  }

  // ---------------------------------------------------------------- batch totals

  function Numbers(rs: seq<Result>): (xs: seq<int>) {
    seq(|rs|, k requires 0 <= k < |rs| => rs[k].account.number)
  }

  function Accrued(rs: seq<Result>): (xs: seq<int>) {
    seq(|rs|, k requires 0 <= k < |rs| => rs[k].accrued)
  }

  function Fees(rs: seq<Result>): (xs: seq<int>) {
    seq(|rs|, k requires 0 <= k < |rs| => rs[k].fee)
  }

  function Balances(rs: seq<Result>): (xs: seq<int>) {
    seq(|rs|, k requires 0 <= k < |rs| => rs[k].newBalance)
  }

  lemma ColumnsAppend(rs: seq<Result>, r: Result)
    ensures Numbers(rs + [r]) == Numbers(rs) + [r.account.number]
    ensures Accrued(rs + [r]) == Accrued(rs) + [r.accrued]
    ensures Fees(rs + [r]) == Fees(rs) + [r.fee]
    ensures Balances(rs + [r]) == Balances(rs) + [r.newBalance]
  {}

  class BatchTotals {
    var recordCount: nat
    var hashTotal: int
    var totalAccrued: int
    var totalFees: int
    var totalBalance: int
    var skippedClosed: nat
    var results: seq<Result>

    constructor ()
      ensures recordCount == 0 && skippedClosed == 0 && results == [] && Agrees([])
    {
      recordCount, hashTotal, totalAccrued, totalFees, totalBalance, skippedClosed, results := 0, 0, 0, 0, 0, 0, [];
      new;
      ModUnique(0, HASH_MODULUS, 0, 0);
    }

    /** The figures are those of the given results. */
    ghost predicate Agrees(rs: seq<Result>)
      reads this
    {
      && recordCount == |rs| && hashTotal == Sum(Numbers(rs)) % HASH_MODULUS
      && Fold(Accrued(rs), ACCRUED_PIC) == Some(totalAccrued)
      && Fold(Fees(rs), FEES_PIC) == Some(totalFees)
      && Fold(Balances(rs), BALANCE_PIC) == Some(totalBalance)
    }

    /** Adds one result; an amount that cannot be stored stops the run with the earlier figures changed. */
    method Accumulate(r: Result) returns (ok: bool)
      modifies this
      ensures recordCount == old(recordCount) + 1
      ensures hashTotal == (old(hashTotal) + r.account.number) % HASH_MODULUS
      ensures var a := FitCents(old(totalAccrued) + r.accrued, ACCRUED_PIC);
        var f := FitCents(old(totalFees) + r.fee, FEES_PIC);
        var b := FitCents(old(totalBalance) + r.newBalance, BALANCE_PIC);
        && ok == (a.Some? && f.Some? && b.Some?)
        && totalAccrued == (if a.Some? then a.value else old(totalAccrued))
        && totalFees == (if a.Some? && f.Some? then f.value else old(totalFees))
        && totalBalance == (if ok then b.value else old(totalBalance))
      ensures skippedClosed == old(skippedClosed) && results == old(results)
    {
      hide FitCents;
      recordCount := recordCount + 1;
      hashTotal := (hashTotal + r.account.number) % HASH_MODULUS;
      var fitted := FitCents(totalAccrued + r.accrued, ACCRUED_PIC);
      if fitted.None? {
        return false;
      }
      totalAccrued := fitted.value;
      fitted := FitCents(totalFees + r.fee, FEES_PIC);
      if fitted.None? {
        return false;
      }
      totalFees := fitted.value;
      fitted := FitCents(totalBalance + r.newBalance, BALANCE_PIC);
      if fitted.None? {
        return false;
      }
      totalBalance := fitted.value;
      ok := true;
    }
  }

  // ---------------------------------------------------------------- a whole run

  function Open(accounts: seq<Account>): seq<Account> {
    if accounts == [] then []
    else
      var a := accounts[|accounts| - 1];
      Open(accounts[..|accounts| - 1]) + if IsClosed(a) then [] else [a]
  }

  /** The results are those of the open accounts, in master order. */
  ghost predicate AreResults(rs: seq<Result>, open: seq<Account>, ts: seq<Transaction>, charges: Charges) {
    |rs| == |open| && forall k :: 0 <= k < |rs| ==> Process(open[k], OfAccount(ts, open[k].number), charges) == Some(rs[k])
  }

  /** Every running total of the results can be stored at every step. */
  predicate IsStorable(rs: seq<Result>) {
    Fold(Accrued(rs), ACCRUED_PIC).Some? && Fold(Fees(rs), FEES_PIC).Some? && Fold(Balances(rs), BALANCE_PIC).Some?
  }

  /** Every open account can be processed and the totals can be stored. */
  ghost predicate CanRun(accounts: seq<Account>, ts: seq<Transaction>, charges: Charges) {
    exists rs :: AreResults(rs, Open(accounts), ts, charges) && IsStorable(rs)
  }

  /** Runs all accounts unless an error stops it, which happens exactly when some open account cannot be
      processed or a total cannot be stored. */
  method RunBatch(accounts: seq<Account>, ts: seq<Transaction>, charges: Charges) returns (totals: BatchTotals, ok: bool)
    ensures fresh(totals)
    ensures ok <==> CanRun(accounts, ts, charges)
    ensures ok ==> totals.Agrees(totals.results) && AreResults(totals.results, Open(accounts), ts, charges)
    ensures ok ==> totals.recordCount + totals.skippedClosed == |accounts|
  {
    hide Process, OfAccount, Paid, ApplyPayments, FitCents, Fold, Sum, IsClosed, Open, IsStorable, CanRun;
    var transactions := GroupByAccount(ts);
    totals := new BatchTotals();
    NoneOpen();
    for i := 0 to |accounts|
      invariant fresh(totals) && totals.Agrees(totals.results)
      invariant AreResults(totals.results, Open(accounts[..i]), ts, charges)
      invariant totals.recordCount + totals.skippedClosed == i
    {
      var a := accounts[i];
      OpenStep(accounts, i);
      if IsClosed(a) {
        totals.skippedClosed := totals.skippedClosed + 1;
        continue;
      }
      var mine := Get(transactions, a.number);
      var paid := PaidInPeriod(mine);
      if paid.None? {
        NotProcessed(a, mine, charges);
        Stuck(accounts, i, ts, charges, totals.results);
        return totals, false;
      }
      var balance := ApplyPayments(a.principal, paid.value);
      if balance.None? {
        NotProcessed(a, mine, charges);
        Stuck(accounts, i, ts, charges, totals.results);
        return totals, false;
      }
      var (accrued, fee) := charges(a, balance.value, paid.value);
      var result := Result(a, balance.value, paid.value, accrued, fee);
      Processed(a, mine, charges, paid.value, balance.value);
      AccumulatedStep(totals, totals.results, result);
      StorableStep(totals, totals.results, result);
      var stored := totals.Accumulate(result);
      if !stored {
        Stuck(accounts, i, ts, charges, totals.results);
        return totals, false;
      }
      totals.results := totals.results + [result];
    }
    assert accounts[..|accounts|] == accounts;
    Finished(totals, accounts, ts, charges);
    ok := true;
  }

  lemma Finished(totals: BatchTotals, accounts: seq<Account>, ts: seq<Transaction>, charges: Charges)
    requires totals.Agrees(totals.results) && AreResults(totals.results, Open(accounts), ts, charges)
    ensures CanRun(accounts, ts, charges)
  {
    hide Process, Open, Fold;
    assert IsStorable(totals.results);
  }

  lemma NotProcessed(a: Account, ts: seq<Transaction>, charges: Charges)
    ensures Paid(ts).None? || ApplyPayments(a.principal, Paid(ts).value).None? ==> Process(a, ts, charges).None?
  {
    hide Paid, ApplyPayments;
  }

  /** One more result can be stored exactly when its three amounts fit. */
  lemma StorableStep(totals: BatchTotals, rs: seq<Result>, r: Result)
    requires totals.Agrees(rs)
    ensures IsStorable(rs + [r]) <==>
      && FitCents(totals.totalAccrued + r.accrued, ACCRUED_PIC).Some?
      && FitCents(totals.totalFees + r.fee, FEES_PIC).Some?
      && FitCents(totals.totalBalance + r.newBalance, BALANCE_PIC).Some?
  {
    hide Fold, FitCents, Sum, Pow10;
    AccumulatedStep(totals, rs, r);
  }

  /** When the next open account cannot be processed or its result cannot be stored, no run can finish. */
  lemma Stuck(accounts: seq<Account>, i: nat, ts: seq<Transaction>, charges: Charges, before: seq<Result>)
    requires i < |accounts| && !IsClosed(accounts[i]) && AreResults(before, Open(accounts[..i]), ts, charges)
    requires match Process(accounts[i], OfAccount(ts, accounts[i].number), charges)
      case None => true
      case Some(r) => !IsStorable(before + [r])
    ensures !CanRun(accounts, ts, charges)
  {
    hide Process, OfAccount, Open, IsClosed, IsStorable;
    OpenStep(accounts, i);
    if CanRun(accounts, ts, charges) {
      CanRunSoFar(accounts, i + 1, ts, charges);
      var rs :| AreResults(rs, Open(accounts[..i + 1]), ts, charges) && IsStorable(rs);
      OneResultMore(before, rs, Open(accounts[..i]), accounts[i], ts, charges);
    }
  }

  lemma OneResultMore(before: seq<Result>, rs: seq<Result>, open: seq<Account>, a: Account, ts: seq<Transaction>, charges: Charges)
    requires AreResults(before, open, ts, charges) && AreResults(rs, open + [a], ts, charges)
    ensures |rs| == |before| + 1 && rs == before + [rs[|before|]]
    ensures Process(a, OfAccount(ts, a.number), charges) == Some(rs[|before|])
  {
    hide Process, OfAccount;
    assert (open + [a])[|before|] == a;
    forall k | 0 <= k < |before|
      ensures rs[k] == before[k]
    {
      assert (open + [a])[k] == open[k];
    }
  }

  lemma {:induction false} CanRunSoFar(accounts: seq<Account>, i: nat, ts: seq<Transaction>, charges: Charges)
    requires i <= |accounts| && CanRun(accounts, ts, charges)
    ensures CanRun(accounts[..i], ts, charges)
    decreases |accounts|
  {
    hide Process, OfAccount, Open, IsClosed, IsStorable;
    if i == |accounts| {
      assert accounts[..i] == accounts;
    } else {
      var n := |accounts| - 1;
      OpenStep(accounts, n);
      assert accounts[..n + 1] == accounts;
      var rs :| AreResults(rs, Open(accounts), ts, charges) && IsStorable(rs);
      if !IsClosed(accounts[n]) {
        StorableFront(rs);
        assert AreResults(rs[..|rs| - 1], Open(accounts[..n]), ts, charges);
      }
      assert CanRun(accounts[..n], ts, charges);
      CanRunSoFar(accounts[..n], i, ts, charges);
      assert accounts[..n][..i] == accounts[..i];
    }
  }

  lemma StorableFront(rs: seq<Result>)
    requires rs != [] && IsStorable(rs)
    ensures IsStorable(rs[..|rs| - 1])
  {
    hide FitCents, Fold;
    var (front, r) := (rs[..|rs| - 1], rs[|rs| - 1]);
    assert rs == front + [r];
    ColumnsAppend(front, r);
    FoldAppend(Accrued(front), r.accrued, ACCRUED_PIC);
    FoldAppend(Fees(front), r.fee, FEES_PIC);
    FoldAppend(Balances(front), r.newBalance, BALANCE_PIC);
  }

  predicate LeavesRoom(r: Result) {
    Abs(r.accrued) + Pow10(13) <= Pow10(PRECISION) && Abs(r.fee) + Pow10(13) <= Pow10(PRECISION)
  }

  /** A run finishes when every open account can be processed and its interest and fee leave room in the
      decimal context; new balances always do. */
  lemma RunFinishes(accounts: seq<Account>, ts: seq<Transaction>, charges: Charges, rs: seq<Result>)
    requires AreResults(rs, Open(accounts), ts, charges) && forall k :: 0 <= k < |rs| ==> LeavesRoom(rs[k])
    ensures CanRun(accounts, ts, charges)
  {
    hide Process, OfAccount, Open, Pow10, Fold;
    BalanceRoom();
    forall k | 0 <= k < |rs|
      ensures Abs(Balances(rs)[k]) + Pow10(15) <= Pow10(PRECISION)
      ensures Abs(Accrued(rs)[k]) + Pow10(13) <= Pow10(PRECISION) && Abs(Fees(rs)[k]) + Pow10(13) <= Pow10(PRECISION)
    {
      var a := Open(accounts)[k];
      assert Process(a, OfAccount(ts, a.number), charges) == Some(rs[k]);
      BalanceInRange(a, OfAccount(ts, a.number), charges);
      assert LeavesRoom(rs[k]);
    }
    TotalsDefined(Accrued(rs), ACCRUED_PIC);
    TotalsDefined(Fees(rs), FEES_PIC);
    TotalsDefined(Balances(rs), BALANCE_PIC);
    assert IsStorable(rs);
  }

  lemma BalanceRoom()
    ensures Pow10(13) + Pow10(15) <= Pow10(PRECISION)
  {
    hide Pow10;
    PowerGrows(13, 15);
    Pow10Add(15, 1);
    TenOnce();
    PowerGrows(16, PRECISION);
  }

  lemma TenOnce()
    ensures Pow10(1) == 10
  {}

  lemma BalanceInRange(a: Account, ts: seq<Transaction>, charges: Charges)
    requires Process(a, ts, charges).Some?
    ensures Abs(Process(a, ts, charges).value.newBalance) < Pow10(13)
  {
    hide Paid, FitToPic, Pow10;
    FitInRange(Dec(a.principal - Paid(ts).value, 2), PAID_PIC);
  }

  lemma Processed(a: Account, ts: seq<Transaction>, charges: Charges, paid: int, balance: int)
    requires Paid(ts) == Some(paid) && ApplyPayments(a.principal, paid) == Some(balance)
    ensures Process(a, ts, charges) == Some(Result(a, balance, paid, charges(a, balance, paid).0, charges(a, balance, paid).1))
  {
    hide Paid, ApplyPayments;
  }

  lemma NoneOpen()
    ensures Open([]) == []
  {}

  lemma OpenStep(accounts: seq<Account>, i: nat)
    requires i < |accounts|
    ensures Open(accounts[..i + 1]) == Open(accounts[..i]) + if IsClosed(accounts[i]) then [] else [accounts[i]]
  {
    assert accounts[..i + 1][..i] == accounts[..i];
  }

  lemma AccumulatedStep(totals: BatchTotals, rs: seq<Result>, r: Result)
    requires totals.Agrees(rs)
    ensures Sum(Numbers(rs + [r])) % HASH_MODULUS == (totals.hashTotal + r.account.number) % HASH_MODULUS
    ensures Fold(Accrued(rs + [r]), ACCRUED_PIC) == FitCents(totals.totalAccrued + r.accrued, ACCRUED_PIC)
    ensures Fold(Fees(rs + [r]), FEES_PIC) == FitCents(totals.totalFees + r.fee, FEES_PIC)
    ensures Fold(Balances(rs + [r]), BALANCE_PIC) == FitCents(totals.totalBalance + r.newBalance, BALANCE_PIC)
  {
    hide Fold, FitCents, Sum, Pow10;
    ColumnsAppend(rs, r);
    FoldAppend(Numbers(rs), r.account.number, ACCRUED_PIC);
    FoldAppend(Accrued(rs), r.accrued, ACCRUED_PIC);
    FoldAppend(Fees(rs), r.fee, FEES_PIC);
    FoldAppend(Balances(rs), r.newBalance, BALANCE_PIC);
    ModAdd(Sum(Numbers(rs)), r.account.number, HASH_MODULUS);
  }

  function Principals(open: seq<Account>): seq<int> {
    seq(|open|, k requires 0 <= k < |open| => open[k].principal)
  }

  /** Net postings of the open accounts, 0 for accounts that cannot be posted. */
  function NetPostings(open: seq<Account>, ts: seq<Transaction>): seq<int> {
    seq(|open|, k requires 0 <= k < |open| =>
      match Postings(OfAccount(ts, open[k].number)) case None => 0 case Some(xs) => Sum(xs))
  }

  /** Over a whole run the total balance is the open principal less the net postings, up to multiples of
      the capacity of an account's balance. */
  lemma BalanceConserved(rs: seq<Result>, open: seq<Account>, ts: seq<Transaction>, charges: Charges)
    requires AreResults(rs, open, ts, charges) && Fold(Balances(rs), BALANCE_PIC).Some?
    ensures Same(Sum(Principals(open)) - Sum(NetPostings(open, ts)), Fold(Balances(rs), BALANCE_PIC).value, Pow10(13))
  {
    hide Process, Fold, Sum, Same, Pow10, OfAccount, Balances, Principals, NetPostings;
    var total := Fold(Balances(rs), BALANCE_PIC).value;
    SumOfBalances(rs, open, ts, charges);
    SignedTotal(Balances(rs), BALANCE_PIC);
    Coarser(Sum(Balances(rs)), total);
    SameTrans(Sum(Principals(open)) - Sum(NetPostings(open, ts)), Sum(Balances(rs)), total, Pow10(13));
  }

  lemma Coarser(a: int, b: int)
    requires Same(a, b, Pow10(15))
    ensures Same(a, b, Pow10(13))
  {
    hide Pow10;
    Pow10Add(13, 2);
    var k := (a - b) / Pow10(15);
    TenSquared();
    assert Pow10(15) * k == Pow10(13) * (100 * k);
    SameByMultiple(a, b, Pow10(13), 100 * k);
  }

  lemma TenSquared()
    ensures Pow10(2) == 100
  {}

  lemma {:induction false} SumOfBalances(rs: seq<Result>, open: seq<Account>, ts: seq<Transaction>, charges: Charges)
    requires AreResults(rs, open, ts, charges)
    ensures Same(Sum(Principals(open)) - Sum(NetPostings(open, ts)), Sum(Balances(rs)), Pow10(13))
  {
    hide Process, Sum, Same, Pow10, OfAccount, Postings, Principals, NetPostings, Balances;
    var m := Pow10(13);
    if rs == [] {
      SumNothing(ts);
      SameRefl(0, m);
    } else {
      var n := |rs| - 1;
      var (a, r) := (open[n], rs[n]);
      var mine := OfAccount(ts, a.number);
      SumOfBalances(rs[..n], open[..n], ts, charges);
      BalanceAfterPosting(a, mine, charges);
      ColumnsSplit(rs, open, ts, n);
      FoldAppend(Balances(rs[..n]), r.newBalance, BALANCE_PIC);
      FoldAppend(Principals(open[..n]), a.principal, BALANCE_PIC);
      FoldAppend(NetPostings(open[..n], ts), Sum(Postings(mine).value), BALANCE_PIC);
      SameAdd(Sum(Principals(open[..n])) - Sum(NetPostings(open[..n], ts)), Sum(Balances(rs[..n])),
              a.principal - Sum(Postings(mine).value), r.newBalance, m);
    }
  }

  lemma SumNothing(ts: seq<Transaction>)
    ensures Sum(Principals([])) == 0 && Sum(NetPostings([], ts)) == 0 && Sum(Balances([])) == 0
  {}

  lemma ColumnsSplit(rs: seq<Result>, open: seq<Account>, ts: seq<Transaction>, n: nat)
    requires |rs| == n + 1 == |open| && Postings(OfAccount(ts, open[n].number)).Some?
    ensures Balances(rs) == Balances(rs[..n]) + [rs[n].newBalance]
    ensures Principals(open) == Principals(open[..n]) + [open[n].principal]
    ensures NetPostings(open, ts) == NetPostings(open[..n], ts) + [Sum(Postings(OfAccount(ts, open[n].number)).value)]
  {
    hide Sum, OfAccount, Postings;
  }

  /** What the trailer of a finished run says about its records: exact count, hash and fees modulo their
      capacity, accrued interest and balance up to multiples of theirs. */
  lemma TrailerFigures(totals: BatchTotals, rs: seq<Result>, open: seq<Account>, ts: seq<Transaction>, charges: Charges)
    requires totals.Agrees(rs) && AreResults(rs, open, ts, charges)
    requires forall a, balance, paid :: charges(a, balance, paid).1 >= 0
    ensures totals.recordCount == |open| && totals.hashTotal == Sum(Numbers(rs)) % Pow10(11)
    ensures totals.totalFees == Sum(Fees(rs)) % Pow10(13)
    ensures Same(Sum(Accrued(rs)), totals.totalAccrued, Pow10(13))
    ensures Same(Sum(Principals(open)) - Sum(NetPostings(open, ts)), totals.totalBalance, Pow10(13))
  {
    hide Process, Fold, Sum, Same, Pow10, OfAccount, Principals, NetPostings;
    FeesNotNegative(rs, open, ts, charges);
    UnsignedTotal(Fees(rs), FEES_PIC);
    SignedTotal(Accrued(rs), ACCRUED_PIC);
    BalanceConserved(rs, open, ts, charges);
  }

  lemma FeesNotNegative(rs: seq<Result>, open: seq<Account>, ts: seq<Transaction>, charges: Charges)
    requires AreResults(rs, open, ts, charges) && forall a, balance, paid :: charges(a, balance, paid).1 >= 0
    ensures forall k :: 0 <= k < |rs| ==> Fees(rs)[k] >= 0
  {
    hide Paid, ApplyPayments, OfAccount;
    forall k | 0 <= k < |rs|
      ensures rs[k].fee >= 0
    {
      assert Process(open[k], OfAccount(ts, open[k].number), charges) == Some(rs[k]);
    }
  }
}
