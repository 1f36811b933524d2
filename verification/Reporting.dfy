/** The run summary, and what its figures say about the ledger. */
module Reporting {
  import opened Common
  import opened ReconModel
  import opened MatchingRules
  import opened BatchSearch
  import opened Runs
  import opened Scoring

  // ---------------------------------------------------------------- what the counters count

  function CountRule(outs: seq<Outcome>, rule: Rule): nat {
    if outs == [] then 0
    else
      var n := |outs| - 1;
      CountRule(outs[..n], rule) + if outs[n].Matched? && outs[n].rule == rule then 1 else 0
  }

  function CountReason(outs: seq<Outcome>, reason: Reason): nat {
    if outs == [] then 0
    else
      var n := |outs| - 1;
      CountReason(outs[..n], reason) + if outs[n].Unmatched? && outs[n].reason == reason then 1 else 0
  }

  function CountMatched(outs: seq<Outcome>): nat {
    if outs == [] then 0
    else
      var n := |outs| - 1;
      CountMatched(outs[..n]) + if outs[n].Matched? then 1 else 0
  }

  function CountInvoices(outs: seq<Outcome>): nat {
    if outs == [] then 0 else CountInvoices(outs[..|outs| - 1]) + |Matches(outs[|outs| - 1])|
  }

  /** Total of the amounts of the matched lines. */
  function MatchedAmount(lines: seq<Line>, outs: seq<Outcome>): int
    requires |lines| == |outs|
  {
    if outs == [] then 0
    else
      var n := |outs| - 1;
      MatchedAmount(lines[..n], outs[..n]) + if outs[n].Matched? then lines[n].amount else 0
  }

  function Sum(counts: map<Rule, nat>): nat
    requires forall r :: r in counts
  {
    counts[A1] + counts[A2] + counts[B1] + counts[B2] + counts[B3]
  }

  class Summary {
    var lines: nat
    var matchedLines: nat
    var unmatchedLines: nat
    var matchedInvoices: nat
    var matchedAmount: int
    var byRule: map<Rule, nat>
    var unmatchedByReason: map<Reason, nat>

    constructor (n: nat)
      ensures lines == n && matchedLines == unmatchedLines == matchedInvoices == 0 && matchedAmount == 0
      ensures forall r :: r in byRule && byRule[r] == 0
      ensures forall r :: r in unmatchedByReason && unmatchedByReason[r] == 0
    {
      lines, matchedLines, unmatchedLines, matchedInvoices, matchedAmount := n, 0, 0, 0, 0;
      byRule := map[A1 := 0, A2 := 0, B1 := 0, B2 := 0, B3 := 0];
      unmatchedByReason := map[Debit := 0, InvoiceConsumed := 0, NoCandidate := 0];
      new;
      forall r: Rule
        ensures r in byRule && byRule[r] == 0
      {
        assert r == A1 || r == A2 || r == B1 || r == B2 || r == B3;
      }
      forall r: Reason
        ensures r in unmatchedByReason && unmatchedByReason[r] == 0
      {
        assert r == Debit || r == InvoiceConsumed || r == NoCandidate;
      }
    }

    /** The counters describe these outcomes. */
    ghost predicate Describes(ls: seq<Line>, outs: seq<Outcome>)
      reads this
      requires |ls| == |outs|
    {
      && matchedLines == CountMatched(outs)
      && matchedInvoices == CountInvoices(outs)
      && matchedAmount == MatchedAmount(ls, outs)
      && (forall r :: r in byRule && byRule[r] == CountRule(outs, r))
      && (forall r :: r in unmatchedByReason && unmatchedByReason[r] == CountReason(outs, r))
    }
  }

  method Summarize(ls: seq<Line>, outs: seq<Outcome>) returns (s: Summary)
    requires |ls| == |outs|
    ensures fresh(s) && s.Describes(ls, outs)
    ensures s.lines == |outs| == s.matchedLines + s.unmatchedLines
    ensures Sum(s.byRule) == s.matchedLines
    ensures s.unmatchedByReason[Debit] + s.unmatchedByReason[InvoiceConsumed] + s.unmatchedByReason[NoCandidate] == s.unmatchedLines
  {
    hide CountMatched, CountInvoices, MatchedAmount, CountRule, CountReason;
    s := new Summary(|outs|);
    NothingCounted();
    for n := 0 to |outs|
      invariant fresh(s) && s.lines == |outs|
      invariant s.matchedLines + s.unmatchedLines == n
      invariant s.Describes(ls[..n], outs[..n])
    {
      var o := outs[n];
      CountStep(ls, outs, n);
      if o.Matched? {
        s.matchedLines := s.matchedLines + 1;
        s.matchedInvoices := s.matchedInvoices + |o.invoices|;
        s.matchedAmount := s.matchedAmount + ls[n].amount;
        s.byRule := s.byRule[o.rule := s.byRule[o.rule] + 1];
      } else {
        s.unmatchedLines := s.unmatchedLines + 1;
        s.unmatchedByReason := s.unmatchedByReason[o.reason := s.unmatchedByReason[o.reason] + 1];
      }
    }
    assert ls[..|outs|] == ls && outs[..|outs|] == outs;
    CountsAddUp(outs);
  }

  /** What one more outcome adds to every count. */
  lemma CountStep(ls: seq<Line>, outs: seq<Outcome>, n: nat)
    requires |ls| == |outs| && n < |outs|
    ensures var o := outs[n];
      && CountMatched(outs[..n + 1]) == CountMatched(outs[..n]) + (if o.Matched? then 1 else 0)
      && CountInvoices(outs[..n + 1]) == CountInvoices(outs[..n]) + |Matches(o)|
      && MatchedAmount(ls[..n + 1], outs[..n + 1]) == MatchedAmount(ls[..n], outs[..n]) + (if o.Matched? then ls[n].amount else 0)
    ensures forall r :: CountRule(outs[..n + 1], r) == CountRule(outs[..n], r) + if outs[n].Matched? && outs[n].rule == r then 1 else 0
    ensures forall r :: CountReason(outs[..n + 1], r) == CountReason(outs[..n], r) + if outs[n].Unmatched? && outs[n].reason == r then 1 else 0
  {
    assert outs[..n + 1][..n] == outs[..n] && ls[..n + 1][..n] == ls[..n];
  }

  lemma NothingCounted()
    ensures CountMatched([]) == CountInvoices([]) == 0 && MatchedAmount([], []) == 0
    ensures (forall r :: CountRule([], r) == 0) && forall r :: CountReason([], r) == 0
  {}

  /** Per-rule counts sum to the matched lines, per-reason counts to the rest. */
  lemma {:induction false} CountsAddUp(outs: seq<Outcome>)
    ensures CountRule(outs, A1) + CountRule(outs, A2) + CountRule(outs, B1) + CountRule(outs, B2) + CountRule(outs, B3) == CountMatched(outs)
    ensures CountReason(outs, Debit) + CountReason(outs, InvoiceConsumed) + CountReason(outs, NoCandidate) == |outs| - CountMatched(outs)
  {
    if outs != [] {
      CountsAddUp(outs[..|outs| - 1]);
    }
  }

  // ---------------------------------------------------------------- the open balance

  /** Total of a set of invoices. */
  ghost function Balance(s: set<Invoice>): int {
    if s == {} then 0 else var i :| i in s; i.amount + Balance(s - {i})
  }

  lemma {:induction false} BalanceWithout(s: set<Invoice>, i: Invoice)
    requires i in s
    ensures Balance(s) == i.amount + Balance(s - {i}) && Balance({}) == 0
    decreases s
  {
    var j :| j in s && Balance(s) == j.amount + Balance(s - {j});
    if i != j {
      BalanceWithout(s - {j}, i);
      BalanceWithout(s - {i}, j);
      assert s - {j} - {i} == s - {i} - {j};
    }
  }

  /** Taking a match out of the available invoices lowers the balance by its total. */
  lemma {:induction false} BalanceTaken(s: set<Invoice>, invs: seq<Invoice>)
    requires DistinctIds(invs) && forall i :: i in invs ==> i in s
    ensures Balance(s - set i | i in invs) == Balance(s) - Total(invs)
    decreases |invs|
  {
    hide Balance;
    if invs == [] {
      assert s - (set i | i in invs) == s;
    } else {
      BalanceWithout(s, invs[0]);
      RestOf(s, invs);
      BalanceTaken(s - {invs[0]}, invs[1..]);
    }
  }

  lemma RestOf(s: set<Invoice>, invs: seq<Invoice>)
    requires invs != [] && DistinctIds(invs) && forall i :: i in invs ==> i in s
    ensures DistinctIds(invs[1..]) && forall i :: i in invs[1..] ==> i in s - {invs[0]}
    ensures s - (set i | i in invs) == s - {invs[0]} - set i | i in invs[1..]
  {
    assert invs == [invs[0]] + invs[1..];
  }

  /** The open balance of a ledger. */
  ghost function OpenBalance(rows: map<int, Invoice>): int {
    Balance(Available(rows, {}))
  }

  /** Over a run the available balance drops by the matched amount, up to the tolerance per match. */
  lemma {:induction false} BalanceDrop(w: World, avail: set<Invoice>, gone: set<string>, lines: seq<Line>, outs: seq<Outcome>)
    requires SoundFinder(w.finder) && DistinctSet(avail)
    requires DecidesRun(w, avail, gone, lines, outs)
    ensures Abs(Balance(avail) - Balance(avail - Taken(outs)) - MatchedAmount(lines, outs)) <= TOLERANCE * CountMatched(outs)
    decreases |outs|
  {
    hide Decides, DecidesRun, References, SoundFinder, Taken, TakenIds, Balance, NothingTwice;
    if outs == [] {
      NothingTakenYet(w, avail, gone, lines);
    } else {
      var n := |outs| - 1;
      var o, before := outs[n], avail - Taken(outs[..n]);
      RunLength(w, avail, gone, lines, outs);
      RunOneLess(w, avail, gone, lines, outs);
      BalanceDrop(w, avail, gone, lines[..n], outs[..n]);
      DecisionSound(w, before, gone + References(w, Taken(outs[..n])), lines[n], o);
      assert outs == outs[..n] + [o];
      TakenOne(outs[..n], o);
      assert avail - Taken(outs) == before - set i | i in Matches(o);
      BalanceTaken(before, Matches(o));
    }
  }

  lemma RunLength(w: World, avail: set<Invoice>, gone: set<string>, lines: seq<Line>, outs: seq<Outcome>)
    requires DecidesRun(w, avail, gone, lines, outs)
    ensures |lines| == |outs|
  {}

  lemma NothingTakenYet(w: World, avail: set<Invoice>, gone: set<string>, lines: seq<Line>)
    requires DecidesRun(w, avail, gone, lines, [])
    ensures |lines| == 0 && avail - Taken([]) == avail
  {}

  /** Cent conservation: over a run the open balance of the ledger drops by the reported matched
      amount, give or take the tolerance for each matched line. */
  lemma CentConservation(w: World, rows: map<int, Invoice>, lines: seq<Line>, outs: seq<Outcome>, rows': map<int, Invoice>)
    requires SoundFinder(w.finder) && KeyedById(rows)
    requires RunsTo(w, rows, lines, outs, rows')
    ensures |lines| == |outs|
    ensures Abs(OpenBalance(rows) - OpenBalance(rows') - MatchedAmount(lines, outs)) <= TOLERANCE * CountMatched(outs)
  {
    hide *;
    RunLedger(w, rows, lines, outs, rows');
    AvailableDistinct(rows, {});
    BalanceDrop(w, Available(rows, {}), Gone(w, rows, {}), lines, outs);
    RunTakesOnce(w, Available(rows, {}), Gone(w, rows, {}), lines, outs);
    TakenIdsOf(outs);
    PaidIsTaken(w, rows, Taken(outs), TakenIds(outs));
  }

  lemma RunLedger(w: World, rows: map<int, Invoice>, lines: seq<Line>, outs: seq<Outcome>, rows': map<int, Invoice>)
    requires RunsTo(w, rows, lines, outs, rows')
    ensures DecidesRun(w, Available(rows, {}), Gone(w, rows, {}), lines, outs) && |lines| == |outs|
    ensures OpenBalance(rows) == Balance(Available(rows, {}))
    ensures OpenBalance(rows') == Balance(Available(MarkPaid(rows, TakenIds(outs)), {}))
  {
    hide Balance, Taken, Decides;
  }
}
