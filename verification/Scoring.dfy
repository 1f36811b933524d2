/** Candidates, their ranking key, and the decision of one line. */
module Scoring {
  import opened Common
  import opened ReconModel
  import opened MatchingRules
  import EditDistance

  datatype Candidate = Candidate(rule: Rule, invoices: seq<Invoice>, diff: nat, distance: nat)

  function Priority(rule: Rule): nat {
    match rule
    case A1 => 0
    case A2 => 1
    case B1 => 2
    case B2 => 3
    case B3 => 4
  }

  /** The oldest invoice of a candidate. */
  function Oldest(invs: seq<Invoice>): (r: Invoice)
    requires invs != []
    ensures r in invs && forall i :: i in invs ==> !Older(i, r)
  {
    if |invs| == 1 then invs[0]
    else
      var r := Oldest(invs[..|invs| - 1]);
      assert invs == invs[..|invs| - 1] + [invs[|invs| - 1]];
      if Older(invs[|invs| - 1], r) then invs[|invs| - 1] else r
  }

  predicate IsCandidate(c: Candidate) {
    c.invoices != []
  }

  /** The order of the key tuples (rule priority, amount difference, distance, due date, id). */
  predicate KeyLess(c: Candidate, d: Candidate)
    requires IsCandidate(c) && IsCandidate(d)
  {
    Priority(c.rule) < Priority(d.rule)
    || (c.rule == d.rule && Preferred(c.diff, c.distance, Oldest(c.invoices), d.diff, d.distance, Oldest(d.invoices)))
  }

  lemma KeyLessTransitive(c: Candidate, d: Candidate, e: Candidate)
    requires IsCandidate(c) && IsCandidate(d) && IsCandidate(e)
    ensures KeyLess(c, d) && !KeyLess(e, d) ==> !KeyLess(e, c)
  {}

  /** The first candidate with the least key. */
  function Best(cands: seq<Candidate>): (r: Option<Candidate>)
    requires forall c :: c in cands ==> IsCandidate(c)
    ensures cands == [] <==> r == None
    ensures r.Some? ==> r.value in cands && forall c :: c in cands ==> !KeyLess(c, r.value)
  {
    if cands == [] then None
    else
      var front, last := cands[..|cands| - 1], cands[|cands| - 1];
      assert cands == front + [last];
      var best := Best(front);
      if best.None? then Some(last)
      else if KeyLess(last, best.value) then
        assert forall c :: c in front ==> !KeyLess(c, last) by {
          forall c | c in front
            ensures !KeyLess(c, last)
          {
            KeyLessTransitive(last, best.value, c);
          }
        }
        Some(last)
      else best
  }

  /** A single-invoice candidate as each of the rules A1 to B2 builds it. */
  function Single(w: World, line: Line, rule: Rule, inv: Invoice): Candidate {
    Candidate(rule, [inv], Diff(line, inv), RankDistance(w, line, rule, inv))
  }

  predicate DistinctSet(s: set<Invoice>) {
    forall i, j :: i in s && j in s && i.id == j.id ==> i == j
  }

  lemma AvailableDistinct(rows: map<int, Invoice>, consumed: set<int>)
    requires KeyedById(rows)
    ensures DistinctSet(Available(rows, consumed))
  {}

  /** Among the candidates of one rule and any of later rules, `Best` takes the best of that rule. */
  lemma BestTakesBest(w: World, line: Line, rule: Rule, s: set<Invoice>, cands: seq<Candidate>)
    requires s != {} && DistinctSet(s)
    requires forall i :: i in s ==> Single(w, line, rule, i) in cands
    requires forall c :: c in cands ==> IsCandidate(c)
    requires forall c :: c in cands ==> Priority(rule) < Priority(c.rule) || exists i :: i in s && c == Single(w, line, rule, i)
    ensures Best(cands).Some?
    ensures TakesBest(w, line, rule, s, Matched(Best(cands).value.rule, Best(cands).value.invoices))
  {
    hide Best, RankDistance, Diff;
    var some :| some in s;
    assert Single(w, line, rule, some) in cands;
    var b := Best(cands).value;
    assert !KeyLess(Single(w, line, rule, some), b);
    var i :| i in s && b == Single(w, line, rule, i);
    forall j | j in s && j != i
      ensures Beats(w, line, rule, i, j)
    {
      assert !KeyLess(Single(w, line, rule, j), b);
    }
  }

  /** Debits are never matched; the reason of an unmatched credit depends on the tokens seen. */
  function Decide(line: Line, cands: seq<Candidate>, unavailableReferenceSeen: bool): Outcome
    requires forall c :: c in cands ==> IsCandidate(c)
  {
    if line.amount <= 0 then Unmatched(Debit)
    else
      var chosen := Best(cands);
      if chosen.Some? then Matched(chosen.value.rule, chosen.value.invoices)
      else if unavailableReferenceSeen then Unmatched(InvoiceConsumed)
      else Unmatched(NoCandidate)
  }

  /** Candidates with pairwise different keys: the choice does not depend on their order. */
  lemma ChoiceIgnoresOrder(a: seq<Candidate>, b: seq<Candidate>)
    requires forall c :: c in a <==> c in b
    requires forall c :: c in a ==> IsCandidate(c)
    requires forall c, d :: c in a && d in a && c != d ==> KeyLess(c, d) || KeyLess(d, c)
    ensures Best(a) == Best(b)
  {
    hide KeyLess;
    assert a != [] ==> a[0] in b;
    assert b != [] ==> b[0] in a;
  }

  /** The candidates are exactly the single-invoice candidates of the set. */
  ghost predicate AreSingles(w: World, line: Line, rule: Rule, s: set<Invoice>, cands: seq<Candidate>) {
    forall c :: c in cands <==> exists i :: i in s && c == Single(w, line, rule, i)
  }

  lemma SinglesDecide(w: World, line: Line, rule: Rule, s: set<Invoice>, cands: seq<Candidate>)
    requires AreSingles(w, line, rule, s, cands) && DistinctSet(s)
    ensures forall c :: c in cands ==> IsCandidate(c)
    ensures cands == [] <==> s == {}
    ensures s != {} ==>
      Best(cands).Some? && TakesBest(w, line, rule, s, Matched(Best(cands).value.rule, Best(cands).value.invoices))
  {
    hide Diff, RankDistance, TakesBest, Best;
    forall i | i in s
      ensures Single(w, line, rule, i) in cands
    {}
    NoCandidates(cands);
    if s != {} {
      BestTakesBest(w, line, rule, s, cands);
    }
  }

  lemma NoCandidates(cands: seq<Candidate>)
    ensures cands == [] || exists c :: c in cands
  {
    if cands != [] {
      assert cands[0] in cands;
    }
  }

  // ---------------------------------------------------------------- steps both matchers share

  method LeastDistance(tokens: seq<string>, reference: string) returns (d: nat)
    requires tokens != []
    ensures d == MinDistance(tokens, reference)
  {
    hide EditDistance.IsEditDistance, EditDistance.Distance;
    d := EditDistance.Levenshtein(tokens[0], reference);
    for k := 1 to |tokens|
      invariant k < |tokens| ==> MinDistance(tokens, reference) == Min(d, MinDistance(tokens[k..], reference))
      invariant k == |tokens| ==> MinDistance(tokens, reference) == d
    {
      var e := EditDistance.Levenshtein(tokens[k], reference);
      assert tokens[k..][1..] == tokens[k + 1..];
      d := Min(d, e);
    }
  }

  /** Skip the consumed invoices, keeping the order. */
  method Unconsumed(all: seq<Invoice>, consumed: set<int>) returns (list: seq<Invoice>)
    requires OldestFirst(all) && DistinctIds(all)
    ensures OldestFirst(list) && DistinctIds(list)
    ensures forall i :: i in list <==> i in all && i.id !in consumed
  {
    list := [];
    for n := 0 to |all|
      invariant OldestFirst(list + all[n..]) && DistinctIds(list + all[n..])
      invariant forall i :: i in list <==> i in all[..n] && i.id !in consumed
    {
      assert all[n..] == [all[n]] + all[n + 1..];
      assert all[..n + 1] == all[..n] + [all[n]];
      assert list + all[n..] == list + [all[n]] + all[n + 1..];
      if all[n].id !in consumed {
        list := list + [all[n]];
      } else {
        DropOne(list, all[n], all[n + 1..]);
      }
    }
    assert list + all[|all|..] == list && all[..|all|] == all;
  }

  lemma DropOne(a: seq<Invoice>, x: Invoice, b: seq<Invoice>)
    requires OldestFirst(a + [x] + b) && DistinctIds(a + [x] + b)
    ensures OldestFirst(a + b) && DistinctIds(a + b)
  {
    var s := a + [x] + b;
    forall i, j | 0 <= i < j < |a + b|
      ensures !Older((a + b)[j], (a + b)[i]) && (a + b)[i].id != (a + b)[j].id
    {
      var i', j' := if i < |a| then i else i + 1, if j < |a| then j else j + 1;
      assert s[i'] == (a + b)[i] && s[j'] == (a + b)[j];
    }
  }
}
