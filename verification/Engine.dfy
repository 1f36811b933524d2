/** The engine: full-ledger candidate generation per line, the decision, and the run over a
    statement that consumes invoices and writes the store. */
module Engine {
  import opened Common
  import opened ReconModel
  import opened MatchingRules
  import opened Scoring
  import opened Ledger
  import opened Runs
  import opened BatchSearch
  import Customers

  class CandidateScan {
    var candidates: seq<Candidate>
    /** A token named an invoice that is paid or already consumed. */
    var unavailableReferenceSeen: bool

    constructor ()
      ensures candidates == [] && !unavailableReferenceSeen
    {
      candidates, unavailableReferenceSeen := [], false;
    }
  }

  /** The id set that the run shares with every line. */
  class ConsumedIds {
    var ids: set<int>

    constructor ()
      ensures ids == {}
    {
      ids := {};
    }
  }

  // ---------------------------------------------------------------- rules A1 and A2

  /** What the scan makes of one available invoice. */
  function ScanOne(w: World, line: Line, inv: Invoice): Option<Candidate> {
    if Norm(w, inv) in line.tokens then
      if AmountsAgree(inv.amount, line.amount) then Some(Single(w, line, A1, inv)) else None
    else if IsFuzzy(w, line, inv) then Some(Single(w, line, A2, inv))
    else None
  }

  ghost predicate IsScanned(w: World, line: Line, rows: map<int, Invoice>, consumed: set<int>, ids: seq<int>,
                            cands: seq<Candidate>, seen: bool)
  {
    && (forall c :: c in cands <==>
         exists id :: id in ids && id in rows && IsAvailable(rows[id], consumed) && ScanOne(w, line, rows[id]) == Some(c))
    && (seen <==>
         exists id :: id in ids && id in rows && !IsAvailable(rows[id], consumed) && Norm(w, rows[id]) in line.tokens)
  }

  lemma ScannedNone(w: World, line: Line, rows: map<int, Invoice>, consumed: set<int>)
    ensures IsScanned(w, line, rows, consumed, [], [], false)
  {}

  lemma ScannedOne(w: World, line: Line, rows: map<int, Invoice>, consumed: set<int>, ids: seq<int>,
                   cands: seq<Candidate>, seen: bool, id: int)
    requires IsScanned(w, line, rows, consumed, ids, cands, seen) && id in rows
    ensures var found := if IsAvailable(rows[id], consumed) then ScanOne(w, line, rows[id]) else None;
      IsScanned(w, line, rows, consumed, ids + [id], cands + (if found.Some? then [found.value] else []),
                seen || (!IsAvailable(rows[id], consumed) && Norm(w, rows[id]) in line.tokens))
  {
    hide ScanOne, IsAvailable, Norm;
  }

  method ScanReferences(w: World, line: Line, repo: Repository, consumed: ConsumedIds) returns (scan: CandidateScan)
    requires KeyedById(repo.invoices)
    ensures fresh(scan)
    ensures IsScan(w, line, repo.invoices, consumed.ids, scan.candidates, scan.unavailableReferenceSeen)
  {
    hide IsScanned, Norm, MinDistance, IsScan;
    scan := new CandidateScan();
    var ids := repo.AllInvoiceIds();
    ScannedNone(w, line, repo.invoices, consumed.ids);
    for n := 0 to |ids|
      invariant fresh(scan)
      invariant IsScanned(w, line, repo.invoices, consumed.ids, ids[..n], scan.candidates, scan.unavailableReferenceSeen)
    {
      ScannedOne(w, line, repo.invoices, consumed.ids, ids[..n], scan.candidates, scan.unavailableReferenceSeen, ids[n]);
      assert ids[..n + 1] == ids[..n] + [ids[n]];
      assert ids[n] in ids;
      var found := repo.GetInvoice(ids[n]);
      var inv := found.value;
      var norm := Norm(w, inv);
      var diff := Diff(line, inv);
      if !inv.open || inv.id in consumed.ids {
        if norm in line.tokens {
          scan.unavailableReferenceSeen := true;
        }
        assert scan.candidates + [] == scan.candidates;
        continue;
      }
      if norm in line.tokens {
        if diff <= TOLERANCE {
          scan.candidates := scan.candidates + [Candidate(A1, [inv], diff, 0)];
        } else {
          assert scan.candidates + [] == scan.candidates;
        }
        continue;
      }
      assert scan.candidates + [] == scan.candidates;
      if line.tokens != [] {
        var distance := LeastDistance(line.tokens, norm);
        if distance <= FUZZY_MAX && diff <= TOLERANCE {
          scan.candidates := scan.candidates + [Candidate(A2, [inv], diff, distance)];
        }
      }
    }
    assert ids[..|ids|] == ids;
    ScanComplete(w, line, repo.invoices, consumed.ids, ids, scan.candidates, scan.unavailableReferenceSeen);
  }

  /** The scan of the whole ledger, without its order. */
  ghost predicate IsScan(w: World, line: Line, rows: map<int, Invoice>, consumed: set<int>, cands: seq<Candidate>, seen: bool) {
    && (forall c :: c in cands <==> exists i :: i in Available(rows, consumed) && ScanOne(w, line, i) == Some(c))
    && (seen <==> TokenIsGone(line, Gone(w, rows, consumed)))
  }

  lemma ScanComplete(w: World, line: Line, rows: map<int, Invoice>, consumed: set<int>, ids: seq<int>,
                     cands: seq<Candidate>, seen: bool)
    requires IsScanned(w, line, rows, consumed, ids, cands, seen)
    requires forall id :: id in ids <==> id in rows
    ensures IsScan(w, line, rows, consumed, cands, seen)
  {
    hide ScanOne, IsAvailable, Norm;
    forall c
      ensures c in cands <==> exists i :: i in Available(rows, consumed) && ScanOne(w, line, i) == Some(c)
    {
      if c in cands {
        var id :| id in ids && id in rows && IsAvailable(rows[id], consumed) && ScanOne(w, line, rows[id]) == Some(c);
        assert rows[id] in Available(rows, consumed);
      }
    }
  }

  /** A non-empty scan decides the line by rule A1, or else by rule A2; an empty one leaves both without candidates. */
  lemma ScanDecides(w: World, line: Line, rows: map<int, Invoice>, consumed: set<int>, cands: seq<Candidate>, seen: bool)
    requires KeyedById(rows) && IsScan(w, line, rows, consumed, cands, seen)
    ensures forall c :: c in cands ==> IsCandidate(c)
    ensures var avail := Available(rows, consumed);
      if A1Set(w, avail, line) != {} then
        Best(cands).Some? && TakesBest(w, line, A1, A1Set(w, avail, line), Matched(Best(cands).value.rule, Best(cands).value.invoices))
      else if A2Set(w, avail, line) != {} then
        Best(cands).Some? && TakesBest(w, line, A2, A2Set(w, avail, line), Matched(Best(cands).value.rule, Best(cands).value.invoices))
      else cands == []
  {
    hide Norm, MinDistance, Diff, RankDistance, TakesBest, Best, Available, Gone, KeyedById, TokenIsGone;
    var avail := Available(rows, consumed);
    AvailableDistinct(rows, consumed);
    if A1Set(w, avail, line) != {} {
      forall i | i in A1Set(w, avail, line)
        ensures Single(w, line, A1, i) in cands
      {
        assert ScanOne(w, line, i) == Some(Single(w, line, A1, i));
      }
      BestTakesBest(w, line, A1, A1Set(w, avail, line), cands);
    } else if A2Set(w, avail, line) != {} {
      forall i | i in A2Set(w, avail, line)
        ensures Single(w, line, A2, i) in cands
      {
        assert i !in A1Set(w, avail, line);
        assert ScanOne(w, line, i) == Some(Single(w, line, A2, i));
      }
      forall c | c in cands
        ensures exists i :: i in A2Set(w, avail, line) && c == Single(w, line, A2, i)
      {
        var i :| i in avail && ScanOne(w, line, i) == Some(c);
        assert i !in A1Set(w, avail, line);
        assert i in A2Set(w, avail, line);
      }
      BestTakesBest(w, line, A2, A2Set(w, avail, line), cands);
    } else {
      forall i | i in avail && ScanOne(w, line, i).Some?
        ensures i in A1Set(w, avail, line) || i in A2Set(w, avail, line)
      {}
      NoCandidates(cands);
    }
  }

  // ---------------------------------------------------------------- rules B1, B2 and B3

  /** The customer's available invoices, oldest first. */
  method AvailableOf(customer: int, repo: Repository, consumed: ConsumedIds) returns (list: seq<Invoice>)
    requires KeyedById(repo.invoices)
    ensures IsAgeOrder(list, OfCustomer(Available(repo.invoices, consumed.ids), Some(customer)))
  {
    var all := repo.OpenInvoicesForCustomer(customer);
    list := Unconsumed(all, consumed.ids);
  }

  method RuleB1(line: Line, customer: Option<int>, repo: Repository, consumed: ConsumedIds, w: World) returns (cands: seq<Candidate>)
    requires KeyedById(repo.invoices)
    ensures AreSingles(w, line, B1, B1Set(Available(repo.invoices, consumed.ids), line, customer), cands)
  {
    hide Diff, RankDistance, OldestFirst, DistinctIds, Available;
    cands := [];
    if customer.None? {
      return;
    }
    var list := AvailableOf(customer.value, repo, consumed);
    for n := 0 to |list|
      invariant forall c :: c in cands <==> exists i :: i in list[..n] && IsByIban(line, customer, i) && c == Single(w, line, B1, i)
    {
      assert list[..n + 1] == list[..n] + [list[n]];
      assert list[n] in list;
      if AmountsAgree(list[n].amount, line.amount) {
        cands := cands + [Single(w, line, B1, list[n])];
      }
    }
    assert list[..|list|] == list;
  }

  method RuleB2(line: Line, customer: Option<int>, repo: Repository, consumed: ConsumedIds, w: World) returns (cands: seq<Candidate>)
    requires KeyedById(repo.invoices)
    ensures AreSingles(w, line, B2, B2Set(Available(repo.invoices, consumed.ids), line, customer), cands)
  {
    hide Diff, RankDistance, OldestFirst, DistinctIds, Available;
    cands := [];
    if customer.None? {
      return;
    }
    var list := AvailableOf(customer.value, repo, consumed);
    for n := 0 to |list|
      invariant forall c :: c in cands <==> exists i :: i in list[..n] && IsByName(line, customer, i) && c == Single(w, line, B2, i)
    {
      assert list[..n + 1] == list[..n] + [list[n]];
      assert list[n] in list;
      if AmountsAgree(list[n].amount, line.amount) && Abs(list[n].due - line.booking) <= B2_WINDOW {
        cands := cands + [Single(w, line, B2, list[n])];
      }
    }
    assert list[..|list|] == list;
  }

  predicate IsBatchCandidate(w: World, line: Line, customer: Option<int>, list: seq<Invoice>, cands: seq<Candidate>) {
    var run := if customer.Some? then w.finder(list, line.amount) else [];
    cands == if run == [] then [] else [Candidate(B3, run, Abs(Total(run) - line.amount), 0)]
  }

  method RuleB3(line: Line, customer: Option<int>, repo: Repository, consumed: ConsumedIds, w: World) returns (cands: seq<Candidate>)
    requires KeyedById(repo.invoices)
    ensures exists list ::
      IsAgeOrder(list, OfCustomer(Available(repo.invoices, consumed.ids), customer)) && IsBatchCandidate(w, line, customer, list, cands)
  {
    cands := [];
    if customer.None? {
      assert IsAgeOrder([], OfCustomer(Available(repo.invoices, consumed.ids), customer));
      assert IsBatchCandidate(w, line, customer, [], cands);
      return;
    }
    var invs := AvailableOf(customer.value, repo, consumed);
    var run := w.finder(invs, line.amount);
    if run == [] {
      assert IsBatchCandidate(w, line, customer, invs, cands);
      return;
    }
    var total := Total(run);
    cands := [Candidate(B3, run, Abs(total - line.amount), 0)];
    assert IsBatchCandidate(w, line, customer, invs, cands);
  }

  // ---------------------------------------------------------------- one line

  /** Candidates of the first rule, in A1..B3 order, that produces any. */
  method FindCandidates(line: Line, repo: Repository, byIban: Option<int>, byName: Option<int>, consumed: ConsumedIds, w: World)
      returns (scan: CandidateScan)
    requires KeyedById(repo.invoices) && line.amount > 0
    ensures fresh(scan)
    ensures forall c :: c in scan.candidates ==> IsCandidate(c)
    ensures DecidesFor(w, Available(repo.invoices, consumed.ids), Gone(w, repo.invoices, consumed.ids), line, byIban, byName,
                       Decide(line, scan.candidates, scan.unavailableReferenceSeen))
  {
    hide A1Set, A2Set, B1Set, B2Set, DecidesFor, IsAgeOrder, Available, Gone, Best, IsScan, AreSingles, IsBatchCandidate, Decide, KeyedById;
    scan := ScanReferences(w, line, repo, consumed);
    ghost var seen, cands := scan.unavailableReferenceSeen, scan.candidates;
    var b1 := RuleB1(line, byIban, repo, consumed, w);
    var b2 := RuleB2(line, byName, repo, consumed, w);
    var b3 := RuleB3(line, Payer(byIban, byName), repo, consumed, w);
    ghost var list :|
      IsAgeOrder(list, OfCustomer(Available(repo.invoices, consumed.ids), Payer(byIban, byName)))
      && IsBatchCandidate(w, line, Payer(byIban, byName), list, b3);
    FirstRuleDecides(w, line, repo.invoices, consumed.ids, byIban, byName, list, cands, seen, b1, b2, b3);
    if scan.candidates == [] {
      if b1 != [] {
        scan.candidates := b1;
      } else if b2 != [] {
        scan.candidates := b2;
      } else if b3 != [] {
        scan.candidates := b3;
      }
    }
  }

  function FirstNonEmpty(a: seq<Candidate>, b: seq<Candidate>, c: seq<Candidate>, d: seq<Candidate>): seq<Candidate> {
    if a != [] then a else if b != [] then b else if c != [] then c else d
  }

  lemma FirstRuleDecides(w: World, line: Line, rows: map<int, Invoice>, consumed: set<int>,
                         byIban: Option<int>, byName: Option<int>, list: seq<Invoice>,
                         scanned: seq<Candidate>, seen: bool, b1: seq<Candidate>, b2: seq<Candidate>, b3: seq<Candidate>)
    requires KeyedById(rows) && line.amount > 0
    requires IsScan(w, line, rows, consumed, scanned, seen)
    requires AreSingles(w, line, B1, B1Set(Available(rows, consumed), line, byIban), b1)
    requires AreSingles(w, line, B2, B2Set(Available(rows, consumed), line, byName), b2)
    requires IsAgeOrder(list, OfCustomer(Available(rows, consumed), Payer(byIban, byName)))
    requires IsBatchCandidate(w, line, Payer(byIban, byName), list, b3)
    ensures forall c :: c in FirstNonEmpty(scanned, b1, b2, b3) ==> IsCandidate(c)
    ensures DecidesFor(w, Available(rows, consumed), Gone(w, rows, consumed), line, byIban, byName,
                       Decide(line, FirstNonEmpty(scanned, b1, b2, b3), seen))
  {
    hide A1Set, A2Set, B1Set, B2Set, TakesBest, AreSingles, Best, TokenIsGone, Available, Gone, KeyedById, IsAgeOrder;
    var avail := Available(rows, consumed);
    ScanDecides(w, line, rows, consumed, scanned, seen);
    AvailableDistinct(rows, consumed);
    SubsetDistinct(avail, line, byIban, byName);
    SinglesDecide(w, line, B1, B1Set(avail, line, byIban), b1);
    SinglesDecide(w, line, B2, B2Set(avail, line, byName), b2);
  }

  lemma SubsetDistinct(avail: set<Invoice>, line: Line, byIban: Option<int>, byName: Option<int>)
    requires DistinctSet(avail)
    ensures DistinctSet(B1Set(avail, line, byIban)) && DistinctSet(B2Set(avail, line, byName))
  {}

  // ---------------------------------------------------------------- the pipeline

  method ProcessLine(line: Line, repo: Repository, w: World, consumed: ConsumedIds) returns (result: Outcome)
    requires KeyedById(repo.invoices)
    modifies consumed
    ensures Decides(w, Available(repo.invoices, old(consumed.ids)), Gone(w, repo.invoices, old(consumed.ids)), line, result)
    ensures consumed.ids == old(consumed.ids) + Ids(Matches(result))
  {
    hide A1Set, A2Set, B1Set, B2Set, DecidesFor, IsAgeOrder, NamedByIban, NamedByName, Available, Gone, Best, KeyedById, IsCandidate;
    var byIban := Customers.IdentifyByIban(w, line.iban);
    var byName := Customers.IdentifyByName(w, line.remitter);
    var scan;
    if line.amount > 0 {
      scan := FindCandidates(line, repo, byIban, byName, consumed, w);
      result := Decide(line, scan.candidates, scan.unavailableReferenceSeen);
    } else {
      scan := new CandidateScan();
      result := Decide(line, scan.candidates, scan.unavailableReferenceSeen);
    }
    if result.Matched? {
      consumed.ids := consumed.ids + Ids(result.invoices);
    }
  }

  /** Match line by line against the ledger as it stands, and flip what was matched to paid. */
  method RunPipeline(w: World, repo: Repository, lines: seq<Line>) returns (outs: seq<Outcome>, consumed: ConsumedIds)
    requires KeyedById(repo.invoices) && SoundFinder(w.finder)
    modifies repo
    ensures |outs| == |lines|
    ensures RunsTo(w, old(repo.invoices), lines, outs, repo.invoices)
    ensures repo.matches == Recorded(old(repo.matches), lines, outs)
    ensures repo.bankLines == Booked(old(repo.bankLines), lines)
    ensures fresh(consumed) && consumed.ids == TakenIds(outs)
  {
    hide *;
    ghost var rows0, matches0 := repo.invoices, repo.matches;
    outs := [];
    consumed := new ConsumedIds();
    RunStart(w, rows0, matches0, repo.bankLines);
    for n := 0 to |lines|
      invariant |outs| == n && fresh(consumed)
      invariant RunsTo(w, rows0, lines[..n], outs, repo.invoices)
      invariant KeyedById(repo.invoices)
      invariant consumed.ids == TakenIds(outs)
      invariant repo.matches == Recorded(matches0, lines[..n], outs)
      invariant repo.bankLines == Booked(old(repo.bankLines), lines[..n])
    {
      ghost var rows := repo.invoices;
      var line := lines[n];
      var result := ProcessLine(line, repo, w, consumed);
      repo.InsertBankLine(line);
      var _ := repo.MarkMatched(line, result);
      RunStep(w, rows0, lines[..n], outs, rows, line, result);
      RecordedStep(matches0, lines[..n], outs, line, result);
      BookedStep(old(repo.bankLines), lines[..n], line);
      MatchesOf(rows, result);
      TakenOne(outs, result);
      assert lines[..n + 1] == lines[..n] + [line];
      outs := outs + [result];
    }
    assert lines[..|lines|] == lines;
  }

  lemma RunStart(w: World, rows: map<int, Invoice>, matches: map<(string, int), MatchRow>, booked: map<string, Line>)
    ensures RunsTo(w, rows, [], [], rows) && Recorded(matches, [], []) == matches && TakenIds([]) == {}
    ensures Booked(booked, []) == booked
  {}

  /** The bank lines after a run: one per line id, the last one of an id. */
  function Booked(bankLines: map<string, Line>, lines: seq<Line>): map<string, Line> {
    if lines == [] then bankLines else Booked(bankLines, lines[..|lines| - 1])[lines[|lines| - 1].id := lines[|lines| - 1]]
  }

  /** Every processed line is stored under its id, the last one where ids repeat. */
  lemma {:induction false} BookedExact(bankLines: map<string, Line>, lines: seq<Line>, k: nat)
    requires k < |lines| && forall l :: k < l < |lines| ==> lines[l].id != lines[k].id
    ensures lines[k].id in Booked(bankLines, lines) && Booked(bankLines, lines)[lines[k].id] == lines[k]
  {
    var n := |lines| - 1;
    if k < n {
      BookedExact(bankLines, lines[..n], k);
    }
  }

  lemma BookedStep(bankLines: map<string, Line>, lines: seq<Line>, line: Line)
    ensures Booked(bankLines, lines + [line]) == Booked(bankLines, lines)[line.id := line]
  {
    assert (lines + [line])[..|lines|] == lines;
  }

  lemma MatchesOf(rows: map<int, Invoice>, o: Outcome)
    ensures Matches(o) == if o.Matched? then o.invoices else []
    ensures o.Unmatched? ==> MarkPaid(rows, Ids(Matches(o))) == rows
  {}

  lemma RecordedStep(matches: map<(string, int), MatchRow>, lines: seq<Line>, outs: seq<Outcome>, line: Line, o: Outcome)
    requires |lines| == |outs|
    ensures Recorded(matches, lines + [line], outs + [o]) ==
      if o.Matched? then Recorded(matches, lines, outs) + Rows(line, o.rule, o.invoices) else Recorded(matches, lines, outs)
  {
    var n := |outs|;
    assert (lines + [line])[..n] == lines && (outs + [o])[..n] == outs;
    assert Recorded(matches, lines, outs) + map[] == Recorded(matches, lines, outs);
  }

  /** One turn of the loop. At its head everything consumed is already paid, so the line is decided
      as if only the ledger had been looked at; afterwards its matches are paid as well. */
  lemma RunStep(w: World, rows0: map<int, Invoice>, lines: seq<Line>, outs: seq<Outcome>, rows: map<int, Invoice>, line: Line, o: Outcome)
    requires SoundFinder(w.finder) && KeyedById(rows0)
    requires RunsTo(w, rows0, lines, outs, rows)
    requires Decides(w, Available(rows, TakenIds(outs)), Gone(w, rows, TakenIds(outs)), line, o)
    ensures RunsTo(w, rows0, lines + [line], outs + [o], MarkPaid(rows, Ids(Matches(o))))
    ensures KeyedById(MarkPaid(rows, Ids(Matches(o))))
  {
    hide Decides, DecidesRun, Available, Gone, References, Taken, SoundFinder, Ids, Matches, TakenIds;
    var avail, gone, taken := Available(rows0, {}), Gone(w, rows0, {}), Taken(outs);
    AvailableDistinct(rows0, {});
    RunTakesOnce(w, avail, gone, lines, outs);
    ConsumedIsPaid(rows0, TakenIds(outs));
    ConsumedTestRedundant(w, rows, TakenIds(outs));
    TakenIdsOf(outs);
    PaidIsTaken(w, rows0, taken, TakenIds(outs));
    RunOneMore(w, avail, gone, lines, outs, line, o);
    TakenOne(outs, o);
  }

  /** At each loop head the consumed ids are among the paid ones. */
  lemma ConsumedIsPaid(rows0: map<int, Invoice>, consumed: set<int>)
    requires KeyedById(rows0)
    ensures var rows := MarkPaid(rows0, consumed); forall id :: id in rows && rows[id].id in consumed ==> !rows[id].open
  {}
}
