/** What the matching rules imply for whole runs over a ledger: how availability moves from line to
    line, that nothing is matched twice over any sequence of runs, and what the match rows say. */
module Runs {
  import opened Common
  import opened ReconModel
  import opened MatchingRules
  import opened BatchSearch
  import opened Ledger
  import opened Scoring

  // ---------------------------------------------------------------- one line

  predicate IsSoundMatch(avail: set<Invoice>, line: Line, o: Outcome) {
    o.Matched? ==>
      && line.amount > 0
      && o.invoices != [] && DistinctIds(o.invoices)
      && (forall i :: i in o.invoices ==> i in avail)
      && AmountsAgree(Total(o.invoices), line.amount)
  }

  /** A match takes available invoices, each once, whose sum agrees with the line. */
  lemma DecisionSound(w: World, avail: set<Invoice>, gone: set<string>, line: Line, o: Outcome)
    requires SoundFinder(w.finder) && Decides(w, avail, gone, line, o)
    ensures IsSoundMatch(avail, line, o)
  {
    hide A1Set, A2Set, B1Set, B2Set, SoundFinder, NamedByIban, NamedByName, TakesBest, DecidesLate;
    if line.amount > 0 {
      var byIban, byName :|
        NamedByIban(w, line.iban, byIban) && NamedByName(w, line.remitter, byName)
        && DecidesFor(w, avail, gone, line, byIban, byName, o);
      CandidatesAgree(w, avail, line, byIban);
      CandidatesAgree(w, avail, line, byName);
      SingleSound(w, avail, line, A1, A1Set(w, avail, line), o);
      SingleSound(w, avail, line, A2, A2Set(w, avail, line), o);
      SingleSound(w, avail, line, B1, B1Set(avail, line, byIban), o);
      SingleSound(w, avail, line, B2, B2Set(avail, line, byName), o);
      LateSound(w, avail, gone, line, Payer(byIban, byName), o);
    }
  }

  predicate AllAgree(avail: set<Invoice>, line: Line, s: set<Invoice>) {
    forall i :: i in s ==> i in avail && AmountsAgree(i.amount, line.amount)
  }

  lemma CandidatesAgree(w: World, avail: set<Invoice>, line: Line, who: Option<int>)
    ensures AllAgree(avail, line, A1Set(w, avail, line)) && AllAgree(avail, line, A2Set(w, avail, line))
    ensures AllAgree(avail, line, B1Set(avail, line, who)) && AllAgree(avail, line, B2Set(avail, line, who))
  {
    hide Norm, MinDistance;
  }

  lemma LateSound(w: World, avail: set<Invoice>, gone: set<string>, line: Line, who: Option<int>, o: Outcome)
    requires SoundFinder(w.finder) && line.amount > 0
    ensures DecidesLate(w, avail, gone, line, who, o) ==> IsSoundMatch(avail, line, o)
  {
    hide TokenIsGone, OldestFirst;
    if DecidesLate(w, avail, gone, line, who, o) {
      var list :| IsAgeOrder(list, OfCustomer(avail, who)) && PaysRun(w, gone, line, who, list, o);
      assert SoundChoice(list, line.amount, w.finder(list, line.amount));
    }
  }

  lemma SingleSound(w: World, avail: set<Invoice>, line: Line, rule: Rule, s: set<Invoice>, o: Outcome)
    requires AllAgree(avail, line, s)
    ensures line.amount > 0 && TakesBest(w, line, rule, s, o) ==> IsSoundMatch(avail, line, o)
  {
    if TakesBest(w, line, rule, s, o) {
      assert o.invoices == [o.invoices[0]];
      assert Total(o.invoices) == o.invoices[0].amount + Total([]);
    }
  }

  // ---------------------------------------------------------------- from line to line

  function TakenIds(outs: seq<Outcome>): set<int> {
    set i | i in Taken(outs) :: i.id
  }

  lemma TakenIdsOf(outs: seq<Outcome>)
    ensures TakenIds(outs) == set i | i in Taken(outs) :: i.id
  {}

  lemma TakenOne(outs: seq<Outcome>, o: Outcome)
    ensures Taken(outs + [o]) == Taken(outs) + set i | i in Matches(o)
    ensures TakenIds(outs + [o]) == TakenIds(outs) + Ids(Matches(o))
  {
    var more := set i | i in Matches(o);
    assert Taken(outs + [o]) == Taken(outs) + more by {
      forall i
        ensures i in Taken(outs + [o]) <==> i in Taken(outs) || i in more
      {
        if i in Taken(outs) {
          var x :| x in outs && x.Matched? && i in x.invoices;
          assert x in outs + [o];
        }
        if i in more {
          assert o in outs + [o];
        }
      }
    }
  }

  /** Flipping the matched invoices to paid is the same as taking them out of the available ones. */
  lemma PaidIsTaken(w: World, rows: map<int, Invoice>, taken: set<Invoice>, ids: set<int>)
    requires KeyedById(rows) && taken <= Available(rows, {})
    requires ids == set i | i in taken :: i.id
    ensures KeyedById(MarkPaid(rows, ids))
    ensures Available(MarkPaid(rows, ids), {}) == Available(rows, {}) - taken
    ensures Gone(w, MarkPaid(rows, ids), {}) == Gone(w, rows, {}) + References(w, taken)
  {
    hide Norm, Gone, References;
    forall id | id in rows
      ensures id in ids <==> rows[id] in taken
    {
      if id in ids {
        var i :| i in taken && i.id == id;
        assert i in Available(rows, {});
      }
    }
    GoneAfter(w, rows, taken, ids);
  }

  lemma GoneAfter(w: World, rows: map<int, Invoice>, taken: set<Invoice>, ids: set<int>)
    requires taken <= Available(rows, {})
    requires forall id :: id in rows ==> (id in ids <==> rows[id] in taken)
    ensures Gone(w, MarkPaid(rows, ids), {}) == Gone(w, rows, {}) + References(w, taken)
  {
    hide Norm;
    var after := MarkPaid(rows, ids);
    forall id | id in rows
      ensures Norm(w, after[id]) == Norm(w, rows[id])
    {
      NormIgnoresStatus(w, rows[id]);
    }
    forall r | r in References(w, taken)
      ensures r in Gone(w, after, {})
    {
      var i :| i in taken && r == Norm(w, i);
      var id :| id in rows && rows[id] == i;
      assert r == Norm(w, after[id]);
    }
    forall r | r in Gone(w, rows, {})
      ensures r in Gone(w, after, {})
    {
      var id :| id in rows && !IsAvailable(rows[id], {}) && r == Norm(w, rows[id]);
      assert r == Norm(w, after[id]);
    }
  }

  lemma NormIgnoresStatus(w: World, inv: Invoice)
    ensures Norm(w, inv.(open := false)) == Norm(w, inv)
  {}

  /** Extending a run by one decided line. */
  lemma RunOneMore(w: World, avail: set<Invoice>, gone: set<string>, lines: seq<Line>, outs: seq<Outcome>, line: Line, o: Outcome)
    requires DecidesRun(w, avail, gone, lines, outs)
    requires Decides(w, avail - Taken(outs), gone + References(w, Taken(outs)), line, o)
    ensures DecidesRun(w, avail, gone, lines + [line], outs + [o])
  {
    hide Decides, References, Taken;
    forall k | 0 <= k < |lines| + 1
      ensures DecidesAt(w, avail, gone, lines + [line], outs + [o], k)
    {
      if k < |lines| {
        assert DecidesAt(w, avail, gone, lines, outs, k);
        assert (outs + [o])[..k] == outs[..k];
      } else {
        assert (outs + [o])[..k] == outs;
      }
    }
  }

  /** The run up to its last line, and that line. */
  lemma RunOneLess(w: World, avail: set<Invoice>, gone: set<string>, lines: seq<Line>, outs: seq<Outcome>)
    requires DecidesRun(w, avail, gone, lines, outs) && outs != []
    ensures var n := |outs| - 1;
      && DecidesRun(w, avail, gone, lines[..n], outs[..n])
      && Decides(w, avail - Taken(outs[..n]), gone + References(w, Taken(outs[..n])), lines[n], outs[n])
  {
    hide Decides, References, Taken;
    var n := |outs| - 1;
    assert DecidesAt(w, avail, gone, lines, outs, n);
    forall k | 0 <= k < n
      ensures DecidesAt(w, avail, gone, lines[..n], outs[..n], k)
    {
      assert DecidesAt(w, avail, gone, lines, outs, k);
      assert outs[..n][..k] == outs[..k];
    }
  }

  // ---------------------------------------------------------------- one run

  /** The ledger after a run. */
  ghost predicate RunsTo(w: World, rows: map<int, Invoice>, lines: seq<Line>, outs: seq<Outcome>, rows': map<int, Invoice>) {
    && DecidesRun(w, Available(rows, {}), Gone(w, rows, {}), lines, outs)
    && rows' == MarkPaid(rows, TakenIds(outs))
  }

  /** No invoice occurs in two matches, nor twice in one. */
  ghost predicate NothingTwice(outs: seq<Outcome>) {
    && (forall k, l :: 0 <= k < l < |outs| ==> Ids(Matches(outs[k])) !! Ids(Matches(outs[l])))
    && (forall k :: 0 <= k < |outs| ==> DistinctIds(Matches(outs[k])))
  }

  lemma NothingTwiceOne(outs: seq<Outcome>, o: Outcome)
    requires NothingTwice(outs) && DistinctIds(Matches(o)) && Ids(Matches(o)) !! TakenIds(outs)
    ensures NothingTwice(outs + [o])
  {
    forall k | 0 <= k < |outs|
      ensures Ids(Matches(outs[k])) <= TakenIds(outs)
    {
      forall id | id in Ids(Matches(outs[k]))
        ensures id in TakenIds(outs)
      {
        var i :| i in Matches(outs[k]) && i.id == id;
        assert outs[k] in outs && i in Taken(outs);
      }
    }
  }

  /** Every match of a run takes what was available at its start, and nothing is matched twice. */
  lemma {:induction false} RunTakesOnce(w: World, avail: set<Invoice>, gone: set<string>, lines: seq<Line>, outs: seq<Outcome>)
    requires SoundFinder(w.finder) && DistinctSet(avail)
    requires DecidesRun(w, avail, gone, lines, outs)
    ensures Taken(outs) <= avail
    ensures NothingTwice(outs)
    decreases |outs|
  {
    if outs != [] {
      hide Decides, References, SoundFinder, Taken, TakenIds;
      var n := |outs| - 1;
      RunOneLess(w, avail, gone, lines, outs);
      RunTakesOnce(w, avail, gone, lines[..n], outs[..n]);
      DecisionSound(w, avail - Taken(outs[..n]), gone + References(w, Taken(outs[..n])), lines[n], outs[n]);
      assert outs == outs[..n] + [outs[n]];
      TakenOne(outs[..n], outs[n]);
      NothingTwiceOne(outs[..n], outs[n]);
    } else {
      assert Taken(outs) == {};
    }
  }

  function PaidIds(rows: map<int, Invoice>): set<int> {
    set id | id in rows && !rows[id].open
  }

  /** A run matches only open invoices, none of them twice, and pays exactly what it matches. */
  lemma RunIsSafe(w: World, rows: map<int, Invoice>, lines: seq<Line>, outs: seq<Outcome>, rows': map<int, Invoice>)
    requires SoundFinder(w.finder) && KeyedById(rows)
    requires RunsTo(w, rows, lines, outs, rows')
    ensures KeyedById(rows') && NothingTwice(outs)
    ensures forall id :: id in TakenIds(outs) ==> id in rows && rows[id].open
    ensures PaidIds(rows') == PaidIds(rows) + TakenIds(outs)
  {
    hide DecidesRun, SoundFinder, Taken, Gone, NothingTwice;
    RunTakesOnce(w, Available(rows, {}), Gone(w, rows, {}), lines, outs);
    forall id | id in TakenIds(outs)
      ensures id in rows && rows[id].open
    {
      var i :| i in Taken(outs) && i.id == id;
      assert i in Available(rows, {});
    }
  }

  // ---------------------------------------------------------------- runs and re-runs

  datatype Night = Night(lines: seq<Line>, outs: seq<Outcome>)

  /** Night after night, each run starting from the ledger the one before left behind. */
  ghost predicate IsHistory(w: World, rows: map<int, Invoice>, nights: seq<Night>, rows': map<int, Invoice>)
    decreases |nights|
  {
    if nights == [] then rows' == rows
    else
      var next := MarkPaid(rows, TakenIds(nights[0].outs));
      RunsTo(w, rows, nights[0].lines, nights[0].outs, next) && IsHistory(w, next, nights[1..], rows')
  }

  function AllOuts(nights: seq<Night>): seq<Outcome> {
    if nights == [] then [] else nights[0].outs + AllOuts(nights[1..])
  }

  lemma TakenConcat(a: seq<Outcome>, b: seq<Outcome>)
    ensures TakenIds(a + b) == TakenIds(a) + TakenIds(b)
  {
    assert Taken(a + b) == Taken(a) + Taken(b);
  }

  lemma NothingTwiceConcat(a: seq<Outcome>, b: seq<Outcome>)
    requires NothingTwice(a) && NothingTwice(b) && TakenIds(a) !! TakenIds(b)
    ensures NothingTwice(a + b)
  {
    hide TakenIds, DistinctIds, Ids, Matches;
    forall k, l | 0 <= k < l < |a + b|
      ensures Ids(Matches((a + b)[k])) !! Ids(Matches((a + b)[l]))
    {
      if k < |a| && |a| <= l {
        MatchTaken(a, k);
        MatchTaken(b, l - |a|);
      }
    }
  }

  lemma MatchTaken(outs: seq<Outcome>, k: nat)
    requires k < |outs|
    ensures Ids(Matches(outs[k])) <= TakenIds(outs)
  {
    forall id | id in Ids(Matches(outs[k]))
      ensures id in TakenIds(outs)
    {
      var i :| i in Matches(outs[k]) && i.id == id;
      assert outs[k] in outs && i in Taken(outs);
    }
  }

  /** Across any sequence of runs and re-runs no invoice is ever matched twice, only invoices open
      at the start are matched, and the final paid set is the initial one plus the matched ones. */
  lemma {:induction false} HistoryIsSafe(w: World, rows: map<int, Invoice>, nights: seq<Night>, rows': map<int, Invoice>)
    requires SoundFinder(w.finder) && KeyedById(rows)
    requires IsHistory(w, rows, nights, rows')
    ensures NothingTwice(AllOuts(nights))
    ensures forall id :: id in TakenIds(AllOuts(nights)) ==> id in rows && rows[id].open
    ensures PaidIds(rows') == PaidIds(rows) + TakenIds(AllOuts(nights))
    decreases |nights|
  {
    hide RunsTo, SoundFinder, NothingTwice, TakenIds, MarkPaid;
    if nights == [] {
      NothingTaken();
    } else {
      var outs := nights[0].outs;
      var next := MarkPaid(rows, TakenIds(outs));
      RunIsSafe(w, rows, nights[0].lines, outs, next);
      HistoryIsSafe(w, next, nights[1..], rows');
      TakenConcat(outs, AllOuts(nights[1..]));
      LaterOpen(rows, TakenIds(outs), TakenIds(AllOuts(nights[1..])));
      NothingTwiceConcat(outs, AllOuts(nights[1..]));
    }
  }

  lemma NothingTaken()
    ensures TakenIds([]) == {} && NothingTwice([])
  {}

  lemma LaterOpen(rows: map<int, Invoice>, first: set<int>, later: set<int>)
    requires forall id :: id in later ==> id in rows && MarkPaid(rows, first)[id].open
    ensures first !! later
    ensures forall id :: id in later ==> rows[id].open
  {
    assert forall id :: id in later ==> id !in first;
  }

  // ---------------------------------------------------------------- match rows

  /** The match rows after a run: one per matched invoice, later rows replacing equal keys. */
  function Recorded(matches: map<(string, int), MatchRow>, lines: seq<Line>, outs: seq<Outcome>): map<(string, int), MatchRow>
    requires |lines| == |outs|
  {
    if outs == [] then matches
    else
      var n := |outs| - 1;
      Recorded(matches, lines[..n], outs[..n]) + (if outs[n].Matched? then Rows(lines[n], outs[n].rule, outs[n].invoices) else map[])
  }

  /** Every recorded invoice is among `paid`, and no invoice has two rows. */
  ghost predicate RowsAreFinal(matches: map<(string, int), MatchRow>, paid: set<int>) {
    && (forall key :: key in matches ==> key.1 in paid)
    && (forall k, l :: k in matches && l in matches && k.1 == l.1 ==> k == l)
  }

  lemma RowsOneMore(matches: map<(string, int), MatchRow>, paid: set<int>, line: Line, rule: Rule, invs: seq<Invoice>)
    requires RowsAreFinal(matches, paid) && Ids(invs) !! paid
    ensures RowsAreFinal(matches + Rows(line, rule, invs), paid + Ids(invs))
    ensures forall key :: key in matches ==> key in matches + Rows(line, rule, invs) && (matches + Rows(line, rule, invs))[key] == matches[key]
  {
    hide Ids;
    forall key | key in Rows(line, rule, invs)
      ensures key.1 in Ids(invs) && key.0 == line.id
    {}
  }

  /** Starting with every recorded match paid: each invoice keeps at most one row, earlier rows are
      never replaced, and afterwards again every recorded match is paid. */
  lemma {:induction false} RunRecordsOnce(matches: map<(string, int), MatchRow>, paid: set<int>, lines: seq<Line>, outs: seq<Outcome>)
    requires |lines| == |outs| && RowsAreFinal(matches, paid)
    requires NothingTwice(outs) && TakenIds(outs) !! paid
    ensures RowsAreFinal(Recorded(matches, lines, outs), paid + TakenIds(outs))
    ensures forall key :: key in matches ==> key in Recorded(matches, lines, outs) && Recorded(matches, lines, outs)[key] == matches[key]
    decreases |outs|
  {
    hide Ids, Rows, TakenIds, RowsAreFinal;
    if outs == [] {
      NothingTaken();
      assert paid + TakenIds(outs) == paid;
    } else {
      var n := |outs| - 1;
      var o := outs[n];
      assert outs == outs[..n] + [o];
      TakenOne(outs[..n], o);
      RunRecordsOnce(matches, paid, lines[..n], outs[..n]);
      PrefixDisjoint(outs, n);
      assert (paid + TakenIds(outs[..n])) + Ids(Matches(o)) == paid + TakenIds(outs);
      if o.Matched? {
        RowsOneMore(Recorded(matches, lines[..n], outs[..n]), paid + TakenIds(outs[..n]), lines[n], o.rule, o.invoices);
      } else {
        NoIds();
        assert Recorded(matches, lines[..n], outs[..n]) + map[] == Recorded(matches, lines[..n], outs[..n]);
        assert paid + TakenIds(outs) == paid + TakenIds(outs[..n]);
      }
    }
  }

  /** Every night has one outcome per line. */
  predicate AreNights(nights: seq<Night>) {
    forall k :: 0 <= k < |nights| ==> |nights[k].lines| == |nights[k].outs|
  }

  /** The match rows after all nights. */
  function RecordedAll(matches: map<(string, int), MatchRow>, nights: seq<Night>): map<(string, int), MatchRow>
    requires AreNights(nights)
    decreases |nights|
  {
    if nights == [] then matches else RecordedAll(Recorded(matches, nights[0].lines, nights[0].outs), nights[1..])
  }

  /** In a history every night has one outcome per line. */
  lemma {:induction false} HistoryNights(w: World, rows: map<int, Invoice>, nights: seq<Night>, rows': map<int, Invoice>)
    requires IsHistory(w, rows, nights, rows')
    ensures AreNights(nights)
    decreases |nights|
  {
    hide MarkPaid, TakenIds, DecidesAt;
    if nights != [] {
      HistoryNights(w, MarkPaid(rows, TakenIds(nights[0].outs)), nights[1..], rows');
      assert nights == [nights[0]] + nights[1..];
    }
  }

  /** Starting with every recorded match paid, over any sequence of runs and re-runs: each invoice keeps at
      most one match row, no row is ever replaced, and every recorded match is paid at the end. */
  lemma {:induction false} HistoryRecordsOnce(w: World, rows: map<int, Invoice>, nights: seq<Night>, rows': map<int, Invoice>,
                                              matches: map<(string, int), MatchRow>)
    requires SoundFinder(w.finder) && KeyedById(rows) && IsHistory(w, rows, nights, rows')
    requires RowsAreFinal(matches, PaidIds(rows))
    ensures AreNights(nights)
    ensures RowsAreFinal(RecordedAll(matches, nights), PaidIds(rows'))
    ensures forall key :: key in matches ==> key in RecordedAll(matches, nights) && RecordedAll(matches, nights)[key] == matches[key]
    decreases |nights|
  {
    hide RunsTo, SoundFinder, NothingTwice, TakenIds, MarkPaid, RowsAreFinal, Recorded;
    HistoryNights(w, rows, nights, rows');
    if nights != [] {
      var (lines, outs) := (nights[0].lines, nights[0].outs);
      var next := MarkPaid(rows, TakenIds(outs));
      RunIsSafe(w, rows, lines, outs, next);
      assert forall id :: id in TakenIds(outs) ==> id !in PaidIds(rows);
      RunRecordsOnce(matches, PaidIds(rows), lines, outs);
      HistoryRecordsOnce(w, next, nights[1..], rows', Recorded(matches, lines, outs));
    }
  }

  lemma NoIds()
    ensures Ids([]) == {}
  {}

  lemma PrefixDisjoint(outs: seq<Outcome>, n: nat)
    requires NothingTwice(outs) && n < |outs|
    ensures Ids(Matches(outs[n])) !! TakenIds(outs[..n])
    ensures NothingTwice(outs[..n])
  {
    forall id | id in TakenIds(outs[..n])
      ensures id !in Ids(Matches(outs[n]))
    {
      var i :| i in Taken(outs[..n]) && i.id == id;
      var o :| o in outs[..n] && o.Matched? && i in o.invoices;
      var k :| 0 <= k < n && outs[k] == o;
      assert id in Ids(Matches(outs[k]));
    }
  }
}
