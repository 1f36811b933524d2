/** The reference matcher: it never scans the ledger but looks invoices up by normalised reference,
    by amount and by customer, in indexes built once before the first line. */
module Oracle {
  import opened Common
  import opened ReconModel
  import opened MatchingRules
  import opened Scoring
  import opened BatchSearch
  import opened Runs
  import Customers
  import Normalize

  datatype Index = Index(
    byNorm: map<string, Invoice>,
    paidNorms: set<string>,
    byAmount: map<int, seq<Invoice>>,
    byCustomer: map<int, seq<Invoice>>,
    ibans: map<string, int>,
    names: map<string, set<int>>)

  function OpenSet(invoices: seq<Invoice>): set<Invoice> {
    set i | i in invoices && i.open
  }

  function PaidNorms(w: World, invoices: seq<Invoice>): set<string> {
    set i | i in invoices && !i.open :: Norm(w, i)
  }

  /** No two open invoices share a normalised reference; the matcher asserts this of its input. */
  ghost predicate UniqueReferences(w: World, invoices: seq<Invoice>) {
    forall i, j :: i in OpenSet(invoices) && j in OpenSet(invoices) && Norm(w, i) == Norm(w, j) ==> i == j
  }

  // ---------------------------------------------------------------- what the indexes hold

  ghost predicate IsNormIndex(w: World, s: set<Invoice>, byNorm: map<string, Invoice>) {
    && (forall i :: i in s ==> Norm(w, i) in byNorm && byNorm[Norm(w, i)] == i)
    && (forall n :: n in byNorm ==> byNorm[n] in s && Norm(w, byNorm[n]) == n)
  }

  function Listed<K>(index: map<K, seq<Invoice>>, key: K): seq<Invoice> {
    if key in index then index[key] else []
  }

  ghost predicate IsAmountIndex(s: set<Invoice>, byAmount: map<int, seq<Invoice>>) {
    forall a, i :: i in Listed(byAmount, a) <==> i in s && i.amount == a
  }

  ghost predicate IsCustomerIndex(s: set<Invoice>, byCustomer: map<int, seq<Invoice>>) {
    forall c :: IsAgeOrder(Listed(byCustomer, c), OfCustomer(s, Some(c)))
  }

  ghost predicate IsIbanTable(w: World, table: map<string, int>) {
    forall key :: if key in table then table[key] in IbanOwners(w, key) else IbanOwners(w, key) == {}
  }

  ghost predicate IsNameTable(w: World, owners: map<string, set<int>>) {
    forall key :: NameOwners(w, key) == if key in owners then owners[key] else {}
  }

  ghost predicate IsIndex(w: World, invoices: seq<Invoice>, ix: Index) {
    && IsNormIndex(w, OpenSet(invoices), ix.byNorm)
    && ix.paidNorms == PaidNorms(w, invoices)
    && IsAmountIndex(OpenSet(invoices), ix.byAmount)
    && IsCustomerIndex(OpenSet(invoices), ix.byCustomer)
    && IsIbanTable(w, ix.ibans)
    && IsNameTable(w, ix.names)
  }

  // ---------------------------------------------------------------- building them

  method ByNorm(w: World, invoices: seq<Invoice>) returns (byNorm: map<string, Invoice>)
    requires UniqueReferences(w, invoices)
    ensures IsNormIndex(w, OpenSet(invoices), byNorm)
  {
    hide Norm;
    byNorm := map[];
    for n := 0 to |invoices|
      invariant IsNormIndex(w, OpenSet(invoices[..n]), byNorm)
    {
      var i := invoices[n];
      OpenOneMore(invoices, n);
      if i.open {
        byNorm := byNorm[Norm(w, i) := i];
      }
    }
    assert invoices[..|invoices|] == invoices;
  }

  lemma OpenOneMore(invoices: seq<Invoice>, n: nat)
    requires n < |invoices|
    ensures OpenSet(invoices[..n + 1]) == OpenSet(invoices[..n]) + if invoices[n].open then {invoices[n]} else {}
    ensures OpenSet(invoices[..n + 1]) <= OpenSet(invoices)
  {
    assert invoices[..n + 1] == invoices[..n] + [invoices[n]];
  }

  method ByAmount(invoices: seq<Invoice>) returns (byAmount: map<int, seq<Invoice>>)
    ensures IsAmountIndex(OpenSet(invoices), byAmount)
  {
    byAmount := map[];
    for n := 0 to |invoices|
      invariant IsAmountIndex(OpenSet(invoices[..n]), byAmount)
    {
      var i := invoices[n];
      OpenOneMore(invoices, n);
      if i.open {
        AmountOneMore(OpenSet(invoices[..n]), byAmount, i);
        byAmount := byAmount[i.amount := Listed(byAmount, i.amount) + [i]];
      }
    }
    assert invoices[..|invoices|] == invoices;
  }

  lemma AmountOneMore(s: set<Invoice>, byAmount: map<int, seq<Invoice>>, i: Invoice)
    requires IsAmountIndex(s, byAmount)
    ensures IsAmountIndex(s + {i}, byAmount[i.amount := Listed(byAmount, i.amount) + [i]])
  {
    var more := byAmount[i.amount := Listed(byAmount, i.amount) + [i]];
    forall a, j
      ensures j in Listed(more, a) <==> j in s + {i} && j.amount == a
    {
      assert j in Listed(byAmount, a) <==> j in s && j.amount == a;
    }
  }

  ghost predicate IsGrouped(s: set<Invoice>, byCustomer: map<int, seq<Invoice>>) {
    forall c :: DistinctIds(Listed(byCustomer, c)) && forall i :: i in Listed(byCustomer, c) <==> i in s && i.customer == c
  }

  method ByCustomer(invoices: seq<Invoice>) returns (byCustomer: map<int, seq<Invoice>>)
    requires DistinctIds(invoices)
    ensures IsCustomerIndex(OpenSet(invoices), byCustomer)
  {
    byCustomer := map[];
    for n := 0 to |invoices|
      invariant IsGrouped(OpenSet(invoices[..n]), byCustomer)
    {
      var i := invoices[n];
      OpenOneMore(invoices, n);
      if i.open {
        GroupOneMore(OpenSet(invoices[..n]), byCustomer, i);
        byCustomer := byCustomer[i.customer := Listed(byCustomer, i.customer) + [i]];
      }
    }
    assert invoices[..|invoices|] == invoices;
    SortGroups(OpenSet(invoices), byCustomer);
    byCustomer := map c | c in byCustomer :: SortByAge(byCustomer[c]);
  }

  lemma GroupOneMore(s: set<Invoice>, byCustomer: map<int, seq<Invoice>>, i: Invoice)
    requires IsGrouped(s, byCustomer) && forall j :: j in s ==> j.id != i.id
    ensures IsGrouped(s + {i}, byCustomer[i.customer := Listed(byCustomer, i.customer) + [i]])
  {
    var more := byCustomer[i.customer := Listed(byCustomer, i.customer) + [i]];
    forall c
      ensures DistinctIds(Listed(more, c)) && forall j :: j in Listed(more, c) <==> j in s + {i} && j.customer == c
    {
      assert DistinctIds(Listed(byCustomer, c));
    }
  }

  lemma SortGroups(s: set<Invoice>, byCustomer: map<int, seq<Invoice>>)
    requires IsGrouped(s, byCustomer)
    ensures IsCustomerIndex(s, map c | c in byCustomer :: SortByAge(byCustomer[c]))
  {
    var sorted := map c | c in byCustomer :: SortByAge(byCustomer[c]);
    forall c
      ensures IsAgeOrder(Listed(sorted, c), OfCustomer(s, Some(c)))
    {
      SortedByAge(Listed(byCustomer, c));
      SortKeepsDistinct(Listed(byCustomer, c));
      assert DistinctIds(Listed(byCustomer, c));
    }
  }

  /** The last customer that carries an IBAN keeps it. */
  method IbanTable(w: World) returns (table: map<string, int>)
    ensures IsIbanTable(w, table)
  {
    hide Normalize.Iban;
    table := map[];
    for n := 0 to |w.customers|
      invariant forall key :: key in table ==> table[key] in IbanOwners(w, key)
      invariant forall c, i :: c in w.customers[..n] && i in c.ibans ==> Normalize.Iban(w.platform, i) in table
    {
      var cust := w.customers[n];
      assert cust in w.customers && w.customers[..n + 1] == w.customers[..n] + [cust];
      for k := 0 to |cust.ibans|
        invariant forall key :: key in table ==> table[key] in IbanOwners(w, key)
        invariant forall c, i :: c in w.customers[..n] && i in c.ibans ==> Normalize.Iban(w.platform, i) in table
        invariant forall j :: 0 <= j < k ==> Normalize.Iban(w.platform, cust.ibans[j]) in table
      {
        assert cust.ibans[k] in cust.ibans;
        table := table[Normalize.Iban(w.platform, cust.ibans[k]) := cust.id];
      }
    }
    assert w.customers[..|w.customers|] == w.customers;
  }

  method BuildIndex(w: World, invoices: seq<Invoice>) returns (ix: Index)
    requires DistinctIds(invoices) && UniqueReferences(w, invoices)
    ensures IsIndex(w, invoices, ix)
  {
    hide IsNormIndex, IsAmountIndex, IsCustomerIndex, OpenSet, PaidNorms, UniqueReferences;
    var byNorm := ByNorm(w, invoices);
    var paidNorms := PaidNorms(w, invoices);
    var byAmount := ByAmount(invoices);
    var byCustomer := ByCustomer(invoices);
    var ibans := IbanTable(w);
    var names := Customers.NameLookup(w);
    ix := Index(byNorm, paidNorms, byAmount, byCustomer, ibans, names);
  }

  // ---------------------------------------------------------------- one line

  function AvailableOpen(invoices: seq<Invoice>, consumed: set<int>): set<Invoice> {
    set i | i in OpenSet(invoices) && i.id !in consumed
  }

  function GoneOf(w: World, invoices: seq<Invoice>, consumed: set<int>): set<string> {
    PaidNorms(w, invoices) + set i | i in OpenSet(invoices) && i.id in consumed :: Norm(w, i)
  }

  method OracleA1(w: World, invoices: seq<Invoice>, ix: Index, line: Line, consumed: set<int>) returns (cands: seq<Candidate>)
    requires IsNormIndex(w, OpenSet(invoices), ix.byNorm)
    ensures AreSingles(w, line, A1, A1Set(w, AvailableOpen(invoices, consumed), line), cands)
  {
    hide Norm, Diff, RankDistance, OpenSet;
    cands := [];
    for n := 0 to |line.tokens|
      invariant forall c :: c in cands ==> exists i :: i in A1Set(w, AvailableOpen(invoices, consumed), line) && c == Single(w, line, A1, i)
      invariant forall i :: i in A1Set(w, AvailableOpen(invoices, consumed), line) && Norm(w, i) in line.tokens[..n] ==> Single(w, line, A1, i) in cands
    {
      var t := line.tokens[n];
      assert t in line.tokens && line.tokens[..n + 1] == line.tokens[..n] + [t];
      if t in ix.byNorm && ix.byNorm[t].id !in consumed && AmountsAgree(ix.byNorm[t].amount, line.amount) {
        cands := cands + [Single(w, line, A1, ix.byNorm[t])];
      }
    }
    assert line.tokens[..|line.tokens|] == line.tokens;
  }

  method OracleA2(w: World, invoices: seq<Invoice>, ix: Index, line: Line, consumed: set<int>) returns (cands: seq<Candidate>)
    requires IsAmountIndex(OpenSet(invoices), ix.byAmount)
    ensures AreSingles(w, line, A2, A2Set(w, AvailableOpen(invoices, consumed), line), cands)
  {
    hide Norm, Diff, RankDistance, OpenSet, MinDistance, Listed;
    cands := [];
    if line.tokens == [] {
      return;
    }
    for cents := line.amount - TOLERANCE to line.amount + TOLERANCE + 1
      invariant forall c :: c in cands ==> exists i :: i in A2Set(w, AvailableOpen(invoices, consumed), line) && c == Single(w, line, A2, i)
      invariant forall i :: i in A2Set(w, AvailableOpen(invoices, consumed), line) && i.amount < cents ==> Single(w, line, A2, i) in cands
    {
      var list := Listed(ix.byAmount, cents);
      for n := 0 to |list|
        invariant forall c :: c in cands ==> exists i :: i in A2Set(w, AvailableOpen(invoices, consumed), line) && c == Single(w, line, A2, i)
        invariant forall i :: i in A2Set(w, AvailableOpen(invoices, consumed), line) && i.amount < cents ==> Single(w, line, A2, i) in cands
        invariant forall i :: i in A2Set(w, AvailableOpen(invoices, consumed), line) && i in list[..n] ==> Single(w, line, A2, i) in cands
      {
        var inv := list[n];
        assert inv in list && list[..n + 1] == list[..n] + [inv];
        if inv.id in consumed {
          continue;
        }
        var d := LeastDistance(line.tokens, Norm(w, inv));
        if d <= FUZZY_MAX {
          cands := cands + [Single(w, line, A2, inv)];
        }
      }
      assert list[..|list|] == list;
    }
  }

  method OracleB1(w: World, invoices: seq<Invoice>, ix: Index, line: Line, consumed: set<int>, who: Option<int>) returns (cands: seq<Candidate>)
    requires IsCustomerIndex(OpenSet(invoices), ix.byCustomer)
    ensures AreSingles(w, line, B1, B1Set(AvailableOpen(invoices, consumed), line, who), cands)
  {
    hide Diff, RankDistance, OpenSet, Listed, OldestFirst, DistinctIds;
    cands := [];
    if who.None? {
      return;
    }
    var list := Listed(ix.byCustomer, who.value);
    for n := 0 to |list|
      invariant forall c :: c in cands <==> exists i :: i in list[..n] && i.id !in consumed && IsByIban(line, who, i) && c == Single(w, line, B1, i)
    {
      assert list[n] in list && list[..n + 1] == list[..n] + [list[n]];
      if list[n].id !in consumed && AmountsAgree(list[n].amount, line.amount) {
        cands := cands + [Single(w, line, B1, list[n])];
      }
    }
    assert list[..|list|] == list;
  }

  method OracleB2(w: World, invoices: seq<Invoice>, ix: Index, line: Line, consumed: set<int>, who: Option<int>) returns (cands: seq<Candidate>)
    requires IsCustomerIndex(OpenSet(invoices), ix.byCustomer)
    ensures AreSingles(w, line, B2, B2Set(AvailableOpen(invoices, consumed), line, who), cands)
  {
    hide Diff, RankDistance, OpenSet, Listed, OldestFirst, DistinctIds;
    cands := [];
    if who.None? {
      return;
    }
    var list := Listed(ix.byCustomer, who.value);
    for n := 0 to |list|
      invariant forall c :: c in cands <==> exists i :: i in list[..n] && i.id !in consumed && IsByName(line, who, i) && c == Single(w, line, B2, i)
    {
      assert list[n] in list && list[..n + 1] == list[..n] + [list[n]];
      if list[n].id !in consumed && AmountsAgree(list[n].amount, line.amount) && Abs(list[n].due - line.booking) <= B2_WINDOW {
        cands := cands + [Single(w, line, B2, list[n])];
      }
    }
    assert list[..|list|] == list;
  }

  method OracleB3(w: World, invoices: seq<Invoice>, ix: Index, line: Line, consumed: set<int>, who: Option<int>)
      returns (run: seq<Invoice>)
    requires IsCustomerIndex(OpenSet(invoices), ix.byCustomer)
    ensures exists list ::
      IsAgeOrder(list, OfCustomer(AvailableOpen(invoices, consumed), who)) && FindsRun(w, line, who, list, run)
  {
    run := [];
    if who.None? {
      assert IsAgeOrder([], OfCustomer(AvailableOpen(invoices, consumed), who)) && FindsRun(w, line, who, [], run);
      return;
    }
    var all := Listed(ix.byCustomer, who.value);
    assert IsAgeOrder(all, OfCustomer(OpenSet(invoices), who));
    var s := Unconsumed(all, consumed);
    run := w.finder(s, line.amount);
    assert IsAgeOrder(s, OfCustomer(AvailableOpen(invoices, consumed), who)) && FindsRun(w, line, who, s, run);
  }

  /** The finder's answer for the payer's list; nothing without a payer. */
  predicate FindsRun(w: World, line: Line, who: Option<int>, list: seq<Invoice>, run: seq<Invoice>) {
    run == if who.Some? then w.finder(list, line.amount) else []
  }

  /** Has a token of the line been paid before, or consumed during this run? */
  method Unavailable(w: World, invoices: seq<Invoice>, ix: Index, line: Line, consumed: set<int>) returns (b: bool)
    requires IsNormIndex(w, OpenSet(invoices), ix.byNorm) && ix.paidNorms == PaidNorms(w, invoices)
    ensures b <==> TokenIsGone(line, GoneOf(w, invoices, consumed))
  {
    hide Norm, OpenSet, PaidNorms;
    b := exists t :: t in line.tokens && (t in ix.paidNorms || (t in ix.byNorm && ix.byNorm[t].id in consumed));
  }

  /** The candidates of the first rule from A1 to B2 that has any. */
  method OracleEarly(w: World, invoices: seq<Invoice>, ix: Index, line: Line, consumed: set<int>, byIban: Option<int>, byName: Option<int>)
      returns (cands: seq<Candidate>)
    requires DistinctIds(invoices) && IsIndex(w, invoices, ix)
    ensures DecidesEarly(w, AvailableOpen(invoices, consumed), line, byIban, byName, cands)
  {
    hide AvailableOpen, A1Set, A2Set, B1Set, B2Set, TakesBest, AreSingles, Best, OpenSet, PaidNorms, IsNormIndex,
      IsAmountIndex, IsCustomerIndex, IsIbanTable, IsNameTable, IsCandidate, DistinctIds, DistinctSet;
    ghost var avail := AvailableOpen(invoices, consumed);
    OpenDistinct(w, invoices, consumed, line, byIban, byName);
    cands := OracleA1(w, invoices, ix, line, consumed);
    SinglesDecide(w, line, A1, A1Set(w, avail, line), cands);
    if cands != [] {
      return;
    }
    cands := OracleA2(w, invoices, ix, line, consumed);
    SinglesDecide(w, line, A2, A2Set(w, avail, line), cands);
    if cands != [] {
      return;
    }
    cands := OracleB1(w, invoices, ix, line, consumed, byIban);
    SinglesDecide(w, line, B1, B1Set(avail, line, byIban), cands);
    if cands != [] {
      return;
    }
    cands := OracleB2(w, invoices, ix, line, consumed, byName);
    SinglesDecide(w, line, B2, B2Set(avail, line, byName), cands);
  }

  ghost predicate DecidesEarly(w: World, avail: set<Invoice>, line: Line, byIban: Option<int>, byName: Option<int>, cands: seq<Candidate>) {
    && (forall c :: c in cands ==> IsCandidate(c))
    && if A1Set(w, avail, line) != {} then PicksBest(w, line, A1, A1Set(w, avail, line), cands)
       else if A2Set(w, avail, line) != {} then PicksBest(w, line, A2, A2Set(w, avail, line), cands)
       else if B1Set(avail, line, byIban) != {} then PicksBest(w, line, B1, B1Set(avail, line, byIban), cands)
       else if B2Set(avail, line, byName) != {} then PicksBest(w, line, B2, B2Set(avail, line, byName), cands)
       else cands == []
  }

  ghost predicate PicksBest(w: World, line: Line, rule: Rule, s: set<Invoice>, cands: seq<Candidate>)
    requires forall c :: c in cands ==> IsCandidate(c)
  {
    Best(cands).Some? && TakesBest(w, line, rule, s, Matched(Best(cands).value.rule, Best(cands).value.invoices))
  }

  /** Decide one line from the indexes alone. */
  method OracleLine(w: World, invoices: seq<Invoice>, ix: Index, line: Line, consumed: set<int>) returns (o: Outcome)
    requires DistinctIds(invoices) && IsIndex(w, invoices, ix)
    ensures Decides(w, AvailableOpen(invoices, consumed), GoneOf(w, invoices, consumed), line, o)
  {
    if line.amount <= 0 {
      return Unmatched(Debit);
    }
    hide *;
    ghost var avail, gone := AvailableOpen(invoices, consumed), GoneOf(w, invoices, consumed);
    var byIban, byName := Identify(w, invoices, ix, line);
    var cands := OracleEarly(w, invoices, ix, line, consumed, byIban, byName);
    EarlyDecides(w, avail, gone, line, byIban, byName, cands);
    if cands != [] {
      var chosen := Best(cands).value;
      return Matched(chosen.rule, chosen.invoices);
    }
    var run := OracleB3(w, invoices, ix, line, consumed, Payer(byIban, byName));
    ghost var list :| IsAgeOrder(list, OfCustomer(avail, Payer(byIban, byName))) && FindsRun(w, line, Payer(byIban, byName), list, run);
    if run != [] {
      o := Matched(B3, run);
    } else {
      var unavailable := Unavailable(w, invoices, ix, line, consumed);
      o := Unmatched(if unavailable then InvoiceConsumed else NoCandidate);
    }
    LateDecides(w, avail, gone, line, byIban, byName, list, o);
  }

  lemma EarlyDecides(w: World, avail: set<Invoice>, gone: set<string>, line: Line, byIban: Option<int>, byName: Option<int>, cands: seq<Candidate>)
    requires DecidesEarly(w, avail, line, byIban, byName, cands)
    requires line.amount > 0 && NamedByIban(w, line.iban, byIban) && NamedByName(w, line.remitter, byName)
    ensures forall c :: c in cands ==> IsCandidate(c)
    ensures cands != [] ==> Best(cands).Some? && Decides(w, avail, gone, line, Matched(Best(cands).value.rule, Best(cands).value.invoices))
  {
    hide A1Set, A2Set, B1Set, B2Set, TakesBest, Best, NamedByIban, NamedByName, IsCandidate, DecidesLate;
    if cands != [] {
      var o := Matched(Best(cands).value.rule, Best(cands).value.invoices);
      assert DecidesFor(w, avail, gone, line, byIban, byName, o);
    }
  }

  lemma LateDecides(w: World, avail: set<Invoice>, gone: set<string>, line: Line, byIban: Option<int>, byName: Option<int>, list: seq<Invoice>, o: Outcome)
    requires DecidesEarly(w, avail, line, byIban, byName, [])
    requires line.amount > 0 && NamedByIban(w, line.iban, byIban) && NamedByName(w, line.remitter, byName)
    requires IsAgeOrder(list, OfCustomer(avail, Payer(byIban, byName))) && PaysRun(w, gone, line, Payer(byIban, byName), list, o)
    ensures Decides(w, avail, gone, line, o)
  {
    hide A1Set, A2Set, B1Set, B2Set, TakesBest, NamedByIban, NamedByName, IsCandidate, IsAgeOrder, PaysRun;
    assert DecidesFor(w, avail, gone, line, byIban, byName, o);
  }

  method Identify(w: World, invoices: seq<Invoice>, ix: Index, line: Line) returns (byIban: Option<int>, byName: Option<int>)
    requires IsIndex(w, invoices, ix)
    ensures NamedByIban(w, line.iban, byIban) && NamedByName(w, line.remitter, byName)
  {
    hide IbanOwners, NameOwners, IsNormIndex, IsAmountIndex, IsCustomerIndex;
    byIban, byName := None, None;
    if line.iban != "" {
      var key := Normalize.Iban(w.platform, line.iban);
      byIban := if key in ix.ibans then Some(ix.ibans[key]) else None;
    }
    if line.remitter != "" {
      var key := Normalize.Reference(w.platform, line.remitter);
      if key in ix.names {
        byName := Customers.SoleOwner(ix.names[key]);
      }
    }
  }

  lemma OpenDistinct(w: World, invoices: seq<Invoice>, consumed: set<int>, line: Line, byIban: Option<int>, byName: Option<int>)
    requires DistinctIds(invoices)
    ensures var avail := AvailableOpen(invoices, consumed);
      && DistinctSet(A1Set(w, avail, line)) && DistinctSet(A2Set(w, avail, line))
      && DistinctSet(B1Set(avail, line, byIban)) && DistinctSet(B2Set(avail, line, byName))
  {
    hide IsExact, IsFuzzy, IsByIban, IsByName;
  }

  // ---------------------------------------------------------------- the whole statement

  method Run(w: World, invoices: seq<Invoice>, lines: seq<Line>) returns (outs: seq<Outcome>, consumed: set<int>)
    requires DistinctIds(invoices) && UniqueReferences(w, invoices)
    requires SoundFinder(w.finder)
    ensures DecidesRun(w, OpenSet(invoices), PaidNorms(w, invoices), lines, outs)
    ensures consumed == TakenIds(outs)
  {
    hide *;
    var ix := BuildIndex(w, invoices);
    outs, consumed := [], {};
    OracleStart(w, OpenSet(invoices), PaidNorms(w, invoices));
    for n := 0 to |lines|
      invariant |outs| == n
      invariant DecidesRun(w, OpenSet(invoices), PaidNorms(w, invoices), lines[..n], outs)
      invariant consumed == TakenIds(outs)
    {
      var o := OracleLine(w, invoices, ix, lines[n], consumed);
      OracleStep(w, invoices, lines[..n], outs, lines[n], o);
      assert lines[..n + 1] == lines[..n] + [lines[n]];
      consumed := consumed + Ids(Matches(o));
      outs := outs + [o];
    }
    assert lines[..|lines|] == lines;
  }

  lemma OracleStart(w: World, avail: set<Invoice>, gone: set<string>)
    ensures DecidesRun(w, avail, gone, [], []) && TakenIds([]) == {}
  {}

  lemma OracleStep(w: World, invoices: seq<Invoice>, lines: seq<Line>, outs: seq<Outcome>, line: Line, o: Outcome)
    requires DistinctIds(invoices) && SoundFinder(w.finder)
    requires DecidesRun(w, OpenSet(invoices), PaidNorms(w, invoices), lines, outs)
    requires Decides(w, AvailableOpen(invoices, TakenIds(outs)), GoneOf(w, invoices, TakenIds(outs)), line, o)
    ensures DecidesRun(w, OpenSet(invoices), PaidNorms(w, invoices), lines + [line], outs + [o])
    ensures TakenIds(outs + [o]) == TakenIds(outs) + Ids(Matches(o))
  {
    hide Decides, DecidesRun, Taken, References, SoundFinder, OpenSet, PaidNorms, AvailableOpen, GoneOf, TakenIds;
    OpenSetDistinct(invoices);
    RunTakesOnce(w, OpenSet(invoices), PaidNorms(w, invoices), lines, outs);
    TakenIdsOf(outs);
    TakenIsConsumed(w, invoices, Taken(outs), TakenIds(outs));
    RunOneMore(w, OpenSet(invoices), PaidNorms(w, invoices), lines, outs, line, o);
    TakenOne(outs, o);
  }

  lemma OpenSetDistinct(invoices: seq<Invoice>)
    requires DistinctIds(invoices)
    ensures DistinctSet(OpenSet(invoices))
  {}

  lemma TakenIsConsumed(w: World, invoices: seq<Invoice>, taken: set<Invoice>, ids: set<int>)
    requires DistinctSet(OpenSet(invoices)) && taken <= OpenSet(invoices)
    requires ids == set i | i in taken :: i.id
    ensures AvailableOpen(invoices, ids) == OpenSet(invoices) - taken
    ensures GoneOf(w, invoices, ids) == PaidNorms(w, invoices) + References(w, taken)
  {
    hide OpenSet, PaidNorms, Norm;
    assert forall i :: i in OpenSet(invoices) ==> (i.id in ids <==> i in taken);
  }
}
