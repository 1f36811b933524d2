/** The matching rules as a reference: which outcomes a line may have, given the available invoices
    and the references that are gone. Sets replace scans and indexes, so neither matcher's
    enumeration order appears here. */
module MatchingRules {
  import opened Common
  import opened ReconModel
  import Normalize
  import EditDistance

  /** What a run is given besides the ledger and the statement. `finder` is the B3 search. */
  datatype World = World(
    platform: Normalize.Platform,
    customers: seq<Customer>,
    finder: (seq<Invoice>, int) -> seq<Invoice>)

  function Norm(w: World, inv: Invoice): string {
    Normalize.Reference(w.platform, inv.reference)
  }

  // ---------------------------------------------------------------- who paid

  /** Ids of the customers that carry the normalised IBAN. */
  function IbanOwners(w: World, key: string): set<int> {
    set c, iban | c in w.customers && iban in c.ibans && Normalize.Iban(w.platform, iban) == key :: c.id
  }

  function Names(c: Customer): seq<string> {
    [c.legalName] + c.aliases
  }

  function NameOwners(w: World, key: string): set<int> {
    set c, name | c in w.customers && name in Names(c) && Normalize.Reference(w.platform, name) == key :: c.id
  }

  function OwnersByIban(w: World, iban: string): set<int> {
    if iban == "" then {} else IbanOwners(w, Normalize.Iban(w.platform, iban))
  }

  function OwnersByName(w: World, remitter: string): set<int> {
    if remitter == "" then {} else NameOwners(w, Normalize.Reference(w.platform, remitter))
  }

  /** The IBAN names one of its owners, if it has any. */
  predicate NamedByIban(w: World, iban: string, who: Option<int>) {
    match who
    case None => OwnersByIban(w, iban) == {}
    case Some(id) => id in OwnersByIban(w, iban)
  }

  /** A name names its owner only when it has exactly one. */
  predicate NamedByName(w: World, remitter: string, who: Option<int>) {
    match who
    case None => |OwnersByName(w, remitter)| != 1
    case Some(id) => OwnersByName(w, remitter) == {id}
  }

  /** An IBAN belongs to at most one customer. */
  ghost predicate UniqueIbans(w: World) {
    forall iban, x, y :: x in OwnersByIban(w, iban) && y in OwnersByIban(w, iban) ==> x == y
  }

  /** With unique IBANs an IBAN names one customer, and only then. */
  lemma NamedByIbanUnique(w: World)
    ensures UniqueIbans(w) <==>
      forall iban, a, b :: NamedByIban(w, iban, a) && NamedByIban(w, iban, b) ==> a == b
  {
    hide OwnersByIban;
    if forall iban, a, b :: NamedByIban(w, iban, a) && NamedByIban(w, iban, b) ==> a == b {
      forall iban, x, y | x in OwnersByIban(w, iban) && y in OwnersByIban(w, iban)
        ensures x == y
      {
        assert NamedByIban(w, iban, Some(x)) && NamedByIban(w, iban, Some(y));
      }
    }
  }

  lemma NamedByNameUnique(w: World, remitter: string, a: Option<int>, b: Option<int>)
    requires NamedByName(w, remitter, a) && NamedByName(w, remitter, b)
    ensures a == b
  {
    hide OwnersByName;
    if a.Some? && b.Some? {
      assert a.value in {b.value};
    }
  }

  // ---------------------------------------------------------------- candidates

  function Diff(line: Line, inv: Invoice): nat {
    Abs(inv.amount - line.amount)
  }

  /** Least edit distance from the reference to a token. */
  function MinDistance(tokens: seq<string>, reference: string): nat
    requires tokens != []
  {
    var d := EditDistance.Distance(tokens[0], reference);
    if |tokens| == 1 then d else Min(d, MinDistance(tokens[1..], reference))
  }

  predicate IsExact(w: World, line: Line, inv: Invoice) {
    Norm(w, inv) in line.tokens && AmountsAgree(inv.amount, line.amount)
  }

  predicate IsFuzzy(w: World, line: Line, inv: Invoice) {
    && line.tokens != []
    && AmountsAgree(inv.amount, line.amount)
    && MinDistance(line.tokens, Norm(w, inv)) <= FUZZY_MAX
  }

  predicate IsOf(who: Option<int>, inv: Invoice) {
    who.Some? && inv.customer == who.value
  }

  predicate IsByIban(line: Line, who: Option<int>, inv: Invoice) {
    IsOf(who, inv) && AmountsAgree(inv.amount, line.amount)
  }

  predicate IsByName(line: Line, who: Option<int>, inv: Invoice) {
    IsByIban(line, who, inv) && Abs(inv.due - line.booking) <= B2_WINDOW
  }

  /** The tie-break (amount difference, distance, due date, id), smallest first. */
  predicate Preferred(d: nat, dist: nat, inv: Invoice, d': nat, dist': nat, inv': Invoice) {
    d < d' || (d == d' && (dist < dist' || (dist == dist' && Older(inv, inv'))))
  }

  /** The distance that enters the tie-break: the edit distance for rule A2, zero otherwise. */
  function RankDistance(w: World, line: Line, rule: Rule, inv: Invoice): nat {
    if rule == A2 && line.tokens != [] then MinDistance(line.tokens, Norm(w, inv)) else 0
  }

  predicate Beats(w: World, line: Line, rule: Rule, i: Invoice, j: Invoice) {
    Preferred(Diff(line, i), RankDistance(w, line, rule, i), i, Diff(line, j), RankDistance(w, line, rule, j), j)
  }

  /** The outcome takes the candidate of the rule that beats all others. */
  ghost predicate TakesBest(w: World, line: Line, rule: Rule, candidates: set<Invoice>, o: Outcome) {
    && o.Matched? && o.rule == rule && |o.invoices| == 1
    && o.invoices[0] in candidates
    && forall j :: j in candidates ==> j == o.invoices[0] || Beats(w, line, rule, o.invoices[0], j)
  }

  // ---------------------------------------------------------------- the decision

  function A1Set(w: World, avail: set<Invoice>, line: Line): set<Invoice> {
    set i | i in avail && IsExact(w, line, i)
  }

  function A2Set(w: World, avail: set<Invoice>, line: Line): set<Invoice> {
    set i | i in avail && IsFuzzy(w, line, i)
  }

  function B1Set(avail: set<Invoice>, line: Line, who: Option<int>): set<Invoice> {
    set i | i in avail && IsByIban(line, who, i)
  }

  function B2Set(avail: set<Invoice>, line: Line, who: Option<int>): set<Invoice> {
    set i | i in avail && IsByName(line, who, i)
  }

  function OfCustomer(avail: set<Invoice>, who: Option<int>): set<Invoice> {
    set i | i in avail && IsOf(who, i)
  }

  /** Rule B3 searches for the customer named by IBAN, else the one named by name. */
  function Payer(byIban: Option<int>, byName: Option<int>): Option<int> {
    if byIban.Some? then byIban else byName
  }

  /** `list` holds exactly the invoices of `s`, oldest first. */
  ghost predicate IsAgeOrder(list: seq<Invoice>, s: set<Invoice>) {
    OldestFirst(list) && DistinctIds(list) && forall i :: i in list <==> i in s
  }

  predicate TokenIsGone(line: Line, gone: set<string>) {
    exists t :: t in line.tokens && t in gone
  }

  /** B3 and the reason codes, given the payer's available invoices oldest first. */
  ghost predicate PaysRun(w: World, gone: set<string>, line: Line, who: Option<int>, list: seq<Invoice>, o: Outcome) {
    var run := if who.Some? then w.finder(list, line.amount) else [];
    if run != [] then o == Matched(B3, run)
    else o == Unmatched(if TokenIsGone(line, gone) then InvoiceConsumed else NoCandidate)
  }

  /** B3 and the reason codes, once A1 to B2 have found nothing. */
  ghost predicate DecidesLate(w: World, avail: set<Invoice>, gone: set<string>, line: Line, who: Option<int>, o: Outcome) {
    exists list :: IsAgeOrder(list, OfCustomer(avail, who)) && PaysRun(w, gone, line, who, list, o)
  }

  /** The first rule with a candidate decides the line. */
  ghost predicate DecidesFor(w: World, avail: set<Invoice>, gone: set<string>, line: Line,
                             byIban: Option<int>, byName: Option<int>, o: Outcome)
  {
    if A1Set(w, avail, line) != {} then TakesBest(w, line, A1, A1Set(w, avail, line), o)
    else if A2Set(w, avail, line) != {} then TakesBest(w, line, A2, A2Set(w, avail, line), o)
    else if B1Set(avail, line, byIban) != {} then TakesBest(w, line, B1, B1Set(avail, line, byIban), o)
    else if B2Set(avail, line, byName) != {} then TakesBest(w, line, B2, B2Set(avail, line, byName), o)
    else DecidesLate(w, avail, gone, line, Payer(byIban, byName), o)
  }

  /** `avail` are the available invoices, `gone` the normalised references of the others. */
  ghost predicate Decides(w: World, avail: set<Invoice>, gone: set<string>, line: Line, o: Outcome) {
    if line.amount <= 0 then o == Unmatched(Debit)
    else exists byIban, byName ::
      NamedByIban(w, line.iban, byIban) && NamedByName(w, line.remitter, byName)
      && DecidesFor(w, avail, gone, line, byIban, byName, o)
  }

  lemma BestUnique(w: World, line: Line, rule: Rule, candidates: set<Invoice>, o: Outcome, o': Outcome)
    requires TakesBest(w, line, rule, candidates, o) && TakesBest(w, line, rule, candidates, o')
    ensures o == o'
  {
    hide RankDistance, Diff;
    var i, j := o.invoices[0], o'.invoices[0];
    assert i == j;
    assert o.invoices == [i] && o'.invoices == [i];
  }

  /** No tie, no dependence on any enumeration order: a line has exactly one outcome. */
  lemma DecisionUnique(w: World, avail: set<Invoice>, gone: set<string>, line: Line, o: Outcome, o': Outcome)
    requires UniqueIbans(w)
    requires Decides(w, avail, gone, line, o) && Decides(w, avail, gone, line, o')
    ensures o == o'
  {
    hide DecidesFor, NamedByIban, NamedByName, OwnersByIban;
    if line.amount > 0 {
      var byIban, byName :|
        NamedByIban(w, line.iban, byIban) && NamedByName(w, line.remitter, byName)
        && DecidesFor(w, avail, gone, line, byIban, byName, o);
      var byIban', byName' :|
        NamedByIban(w, line.iban, byIban') && NamedByName(w, line.remitter, byName')
        && DecidesFor(w, avail, gone, line, byIban', byName', o');
      NamedByIbanUnique(w);
      NamedByNameUnique(w, line.remitter, byName, byName');
      DecidesForUnique(w, avail, gone, line, byIban, byName, o, o');
    }
  }

  lemma LateUnique(w: World, avail: set<Invoice>, gone: set<string>, line: Line, who: Option<int>, o: Outcome, o': Outcome)
    requires DecidesLate(w, avail, gone, line, who, o) && DecidesLate(w, avail, gone, line, who, o')
    ensures o == o'
  {
    hide OfCustomer, TokenIsGone;
    var list :| IsAgeOrder(list, OfCustomer(avail, who)) && PaysRun(w, gone, line, who, list, o);
    var list' :| IsAgeOrder(list', OfCustomer(avail, who)) && PaysRun(w, gone, line, who, list', o');
    SortedUnique(list, list');
  }

  lemma DecidesForUnique(w: World, avail: set<Invoice>, gone: set<string>, line: Line,
                         byIban: Option<int>, byName: Option<int>, o: Outcome, o': Outcome)
    requires DecidesFor(w, avail, gone, line, byIban, byName, o)
    requires DecidesFor(w, avail, gone, line, byIban, byName, o')
    ensures o == o'
  {
    hide TakesBest, A1Set, A2Set, B1Set, B2Set, DecidesLate;
    if A1Set(w, avail, line) != {} {
      BestUnique(w, line, A1, A1Set(w, avail, line), o, o');
    } else if A2Set(w, avail, line) != {} {
      BestUnique(w, line, A2, A2Set(w, avail, line), o, o');
    } else if B1Set(avail, line, byIban) != {} {
      BestUnique(w, line, B1, B1Set(avail, line, byIban), o, o');
    } else if B2Set(avail, line, byName) != {} {
      BestUnique(w, line, B2, B2Set(avail, line, byName), o, o');
    } else {
      LateUnique(w, avail, gone, line, Payer(byIban, byName), o, o');
    }
  }

  // ---------------------------------------------------------------- whole runs

  /** The invoices matched by a sequence of outcomes. */
  function Taken(outs: seq<Outcome>): set<Invoice> {
    set o, i | o in outs && o.Matched? && i in o.invoices :: i
  }

  /** The invoices of one outcome. */
  function Matches(o: Outcome): seq<Invoice> {
    if o.Matched? then o.invoices else []
  }

  function References(w: World, s: set<Invoice>): set<string> {
    set i | i in s :: Norm(w, i)
  }

  /** Line by line, with earlier matches taken away from the available invoices. */
  ghost predicate DecidesRun(w: World, avail: set<Invoice>, gone: set<string>, lines: seq<Line>, outs: seq<Outcome>) {
    && |outs| == |lines|
    && forall k :: 0 <= k < |lines| ==> DecidesAt(w, avail, gone, lines, outs, k)
  }

  ghost predicate DecidesAt(w: World, avail: set<Invoice>, gone: set<string>, lines: seq<Line>, outs: seq<Outcome>, k: int)
    requires 0 <= k < |lines| == |outs|
  {
    var taken := Taken(outs[..k]);
    Decides(w, avail - taken, gone + References(w, taken), lines[k], outs[k])
  }

  /** A run has exactly one sequence of outcomes. */
  lemma {:induction false} RunUnique(w: World, avail: set<Invoice>, gone: set<string>, lines: seq<Line>,
                                     outs: seq<Outcome>, outs': seq<Outcome>)
    requires UniqueIbans(w)
    requires DecidesRun(w, avail, gone, lines, outs) && DecidesRun(w, avail, gone, lines, outs')
    ensures outs == outs'
  {
    hide Decides, UniqueIbans, Taken, References;
    var k := 0;
    while k < |lines|
      invariant 0 <= k <= |lines|
      invariant outs[..k] == outs'[..k]
    {
      assert DecidesAt(w, avail, gone, lines, outs, k) && DecidesAt(w, avail, gone, lines, outs', k);
      var taken := Taken(outs[..k]);
      DecisionUnique(w, avail - taken, gone + References(w, taken), lines[k], outs[k], outs'[k]);
      k := k + 1;
    }
    assert outs == outs[..k] && outs' == outs'[..k];
  }

  // ---------------------------------------------------------------- ledgers

  predicate KeyedById(rows: map<int, Invoice>) {
    forall id :: id in rows ==> rows[id].id == id
  }

  predicate IsAvailable(inv: Invoice, consumed: set<int>) {
    inv.open && inv.id !in consumed
  }

  function Available(rows: map<int, Invoice>, consumed: set<int>): set<Invoice> {
    set id | id in rows && IsAvailable(rows[id], consumed) :: rows[id]
  }

  /** Normalised references of the invoices that are paid or consumed. */
  function Gone(w: World, rows: map<int, Invoice>, consumed: set<int>): set<string> {
    set id | id in rows && !IsAvailable(rows[id], consumed) :: Norm(w, rows[id])
  }

  /** The ledger after the given invoices were flipped to paid. */
  function MarkPaid(rows: map<int, Invoice>, ids: set<int>): (r: map<int, Invoice>)
    ensures r.Keys == rows.Keys
  {
    map id | id in rows :: if id in ids then rows[id].(open := false) else rows[id]
  }

  /** On a ledger where everything consumed is already paid, the `consumed` test changes nothing. */
  lemma ConsumedTestRedundant(w: World, rows: map<int, Invoice>, consumed: set<int>)
    requires forall id :: id in rows && rows[id].id in consumed ==> !rows[id].open
    ensures Available(rows, consumed) == Available(rows, {})
    ensures Gone(w, rows, consumed) == Gone(w, rows, {})
  {}
}
