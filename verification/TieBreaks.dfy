/** What the rules say of a decided line in plain comparisons: which rule decides, which of its
    candidates is taken, and what that means for a customer who pays the same amount twice. */
module TieBreaks {
  import opened Common
  import opened ReconModel
  import opened MatchingRules
  import opened Scoring
  import Normalize
  import EditDistance

  // ---------------------------------------------------------------- who paid

  /** Some customer of that id has the IBAN; both sides are compared without blanks and in upper case. */
  lemma IbanOwner(w: World, iban: string, id: int)
    ensures id in OwnersByIban(w, iban) <==> iban != "" && exists c, own ::
      && c in w.customers && own in c.ibans && c.id == id
      && Normalize.Iban(w.platform, own) == Normalize.Iban(w.platform, iban)
  {
    hide Normalize.Iban;
  }

  /** Some customer of that id has the name as its legal name or as an alias. */
  lemma NameOwner(w: World, name: string, id: int)
    ensures id in OwnersByName(w, name) <==> name != "" && exists c, own ::
      && c in w.customers && (own == c.legalName || own in c.aliases) && c.id == id
      && Normalize.Reference(w.platform, own) == Normalize.Reference(w.platform, name)
  {
    hide Normalize.Reference;
    if name != "" && exists c, own ::
      && c in w.customers && (own == c.legalName || own in c.aliases) && c.id == id
      && Normalize.Reference(w.platform, own) == Normalize.Reference(w.platform, name)
    {
      var c, own :| c in w.customers && (own == c.legalName || own in c.aliases) && c.id == id
        && Normalize.Reference(w.platform, own) == Normalize.Reference(w.platform, name);
      assert own in Names(c);
    }
  }

  /** The distance of an invoice is the least edit distance from any token to its reference. */
  lemma {:induction false} LeastOverTokens(tokens: seq<string>, reference: string)
    requires tokens != []
    ensures exists t :: t in tokens && MinDistance(tokens, reference) == EditDistance.Distance(t, reference)
    ensures forall t :: t in tokens ==> MinDistance(tokens, reference) <= EditDistance.Distance(t, reference)
  {
    hide EditDistance.Distance;
    assert tokens[0] in tokens && tokens == [tokens[0]] + tokens[1..];
    if |tokens| > 1 {
      LeastOverTokens(tokens[1..], reference);
      assert forall t :: t in tokens[1..] ==> t in tokens;
    }
  }

  // ---------------------------------------------------------------- which rule decides

  /** The first rule with a candidate decides: an available invoice that meets the condition of a rule keeps
      every later rule, and the reason codes, from deciding the line. */
  lemma RuleOrder(w: World, avail: set<Invoice>, gone: set<string>, line: Line, o: Outcome, j: Invoice)
    requires Decides(w, avail, gone, line, o) && line.amount > 0 && j in avail && Abs(j.amount - line.amount) <= 1
    ensures Norm(w, j) in line.tokens ==> o.Matched? && o.rule == A1
    ensures line.tokens != [] && MinDistance(line.tokens, Norm(w, j)) <= 2 ==> o.Matched? && o.rule in {A1, A2}
    ensures OwnersByIban(w, line.iban) == {j.customer} ==> o.Matched? && o.rule in {A1, A2, B1}
    ensures OwnersByName(w, line.remitter) == {j.customer} && Abs(j.due - line.booking) <= 14 ==>
      o.Matched? && o.rule in {A1, A2, B1, B2}
  {
    hide Norm, MinDistance, OwnersByIban, OwnersByName, DecidesLate, Beats;
    var byIban, byName :|
      NamedByIban(w, line.iban, byIban) && NamedByName(w, line.remitter, byName)
      && DecidesFor(w, avail, gone, line, byIban, byName, o);
    assert IsExact(w, line, j) ==> j in A1Set(w, avail, line);
    assert IsFuzzy(w, line, j) ==> j in A2Set(w, avail, line);
    assert IsByIban(line, byIban, j) ==> j in B1Set(avail, line, byIban);
    assert IsByName(line, byName, j) ==> j in B2Set(avail, line, byName);
  }

  /** Debits are never matched, and only debits carry that reason. Without a candidate of the other rules a
      credit is left to the search for a batch among the payer's available invoices, oldest first: the owner
      of the IBAN pays if there is one, else the only owner of the name. If that finds nothing, the reason
      says whether one of the tokens is the reference of an invoice that is gone. */
  lemma LeftOver(w: World, avail: set<Invoice>, gone: set<string>, line: Line, o: Outcome)
    requires Decides(w, avail, gone, line, o)
    ensures line.amount <= 0 <==> o == Unmatched(Debit)
    ensures line.amount > 0 && (o.Unmatched? || o.rule == B3) ==> exists payer: Option<int>, list ::
      && (OwnersByIban(w, line.iban) != {} ==> payer.Some? && payer.value in OwnersByIban(w, line.iban))
      && (OwnersByIban(w, line.iban) == {} && |OwnersByName(w, line.remitter)| == 1 ==>
            payer.Some? && payer.value in OwnersByName(w, line.remitter))
      && (OwnersByIban(w, line.iban) == {} && |OwnersByName(w, line.remitter)| != 1 ==> payer.None?)
      && OldestFirst(list) && DistinctIds(list)
      && (forall i :: i in list <==> i in avail && payer == Some(i.customer))
      && (if payer.Some? && w.finder(list, line.amount) != [] then o == Matched(B3, w.finder(list, line.amount))
          else if exists t :: t in line.tokens && t in gone then o == Unmatched(InvoiceConsumed)
          else o == Unmatched(NoCandidate))
  {
    hide A1Set, A2Set, B1Set, B2Set, OwnersByIban, OwnersByName, Beats, OldestFirst, DistinctIds;
    if line.amount > 0 {
      var byIban, byName :|
        NamedByIban(w, line.iban, byIban) && NamedByName(w, line.remitter, byName)
        && DecidesFor(w, avail, gone, line, byIban, byName, o);
      if o.Unmatched? || o.rule == B3 {
        var payer := Payer(byIban, byName);
        assert DecidesLate(w, avail, gone, line, payer, o);
        var list :| IsAgeOrder(list, OfCustomer(avail, payer)) && PaysRun(w, gone, line, payer, list, o);
        assert forall i :: i in list <==> i in avail && payer == Some(i.customer);
      }
    }
  }

  // ---------------------------------------------------------------- the candidate taken

  /** The candidates among which a single-invoice rule chose. */
  lemma ChosenAmong(w: World, avail: set<Invoice>, gone: set<string>, line: Line, o: Outcome)
      returns (s: set<Invoice>, byIban: Option<int>, byName: Option<int>)
    requires Decides(w, avail, gone, line, o) && o.Matched? && o.rule != B3
    ensures line.amount > 0 && NamedByIban(w, line.iban, byIban) && NamedByName(w, line.remitter, byName)
    ensures TakesBest(w, line, o.rule, s, o)
    ensures s == match o.rule
      case A1 => A1Set(w, avail, line)
      case A2 => A2Set(w, avail, line)
      case B1 => B1Set(avail, line, byIban)
      case _ => B2Set(avail, line, byName)
  {
    hide A1Set, A2Set, B1Set, B2Set, NamedByIban, NamedByName, Beats;
    byIban, byName :|
      NamedByIban(w, line.iban, byIban) && NamedByName(w, line.remitter, byName)
      && DecidesFor(w, avail, gone, line, byIban, byName, o);
    s := match o.rule
      case A1 => A1Set(w, avail, line)
      case A2 => A2Set(w, avail, line)
      case B1 => B1Set(avail, line, byIban)
      case _ => B2Set(avail, line, byName);
  }

  /** Rule A1 takes an invoice whose reference is a token and whose amount is at most a cent off, and every
      other one has a larger (amount difference, due date, id). */
  lemma ExactTaken(w: World, avail: set<Invoice>, gone: set<string>, line: Line, o: Outcome, j: Invoice)
    requires Decides(w, avail, gone, line, o) && o.Matched? && o.rule == A1
    ensures |o.invoices| == 1 && line.amount > 0
    ensures var i := o.invoices[0];
      i in avail && Norm(w, i) in line.tokens && Abs(i.amount - line.amount) <= 1
    ensures j in avail && Norm(w, j) in line.tokens && Abs(j.amount - line.amount) <= 1 ==>
      var i := o.invoices[0];
      var (d, e) := (Abs(i.amount - line.amount), Abs(j.amount - line.amount));
      j == i || d < e || (d == e && (i.due < j.due || (i.due == j.due && i.id < j.id)))
  {
    hide Norm, MinDistance, NamedByIban, NamedByName, Decides;
    var s, byIban, byName := ChosenAmong(w, avail, gone, line, o);
    assert j in s && j != o.invoices[0] ==> Beats(w, line, o.rule, o.invoices[0], j);
  }

  /** Rule A2 takes an invoice within two edits of a token and at most a cent off, and every other one has a
      larger (amount difference, edit distance, due date, id). */
  lemma FuzzyTaken(w: World, avail: set<Invoice>, gone: set<string>, line: Line, o: Outcome, j: Invoice)
    requires Decides(w, avail, gone, line, o) && o.Matched? && o.rule == A2
    ensures |o.invoices| == 1 && line.amount > 0 && line.tokens != []
    ensures var i := o.invoices[0];
      i in avail && MinDistance(line.tokens, Norm(w, i)) <= 2 && Abs(i.amount - line.amount) <= 1
    ensures j in avail && MinDistance(line.tokens, Norm(w, j)) <= 2 && Abs(j.amount - line.amount) <= 1 ==>
      var i := o.invoices[0];
      var (d, e) := (Abs(i.amount - line.amount), Abs(j.amount - line.amount));
      var (m, n) := (MinDistance(line.tokens, Norm(w, i)), MinDistance(line.tokens, Norm(w, j)));
      j == i || d < e || (d == e && (m < n || (m == n && (i.due < j.due || (i.due == j.due && i.id < j.id)))))
  {
    hide Norm, MinDistance, NamedByIban, NamedByName, Decides;
    var s, byIban, byName := ChosenAmong(w, avail, gone, line, o);
    assert j in s && j != o.invoices[0] ==> Beats(w, line, o.rule, o.invoices[0], j);
  }

  /** Rules B1 and B2 take an invoice of the customer named by IBAN or by name, at most a cent off and for
      rule B2 due within 14 days of the booking, and every other such invoice of that customer has a larger
      (amount difference, due date, id). */
  lemma PayersInvoiceTaken(w: World, avail: set<Invoice>, gone: set<string>, line: Line, o: Outcome, j: Invoice)
    requires Decides(w, avail, gone, line, o) && o.Matched? && o.rule in {B1, B2}
    ensures |o.invoices| == 1 && line.amount > 0
    ensures var i := o.invoices[0];
      && i in avail && Abs(i.amount - line.amount) <= 1
      && (o.rule == B1 ==> i.customer in OwnersByIban(w, line.iban))
      && (o.rule == B2 ==> OwnersByName(w, line.remitter) == {i.customer} && Abs(i.due - line.booking) <= 14)
    ensures var i := o.invoices[0];
      j in avail && j.customer == i.customer && Abs(j.amount - line.amount) <= 1
      && (o.rule == B2 ==> Abs(j.due - line.booking) <= 14) ==>
        var (d, e) := (Abs(i.amount - line.amount), Abs(j.amount - line.amount));
        j == i || d < e || (d == e && (i.due < j.due || (i.due == j.due && i.id < j.id)))
  {
    hide A1Set, A2Set, OwnersByIban, OwnersByName, Decides, MinDistance, Norm;
    var s, byIban, byName := ChosenAmong(w, avail, gone, line, o);
    assert j in s && j != o.invoices[0] ==> Beats(w, line, o.rule, o.invoices[0], j);
  }

  /** Candidates of different rules are ranked in the order of the rules, those of one rule by (amount
      difference, distance, due date and id of the oldest invoice). */
  lemma KeyOrder(c: Candidate, d: Candidate)
    requires c.invoices != [] && d.invoices != []
    ensures c.rule == A1 && d.rule != A1 ==> KeyLess(c, d) && !KeyLess(d, c)
    ensures c.rule == A2 && d.rule in {B1, B2, B3} ==> KeyLess(c, d) && !KeyLess(d, c)
    ensures c.rule == B1 && d.rule in {B2, B3} ==> KeyLess(c, d) && !KeyLess(d, c)
    ensures c.rule == B2 && d.rule == B3 ==> KeyLess(c, d) && !KeyLess(d, c)
    ensures c.rule == d.rule ==>
      var (i, j) := (Oldest(c.invoices), Oldest(d.invoices));
      KeyLess(c, d) <==>
        c.diff < d.diff || (c.diff == d.diff && (c.distance < d.distance || (c.distance == d.distance
          && (i.due < j.due || (i.due == j.due && i.id < j.id)))))
  {
    hide Oldest;
  }

  // ---------------------------------------------------------------- the same amount twice

  /** Two equal payments of one customer, both matched by rule B1: the first takes the invoice that is
      nearer in amount, and of two equally near ones the one due first. */
  lemma PaidTwice(w: World, avail: set<Invoice>, gone: set<string>, lines: seq<Line>, outs: seq<Outcome>, k: nat, l: nat)
    requires DecidesRun(w, avail, gone, lines, outs) && k < l < |lines|
    requires outs[k].Matched? && outs[k].rule == B1 && outs[l].Matched? && outs[l].rule == B1
    requires lines[k].amount == lines[l].amount
    requires |OwnersByIban(w, lines[k].iban)| == 1 && OwnersByIban(w, lines[k].iban) == OwnersByIban(w, lines[l].iban)
    ensures |outs[k].invoices| == 1 && |outs[l].invoices| == 1
    ensures var (first, second, paid) := (outs[k].invoices[0], outs[l].invoices[0], lines[k].amount);
      var (d, e) := (Abs(first.amount - paid), Abs(second.amount - paid));
      && first != second && first.customer == second.customer
      && (d < e || (d == e && (first.due < second.due || (first.due == second.due && first.id < second.id))))
  {
    hide Decides, References, Taken, OwnersByIban;
    var (a, b) := (Taken(outs[..k]), Taken(outs[..l]));
    assert DecidesAt(w, avail, gone, lines, outs, k) && DecidesAt(w, avail, gone, lines, outs, l);
    var s, byIban, byName := ChosenAmong(w, avail - b, gone + References(w, b), lines[l], outs[l]);
    PayersInvoiceTaken(w, avail - b, gone + References(w, b), lines[l], outs[l], outs[l].invoices[0]);
    PayersInvoiceTaken(w, avail - a, gone + References(w, a), lines[k], outs[k], outs[l].invoices[0]);
    OneOwner(OwnersByIban(w, lines[k].iban), outs[k].invoices[0].customer, outs[l].invoices[0].customer);
    TakenBefore(outs, k, l);
  }

  lemma OneOwner(s: set<int>, x: int, y: int)
    requires |s| == 1 && x in s && y in s
    ensures x == y
  {
    assert |s - {x}| == 0;
    assert y == x || y in s - {x};
  }

  lemma TakenBefore(outs: seq<Outcome>, k: nat, l: nat)
    requires k < l < |outs|
    ensures Taken(outs[..k]) <= Taken(outs[..l])
    ensures outs[k].Matched? ==> forall i :: i in outs[k].invoices ==> i in Taken(outs[..l])
  {
    assert outs[k] in outs[..l];
    assert forall o :: o in outs[..k] ==> o in outs[..l];
  }
}
