/** Records, matching parameters and the oldest-first order shared by the reconciliation modules.
    Amounts are cents and dates are day numbers. */
module ReconModel {
  import opened Common

  datatype Rule = A1 | A2 | B1 | B2 | B3

  datatype Reason = Debit | InvoiceConsumed | NoCandidate

  datatype Invoice = Invoice(id: int, customer: int, reference: string, amount: int, due: int, open: bool)

  /** A row of the customer master, its alias and IBAN lists without blank entries. */
  datatype Customer = Customer(id: int, legalName: string, aliases: seq<string>, ibans: seq<string>)

  /** A statement line; `tokens` are its normalised reference tokens. */
  datatype Line = Line(id: string, booking: int, remitter: string, iban: string, tokens: seq<string>, amount: int)

  datatype Outcome = Matched(rule: Rule, invoices: seq<Invoice>) | Unmatched(reason: Reason)

  const TOLERANCE: int := 1
  const FUZZY_MAX: int := 2
  const B2_WINDOW: int := 14
  const BATCH_WINDOW: int := 60
  const BATCH_MIN: nat := 2
  const BATCH_MAX: nat := 40
  const BATCH_CAP: nat := 12

  predicate AmountsAgree(a: int, b: int) {
    Abs(a - b) <= TOLERANCE
  }

  function Total(invs: seq<Invoice>): int {
    if invs == [] then 0 else invs[0].amount + Total(invs[1..])
  }

  function Ids(invs: seq<Invoice>): set<int> {
    set inv | inv in invs :: inv.id
  }

  predicate DistinctIds(invs: seq<Invoice>) {
    forall i, j :: 0 <= i < j < |invs| ==> invs[i].id != invs[j].id
  }

  // ---------------------------------------------------------------- oldest first

  /** Ascending (due date, id). */
  predicate Older(a: Invoice, b: Invoice) {
    a.due < b.due || (a.due == b.due && a.id < b.id)
  }

  predicate OldestFirst(invs: seq<Invoice>) {
    forall i, j :: 0 <= i < j < |invs| ==> !Older(invs[j], invs[i])
  }

  function InsertByAge(inv: Invoice, sorted: seq<Invoice>): (r: seq<Invoice>)
    ensures multiset(r) == multiset(sorted) + multiset{inv}
  {
    if sorted == [] then [inv]
    else if Older(inv, sorted[0]) then [inv] + sorted
    else
      assert sorted == [sorted[0]] + sorted[1..];
      [sorted[0]] + InsertByAge(inv, sorted[1..])
  }

  /** The order of the store and of rule B3: a stable sort by (due date, id). */
  function SortByAge(invs: seq<Invoice>): (r: seq<Invoice>)
    ensures multiset(r) == multiset(invs)
  {
    if invs == [] then []
    else
      assert invs == invs[..|invs| - 1] + [invs[|invs| - 1]];
      InsertByAge(invs[|invs| - 1], SortByAge(invs[..|invs| - 1]))
  }

  lemma {:induction false} InsertSorted(inv: Invoice, sorted: seq<Invoice>)
    requires OldestFirst(sorted)
    ensures OldestFirst(InsertByAge(inv, sorted))
  {
    if sorted != [] && !Older(inv, sorted[0]) {
      var rest := InsertByAge(inv, sorted[1..]);
      InsertSorted(inv, sorted[1..]);
      forall k | 0 <= k < |rest|
        ensures !Older(rest[k], sorted[0])
      {
        assert rest[k] in multiset(rest);
        assert rest[k] == inv || rest[k] in sorted[1..];
      }
    }
  }

  lemma {:induction false} SortedByAge(invs: seq<Invoice>)
    ensures OldestFirst(SortByAge(invs))
    ensures forall inv :: inv in SortByAge(invs) <==> inv in invs
    ensures |SortByAge(invs)| == |invs|
  {
    if invs != [] {
      SortedByAge(invs[..|invs| - 1]);
      InsertSorted(invs[|invs| - 1], SortByAge(invs[..|invs| - 1]));
    }
    SameElements(SortByAge(invs), invs);
  }

  lemma SameElements(a: seq<Invoice>, b: seq<Invoice>)
    requires multiset(a) == multiset(b)
    ensures |a| == |b|
    ensures forall x :: x in a <==> x in b
  {
    assert |multiset(a)| == |multiset(b)|;
    forall x
      ensures x in a <==> x in b
    {
      assert x in a <==> x in multiset(a);
      assert x in b <==> x in multiset(b);
    }
  }

  lemma {:induction false} InsertAtEnd(inv: Invoice, sorted: seq<Invoice>)
    requires forall x :: x in sorted ==> !Older(inv, x)
    ensures InsertByAge(inv, sorted) == sorted + [inv]
  {
    if sorted != [] {
      assert sorted[0] in sorted && sorted == [sorted[0]] + sorted[1..];
      InsertAtEnd(inv, sorted[1..]);
    }
  }

  /** A list already in order is left alone. */
  lemma {:induction false} SortFixesSorted(invs: seq<Invoice>)
    requires OldestFirst(invs)
    ensures SortByAge(invs) == invs
  {
    if invs != [] {
      var front := invs[..|invs| - 1];
      SortFixesSorted(front);
      InsertAtEnd(invs[|invs| - 1], front);
    }
  }

  /** Sorting keeps ids distinct. */
  lemma {:induction false} SortKeepsDistinct(invs: seq<Invoice>)
    requires DistinctIds(invs)
    ensures DistinctIds(SortByAge(invs))
  {
    if invs != [] {
      var front := invs[..|invs| - 1];
      SortKeepsDistinct(front);
      SortedByAge(front);
      InsertKeepsDistinct(invs[|invs| - 1], SortByAge(front));
    }
  }

  lemma {:induction false} InsertKeepsDistinct(inv: Invoice, sorted: seq<Invoice>)
    requires DistinctIds(sorted) && forall x :: x in sorted ==> x.id != inv.id
    ensures DistinctIds(InsertByAge(inv, sorted))
  {
    if sorted != [] && !Older(inv, sorted[0]) {
      var rest := InsertByAge(inv, sorted[1..]);
      InsertKeepsDistinct(inv, sorted[1..]);
      forall k | 0 <= k < |rest|
        ensures rest[k].id != sorted[0].id
      {
        assert rest[k] in multiset(rest);
        assert rest[k] == inv || rest[k] in sorted[1..];
      }
    }
  }

  lemma NonEmptyHasHead(s: seq<Invoice>)
    ensures s != [] ==> exists x :: x in s
  {
    if s != [] {
      assert s[0] in s;
    }
  }

  /** Two oldest-first lists with the same invoices and no repeated id are the same list. */
  lemma {:induction false} SortedUnique(a: seq<Invoice>, b: seq<Invoice>)
    requires OldestFirst(a) && OldestFirst(b) && DistinctIds(a) && DistinctIds(b)
    requires forall x :: x in a <==> x in b
    ensures a == b
  {
    if a == [] {
      NonEmptyHasHead(b);
    } else {
      assert a[0] in a && b != [];
      var i :| 0 <= i < |b| && b[i] == a[0];
      assert b[0] in a;
      var j :| 0 <= j < |a| && a[j] == b[0];
      assert a[0] == b[0];
      SameTail(a, b);
      SortedUnique(a[1..], b[1..]);
    }
  }

  lemma SameTail(a: seq<Invoice>, b: seq<Invoice>)
    requires a != [] && b != [] && a[0] == b[0] && DistinctIds(a) && DistinctIds(b)
    requires forall x :: x in a <==> x in b
    ensures forall x :: x in a[1..] <==> x in b[1..]
  {
    forall x
      ensures x in a[1..] <==> x in b[1..]
    {
      assert x in a[1..] ==> x in a && x != a[0];
      assert x in b[1..] ==> x in b && x != b[0];
      assert x in a ==> x == a[0] || x in a[1..];
      assert x in b ==> x == b[0] || x in b[1..];
    }
  }
}
