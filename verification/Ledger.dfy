/** The store: invoices, bank lines and match rows, with the reads and writes the pipeline uses. */
module Ledger {
  import opened Common
  import opened ReconModel
  import opened MatchingRules

  datatype MatchRow = MatchRow(rule: Rule, amount: int)

  /** One row per matched invoice, keyed by (line id, invoice id). */
  function Rows(line: Line, rule: Rule, invs: seq<Invoice>): map<(string, int), MatchRow> {
    map id | id in Ids(invs) :: (line.id, id) := MatchRow(rule, line.amount)
  }

  predicate Ascending(ids: seq<int>) {
    forall i, j :: 0 <= i < j < |ids| ==> ids[i] < ids[j]
  }

  function InsertId(id: int, ids: seq<int>): (r: seq<int>)
    requires Ascending(ids) && id !in ids
    ensures Ascending(r) && forall x :: x in r <==> x == id || x in ids
  {
    if ids == [] then [id]
    else if id < ids[0] then [id] + ids
    else
      var rest := InsertId(id, ids[1..]);
      assert forall k :: 0 <= k < |rest| ==> rest[k] in rest;
      assert ids == [ids[0]] + ids[1..];
      [ids[0]] + rest
  }

  lemma MarkPaidNone(rows: map<int, Invoice>)
    ensures MarkPaid(rows, Ids([])) == rows
  {}

  lemma MarkPaidOne(rows: map<int, Invoice>, invs: seq<Invoice>, inv: Invoice)
    ensures var r := MarkPaid(rows, Ids(invs));
      MarkPaid(rows, Ids(invs + [inv])) == if inv.id in r then r[inv.id := r[inv.id].(open := false)] else r
  {
    assert Ids(invs + [inv]) == Ids(invs) + {inv.id};
  }

  lemma RowsNone(line: Line, rule: Rule)
    ensures Rows(line, rule, []) == map[]
  {}

  lemma RowsOne(line: Line, rule: Rule, invs: seq<Invoice>, inv: Invoice)
    ensures Rows(line, rule, invs + [inv]) == Rows(line, rule, invs)[(line.id, inv.id) := MatchRow(rule, line.amount)]
  {
    assert Ids(invs + [inv]) == Ids(invs) + {inv.id};
  }

  class Repository {
    var invoices: map<int, Invoice>
    var bankLines: map<string, Line>
    var matches: map<(string, int), MatchRow>

    constructor (rows: map<int, Invoice>)
      ensures invoices == rows && bankLines == map[] && matches == map[]
    {
      invoices, bankLines, matches := rows, map[], map[];
    }

    method AllInvoiceIds() returns (ids: seq<int>)
      ensures Ascending(ids) && forall id :: id in ids <==> id in invoices
    {
      ids := [];
      var left: set<int> := invoices.Keys;
      while left != {}
        invariant left <= invoices.Keys && Ascending(ids)
        invariant forall id :: id in ids <==> id in invoices.Keys - left
        decreases |left|
      {
        HasInt(left);
        var id :| id in left;
        ids := InsertId(id, ids);
        left := left - {id};
      }
    }

    method GetInvoice(id: int) returns (inv: Option<Invoice>)
      ensures inv == if id in invoices then Some(invoices[id]) else None
    {
      inv := if id in invoices then Some(invoices[id]) else None;
    }

    /** Open invoices of a customer, ordered by due date and id. */
    method OpenInvoicesForCustomer(customer: int) returns (list: seq<Invoice>)
      requires KeyedById(invoices)
      ensures IsAgeOrder(list, OfCustomer(Available(invoices, {}), Some(customer)))
    {
      var ids := AllInvoiceIds();
      var found: seq<Invoice> := [];
      for n := 0 to |ids|
        invariant DistinctIds(found)
        invariant forall i :: i in found ==> i.id in ids[..n] && i.open && i.customer == customer && i.id in invoices && invoices[i.id] == i
        invariant forall id :: id in ids[..n] && id in invoices && invoices[id].open && invoices[id].customer == customer ==> invoices[id] in found
      {
        assert ids[n] in ids && ids[..n + 1] == ids[..n] + [ids[n]];
        var inv := invoices[ids[n]];
        if inv.open && inv.customer == customer {
          found := found + [inv];
        }
      }
      assert ids[..|ids|] == ids;
      list := SortByAge(found);
      SortedByAge(found);
      SortKeepsDistinct(found);
    }

    method InsertBankLine(line: Line)
      modifies this`bankLines
      ensures bankLines == old(bankLines)[line.id := line]
    {
      bankLines := bankLines[line.id := line];
    }

    /** Write one match row per invoice of the result and flip those invoices to paid. */
    method MarkMatched(line: Line, result: Outcome) returns (n: nat)
      modifies this`invoices, this`matches
      ensures result.Unmatched? ==> n == 0 && invoices == old(invoices) && matches == old(matches)
      ensures result.Matched? ==>
        && n == |result.invoices|
        && invoices == MarkPaid(old(invoices), Ids(result.invoices))
        && matches == old(matches) + Rows(line, result.rule, result.invoices)
    {
      hide MarkPaid, Rows;
      if result.Unmatched? {
        return 0;
      }
      MarkPaidNone(invoices);
      RowsNone(line, result.rule);
      for k := 0 to |result.invoices|
        invariant invoices == MarkPaid(old(invoices), Ids(result.invoices[..k]))
        invariant matches == old(matches) + Rows(line, result.rule, result.invoices[..k])
      {
        var inv := result.invoices[k];
        MarkPaidOne(old(invoices), result.invoices[..k], inv);
        RowsOne(line, result.rule, result.invoices[..k], inv);
        if inv.id in invoices {
          invoices := invoices[inv.id := invoices[inv.id].(open := false)];
        }
        matches := matches[(line.id, inv.id) := MatchRow(result.rule, line.amount)];
        assert result.invoices[..k + 1] == result.invoices[..k] + [inv];
      }
      assert result.invoices[..|result.invoices|] == result.invoices;
      n := |result.invoices|;
    }
  }
}
