/** What the accrual batch selects: the open accounts, the transactions of an account, and the postings that
    count, each read off entry by entry. */
module LoanFigures {
  import opened Common
  import opened LoanBatch

  /** Selecting goes entry by entry and keeps the order: an account is left out exactly when its status is Z. */
  lemma {:induction false} OpenAccounts(front: seq<Account>, back: seq<Account>, a: Account)
    ensures Open(front + back) == Open(front) + Open(back)
    ensures Open([a]) == if a.status == "Z" then [] else [a]
  {
    assert [a][..0] == [] && Open([]) == [];
    if back == [] {
      assert front + back == front;
    } else {
      var n := |back| - 1;
      OpenAccounts(front, back[..n], a);
      assert (front + back)[..|front| + n] == front + back[..n];
    }
  }

  lemma {:induction false} AccountTransactions(front: seq<Transaction>, back: seq<Transaction>, t: Transaction, number: nat)
    ensures OfAccount(front + back, number) == OfAccount(front, number) + OfAccount(back, number)
    ensures OfAccount([t], number) == if t.account == number then [t] else []
  {
    assert [t][..0] == [] && OfAccount([], number) == [];
    if back == [] {
      assert front + back == front;
    } else {
      var n := |back| - 1;
      AccountTransactions(front, back[..n], t, number);
      assert (front + back)[..|front| + n] == front + back[..n];
    }
  }

  /** Payments count in full and reversals against them; a voided entry does not count, whatever its type, and
      any other entry of an unknown type stops the run. */
  lemma OnePosting(t: Transaction)
    ensures Postings([t]) ==
      if t.voided then Some([]) else if t.tranType == "P" then Some([t.amount]) else if t.tranType == "R" then Some([-t.amount]) else None
  {
    PostingsStep([t], 0);
    assert [t][..1] == [t];
    assert [] + [t.amount] == [t.amount] && [] + [-t.amount] == [-t.amount];
  }

  lemma {:induction false} PostedAmounts(front: seq<Transaction>, back: seq<Transaction>)
    ensures Postings(front + back).Some? <==> Postings(front).Some? && Postings(back).Some?
    ensures Postings(front + back).Some? ==> Postings(front + back).value == Postings(front).value + Postings(back).value
  {
    if back == [] {
      assert front + back == front;
    } else {
      var n := |back| - 1;
      PostedAmounts(front, back[..n]);
      assert (front + back)[..|front| + n] == front + back[..n];
    }
  }
}
