/** What the two searches for a batch payment return, in positions, day numbers and cents. */
module BatchChoice {
  import opened Common
  import opened ReconModel
  import opened BatchSearch

  predicate Ascending(t: seq<nat>, n: nat) {
    (forall i :: 0 <= i < |t| ==> t[i] < n) && forall i, j :: 0 <= i < j < |t| ==> t[i] < t[j]
  }

  /** Two or more invoices that add up to the amount, to the cent, with due dates at most 60 days apart. */
  predicate PaysTogether(s: seq<Invoice>, t: seq<nat>, amount: int) {
    && Ascending(t, |s|) && |t| >= 2
    && -1 <= Total(seq(|t|, i requires 0 <= i < |t| => s[t[i]])) - amount <= 1
    && forall i, j :: 0 <= i < |t| && 0 <= j < |t| ==> s[t[j]].due - s[t[i]].due <= 60
  }

  lemma SpanOf(invs: seq<Invoice>, days: int)
    requires invs != []
    ensures Latest(invs) - Earliest(invs) <= days <==> forall i, j :: 0 <= i < |invs| && 0 <= j < |invs| ==> invs[j].due - invs[i].due <= days
  {
    var (last, first) := (Latest(invs), Earliest(invs));
    var late :| late in invs && late.due == last;
    var early :| early in invs && early.due == first;
  }

  lemma BatchMeans(s: seq<Invoice>, amount: int, t: seq<nat>)
    requires |s| <= 12
    ensures NamesBatch(s, amount, t) <==> PaysTogether(s, t, amount)
  {
    hide Latest, Earliest, Total;
    if IsTuple(t, 0, |s|, |t|) && |t| >= 2 {
      var picked := Pick(s, t);
      SpanOf(picked, 60);
      TupleFits(t, 0, |s|, |t|);
      assert picked == seq(|t|, i requires 0 <= i < |t| => s[t[i]]);
      assert forall i :: 0 <= i < |t| ==> picked[i] == s[t[i]];
    }
  }

  /** Smaller is earlier; of two tuples of one size, the one with the smaller position where they first differ. */
  predicate Precedes(t: seq<nat>, u: seq<nat>) {
    |t| < |u| || (|t| == |u| && exists k: nat :: k < |t| && t[..k] == u[..k] && t[k] < u[k])
  }

  lemma {:induction false} LexMeans(t: seq<nat>, u: seq<nat>)
    requires |t| == |u|
    ensures LexLess(t, u) <==> exists k: nat :: k < |t| && t[..k] == u[..k] && t[k] < u[k]
  {
    if t != [] {
      LexMeans(t[1..], u[1..]);
      if t[0] < u[0] {
        assert t[..0] == u[..0];
      }
      if k: nat :| t[0] == u[0] && k < |t| - 1 && t[1..][..k] == u[1..][..k] && t[1..][k] < u[1..][k] {
        assert t[..k + 1] == [t[0]] + t[1..][..k] && u[..k + 1] == [u[0]] + u[1..][..k];
      }
      if k: nat :| 0 < k < |t| && t[..k] == u[..k] && t[k] < u[k] {
        assert t[0] == t[..k][0] && u[0] == u[..k][0];
        assert t[1..][..k - 1] == t[..k][1..] && u[1..][..k - 1] == u[..k][1..];
        assert t[1..][k - 1] < u[1..][k - 1];
      }
    }
  }

  /** The tuple whose invoices are returned pays together and precedes every other one that does. */
  ghost predicate IsChosen(s: seq<Invoice>, amount: int, r: seq<Invoice>, t: seq<nat>) {
    && PaysTogether(s, t, amount) && |r| == |t| && (forall i :: 0 <= i < |t| ==> r[i] == s[t[i]])
    && forall u :: PaysTogether(s, u, amount) && u != t ==> Precedes(t, u)
  }

  /** The subset search answers for at most twelve invoices, taken oldest first: with the invoices of the first
      tuple that pays together, and with nothing exactly when there is none. */
  lemma BatchChosen(invoices: seq<Invoice>, amount: int)
    ensures var (s, r) := (SortByAge(invoices), BatchFinder(invoices, amount));
      && (|s| > 12 ==> r == [])
      && (|s| <= 12 && r == [] ==> forall u :: !PaysTogether(s, u, amount))
      && (r != [] ==> exists t :: IsChosen(s, amount, r, t))
  {
    hide PaysTogether, NamesBatch, NamesFirstBatch, BatchFinder, IsChosen, Pick;
    FindBatchExact(invoices, amount);
    var (s, r) := (SortByAge(invoices), BatchFinder(invoices, amount));
    if |s| <= 12 {
      forall u
        ensures NamesBatch(s, amount, u) <==> PaysTogether(s, u, amount)
      {
        BatchMeans(s, amount, u);
      }
    }
    if r != [] {
      ChosenMeans(s, amount, r);
    }
  }

  lemma ChosenMeans(s: seq<Invoice>, amount: int, r: seq<Invoice>)
    requires |s| <= 12 && exists t :: NamesFirstBatch(s, amount, t) && r == Pick(s, t)
    ensures exists t :: IsChosen(s, amount, r, t)
  {
    hide PaysTogether, IsBatch, Precedes;
    var t :| NamesFirstBatch(s, amount, t) && r == Pick(s, t);
    FirstMeans(s, amount, t);
    BatchMeans(s, amount, t);
    forall u | PaysTogether(s, u, amount) && u != t
      ensures Precedes(t, u)
    {
      BatchMeans(s, amount, u);
    }
    assert IsChosen(s, amount, r, t);
  }

  lemma FirstMeans(s: seq<Invoice>, amount: int, t: seq<nat>)
    requires NamesFirstBatch(s, amount, t)
    ensures forall u :: NamesBatch(s, amount, u) && u != t ==> Precedes(t, u)
  {
    hide LexLess, NamesBatch, Precedes;
    forall u | NamesBatch(s, amount, u) && u != t
      ensures Precedes(t, u)
    {
      BeforeMeans(t, u);
    }
  }

  lemma BeforeMeans(t: seq<nat>, u: seq<nat>)
    ensures ComesBefore(t, u) <==> Precedes(t, u)
  {
    hide LexLess;
    if |t| == |u| {
      LexMeans(t, u);
    }
  }

  /** Two to forty neighbours, oldest first, that add up to the amount, to the cent, the last due at most 60 days
      after the first. */
  predicate RunPays(s: seq<Invoice>, amount: int, i: nat, k: nat) {
    i < k <= |s| && 2 <= k - i <= 40 && s[k - 1].due - s[i].due <= 60 && -1 <= Total(s[i..k]) - amount <= 1
  }

  /** The contiguous search answers with the run that starts first and, from there, ends first; with nothing
      exactly when there is none. */
  lemma RunChosen(s: seq<Invoice>, amount: int)
    ensures var r := RunFinder(s, amount);
      && (r == [] ==> forall i: nat, k: nat :: !RunPays(s, amount, i, k))
      && (r != [] ==> exists i: nat, k: nat ::
            && RunPays(s, amount, i, k) && r == s[i..k]
            && forall i': nat, k': nat :: RunPays(s, amount, i', k') ==> i < i' || (i == i' && k <= k'))
  {
    hide RunFinder, RunPays;
    RunFinderExact(s, amount);
    forall i: nat, k: nat | RunPays(s, amount, i, k)
      ensures k > 0 && IsRun(s, amount, i, k - 1)
    {
      RunMeans(s, amount, i, k);
    }
    if RunFinder(s, amount) != [] {
      var i: nat, j: nat :| IsFirstRun(s, amount, i, j) && RunFinder(s, amount) == s[i..j + 1];
      RunMeans(s, amount, i, j + 1);
    }
  }

  lemma RunMeans(s: seq<Invoice>, amount: int, i: nat, k: nat)
    ensures RunPays(s, amount, i, k) <==> k > 0 && IsRun(s, amount, i, k - 1)
  {
    hide Total;
  }
}
