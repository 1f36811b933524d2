/** The index-driven reference matcher refines the full-ledger engine, over whole statements. */
module Agreement {
  import opened Common
  import opened ReconModel
  import opened MatchingRules
  import opened Runs
  import opened BatchSearch
  import Ledger
  import Engine
  import Oracle

  /** The invoice list and the invoice table hold the same rows. */
  ghost predicate SameLedger(invoices: seq<Invoice>, rows: map<int, Invoice>) {
    && DistinctIds(invoices) && KeyedById(rows)
    && (forall i :: i in invoices ==> i.id in rows && rows[i.id] == i)
    && (forall id :: id in rows ==> rows[id] in invoices)
  }

  lemma SameStart(w: World, invoices: seq<Invoice>, rows: map<int, Invoice>)
    requires SameLedger(invoices, rows)
    ensures Oracle.OpenSet(invoices) == Available(rows, {})
    ensures Oracle.PaidNorms(w, invoices) == Gone(w, rows, {})
  {
    hide Norm;
    forall r | r in Oracle.PaidNorms(w, invoices)
      ensures r in Gone(w, rows, {})
    {
      var i :| i in invoices && !i.open && r == Norm(w, i);
      assert i.id in rows && rows[i.id] == i;
    }
  }

  /** Any run of the engine and any run of the reference matcher over the same ledger, customers,
      statement and B3 finder decide every line alike and consume the same invoices. */
  lemma MatchersAgree(w: World, invoices: seq<Invoice>, rows: map<int, Invoice>, lines: seq<Line>,
                      engine: seq<Outcome>, rows': map<int, Invoice>, oracle: seq<Outcome>)
    requires UniqueIbans(w) && SameLedger(invoices, rows)
    requires RunsTo(w, rows, lines, engine, rows')
    requires DecidesRun(w, Oracle.OpenSet(invoices), Oracle.PaidNorms(w, invoices), lines, oracle)
    ensures engine == oracle && TakenIds(engine) == TakenIds(oracle)
  {
    hide DecidesRun, UniqueIbans, SameLedger;
    SameStart(w, invoices, rows);
    RunUnique(w, Available(rows, {}), Gone(w, rows, {}), lines, engine, oracle);
  }

  /** Both matchers side by side. */
  method RunBoth(w: World, repo: Ledger.Repository, invoices: seq<Invoice>, lines: seq<Line>)
      returns (engine: seq<Outcome>, oracle: seq<Outcome>)
    requires SameLedger(invoices, repo.invoices) && Oracle.UniqueReferences(w, invoices)
    requires UniqueIbans(w) && SoundFinder(w.finder)
    modifies repo
    ensures engine == oracle && |engine| == |lines|
    ensures repo.invoices == MarkPaid(old(repo.invoices), TakenIds(oracle))
  {
    hide UniqueIbans, SoundFinder, Oracle.UniqueReferences, DecidesRun;
    var consumed, used;
    oracle, used := Oracle.Run(w, invoices, lines);
    ghost var rows := repo.invoices;
    engine, consumed := Engine.RunPipeline(w, repo, lines);
    assert consumed.ids == TakenIds(engine);
    MatchersAgree(w, invoices, rows, lines, engine, repo.invoices, oracle);
    assert consumed.ids == used;
  }
}
