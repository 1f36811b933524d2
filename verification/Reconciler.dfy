/** The reconciler's two loops, and what a clean verdict means. */
module Reconciler {
  import opened Copybook
  import opened Records
  import opened OutputFiles

  /** What splitting a file gives; `keys` is the insertion order of the details dictionary. */
  datatype Parts = Parts(details: map<Key, Bytes>, keys: seq<Key>, order: seq<Key>, trailers: seq<Bytes>)

  ghost predicate AreParts(p: Parts, recs: seq<Bytes>)
    requires AllRecords(recs)
  {
    && p.details == Latest(Details(recs)) && p.order == Keys(Details(recs)) && p.trailers == Trailers(recs)
    && p.keys == Firsts(p.order) && forall k :: k in p.keys <==> k in p.details
  }

  /** Keys in the order of their first occurrence: how a dictionary iterates. */
  function Firsts(order: seq<Key>): seq<Key> {
    if order == [] then []
    else
      var (front, k) := (order[..|order| - 1], order[|order| - 1]);
      Firsts(front) + if k in front then [] else [k]
  }

  lemma FirstsAppend(order: seq<Key>, k: Key)
    ensures Firsts(order + [k]) == Firsts(order) + if k in order then [] else [k]
  {
    assert (order + [k])[..|order|] == order;
  }

  /** Parts after one more record. */
  function AfterRecord(p: Parts, rec: Bytes): Parts
    requires IsRecord(rec)
  {
    if IsTrailer(rec) then p.(trailers := p.trailers + [rec])
    else if IsDetail(rec) then
      var key := Key10(rec);
      Parts(p.details[key := rec], if key in p.details then p.keys else p.keys + [key], p.order + [key], p.trailers)
    else p
  }

  lemma RecordTaken(p: Parts, recs: seq<Bytes>, rec: Bytes)
    requires AllRecords(recs) && IsRecord(rec) && AreParts(p, recs)
    ensures AreParts(AfterRecord(p, rec), recs + [rec])
  {
    hide Details, Trailers, Keys, Latest, Firsts, IsDetail, IsTrailer, Key10;
    FilterStep(recs, rec);
    OneType(rec);
    KeysAppend(Details(recs), rec);
    KeysOfLatest(Details(recs), Key10(rec));
    FirstsAppend(p.order, Key10(rec));
    assert Firsts(p.order) + [] == Firsts(p.order);
    assert Details(recs) + [] == Details(recs) && Trailers(recs) + [] == Trailers(recs);
  }

  /** Errors reported for one line, given what came before it. */
  function NewErrors(p: Parts, line: Bytes, n: nat, side: Side): seq<Error>
    requires |line| == STEP
  {
    var rec := line[..RECORD_LENGTH];
    (if line[RECORD_LENGTH] == LINE_FEED then [] else [NotTerminated(side, n + 1)])
    + if IsTrailer(rec) then []
      else if IsDetail(rec) then if Key10(rec) in p.details then [DuplicateAccount(side, Key10(rec))] else []
      else [UnknownType(side, n + 1, if rec[REC_TYPE_OFFSET] < 128 then rec[REC_TYPE_OFFSET] else REPLACEMENT)]
  }

  lemma ErrorsTaken(p: Parts, lines: seq<Bytes>, n: nat, side: Side)
    requires n < |lines| && forall k :: 0 <= k < |lines| ==> |lines[k]| == STEP
    requires AreParts(p, Recs(lines[..n]))
    ensures LineErrors(lines[..n + 1], side) == LineErrors(lines[..n], side) + NewErrors(p, lines[n], n, side)
  {
    hide Details, Trailers, Keys, Latest, NoDup, IsDetail, IsTrailer, Key10, Recs;
    assert lines[..n + 1][..n] == lines[..n];
    var (ds, rec) := (Details(Recs(lines[..n])), lines[n][..RECORD_LENGTH]);
    KeysOfLatest(ds, Key10(rec));
  }

  lemma KeysOfLatest(ds: seq<Bytes>, key: Key)
    requires AllRecords(ds)
    ensures key in Latest(ds) <==> key in Keys(ds)
  {
    hide Key10;
    if key in Latest(ds) {
      var k :| 0 <= k < |ds| && ds[k] == Latest(ds)[key];
      assert Keys(ds)[k] == key;
    }
  }

  class ReconResult {
    var recordsCompared: nat
    var recordsMismatched: nat
    var fieldMismatches: nat
    var trailerMismatches: nat
    var missingInCandidate: seq<Key>
    var extraInCandidate: seq<Key>
    var structuralErrors: seq<Error>

    constructor ()
      ensures recordsCompared == recordsMismatched == fieldMismatches == trailerMismatches == 0
      ensures missingInCandidate == [] && extraInCandidate == [] && structuralErrors == []
    {
      recordsCompared, recordsMismatched, fieldMismatches, trailerMismatches := 0, 0, 0, 0;
      missingInCandidate, extraInCandidate, structuralErrors := [], [], [];
    }

    predicate Clean()
      reads this
    {
      recordsMismatched == 0 && trailerMismatches == 0 && missingInCandidate == [] && extraInCandidate == [] && structuralErrors == []
    }
  }

  /** One pass of the splitting loop. */
  method TakeLine(p: Parts, line: Bytes, n: nat, side: Side, res: ReconResult) returns (q: Parts)
    requires |line| == STEP
    modifies res`structuralErrors
    ensures q == AfterRecord(p, line[..RECORD_LENGTH])
    ensures res.structuralErrors == old(res.structuralErrors) + NewErrors(p, line, n, side)
  {
    hide IsDetail, IsTrailer, Key10;
    q := p;
    if line[RECORD_LENGTH] != LINE_FEED {
      res.structuralErrors := res.structuralErrors + [NotTerminated(side, n + 1)];
    }
    var rec := line[..RECORD_LENGTH];
    if IsTrailer(rec) {
      q := q.(trailers := q.trailers + [rec]);
    } else if IsDetail(rec) {
      var key := Key10(rec);
      if key in q.details {
        res.structuralErrors := res.structuralErrors + [DuplicateAccount(side, key)];
      } else {
        q := q.(keys := q.keys + [key]);
      }
      q := q.(details := q.details[key := rec], order := q.order + [key]);
    } else {
      var recType := if rec[REC_TYPE_OFFSET] < 128 then rec[REC_TYPE_OFFSET] else REPLACEMENT;
      res.structuralErrors := res.structuralErrors + [UnknownType(side, n + 1, recType)];
    }
  }

  method SplitRecords(data: Bytes, side: Side, res: ReconResult) returns (p: Parts)
    modifies res`structuralErrors
    ensures AreParts(p, RecordsOf(data))
    ensures res.structuralErrors == old(res.structuralErrors) + ErrorsOf(data, side)
  {
    hide LineErrors, Details, Trailers, Keys, Latest, NoDup, Key10, Recs, AreParts, AfterRecord, NewErrors;
    ghost var before := res.structuralErrors;
    if |data| % STEP != 0 {
      res.structuralErrors := res.structuralErrors + [PartialLine(side, |data|)];
    }
    var lines := Lines(data);
    p := Parts(map[], [], [], []);
    NothingSplit(side);
    for i := 0 to |lines|
      invariant AreParts(p, Recs(lines[..i]))
      invariant res.structuralErrors == before + PartialErrors(data, side) + LineErrors(lines[..i], side)
    {
      RecsStep(lines, i);
      RecordTaken(p, Recs(lines[..i]), lines[i][..RECORD_LENGTH]);
      ErrorsTaken(p, lines, i, side);
      p := TakeLine(p, lines[i], i, side, res);
    }
    assert lines[..|lines|] == lines;
    TrailersOfParts(p, Recs(lines));
    if |p.trailers| != 1 {
      res.structuralErrors := res.structuralErrors + [TrailerCount(side, |p.trailers|)];
    }
  }

  lemma TrailersOfParts(p: Parts, recs: seq<Bytes>)
    requires AllRecords(recs) && AreParts(p, recs)
    ensures p.trailers == Trailers(recs)
  {}

  lemma NothingSplit(side: Side)
    ensures AreParts(Parts(map[], [], [], []), Recs([])) && LineErrors([], side) == []
  {}

  // ---------------------------------------------------------------- comparing

  function Missing(order: seq<Key>, m: map<Key, Bytes>): (missing: seq<Key>)
    ensures missing == [] <==> forall k :: 0 <= k < |order| ==> order[k] in m
  {
    if order == [] then []
    else
      var (front, k) := (order[..|order| - 1], order[|order| - 1]);
      assert order == front + [k];
      Missing(front, m) + if k in m then [] else [k]
  }

  /** Accounts in both files whose records are different. */
  function Mismatched(order: seq<Key>, a: map<Key, Bytes>, b: map<Key, Bytes>): (n: nat)
    ensures n == 0 <==> forall k :: 0 <= k < |order| && order[k] in a && order[k] in b ==> a[order[k]] == b[order[k]]
  {
    if order == [] then 0
    else
      var (front, k) := (order[..|order| - 1], order[|order| - 1]);
      assert order == front + [k];
      Mismatched(front, a, b) + if k in a && k in b && a[k] != b[k] then 1 else 0
  }

  function FieldDifferences(order: seq<Key>, a: map<Key, Bytes>, b: map<Key, Bytes>): nat {
    if order == [] then 0
    else
      var k := order[|order| - 1];
      FieldDifferences(order[..|order| - 1], a, b)
      + if k in a && k in b then Differences(DetailLayout(), a[k], b[k], |DetailLayout().fields|) else 0
  }

  function TrailerDifferences(a: seq<Bytes>, b: seq<Bytes>): nat {
    if |a| == 1 && |b| == 1 then Differences(TrailerLayout(), a[0], b[0], |TrailerLayout().fields|) else 0
  }

  method CompareFields(l: Layout, r: Bytes, s: Bytes) returns (n: nat)
    ensures n == Differences(l, r, s, |l.fields|)
  {
    n := 0;
    for i := 0 to |l.fields|
      invariant n == Differences(l, r, s, i)
    {
      if Slice(l.fields[i], r) != Slice(l.fields[i], s) {
        n := n + 1;
      }
    }
  }

  lemma CompareStep(order: seq<Key>, i: nat, a: map<Key, Bytes>, b: map<Key, Bytes>)
    requires i < |order|
    ensures var k := order[i];
      && Missing(order[..i + 1], b) == Missing(order[..i], b) + (if k in b then [] else [k])
      && Mismatched(order[..i + 1], a, b) == Mismatched(order[..i], a, b) + (if k in a && k in b && a[k] != b[k] then 1 else 0)
      && FieldDifferences(order[..i + 1], a, b) == FieldDifferences(order[..i], a, b)
         + if k in a && k in b then Differences(DetailLayout(), a[k], b[k], |DetailLayout().fields|) else 0
  {
    hide Differences, DetailLayout;
    assert order[..i + 1][..i] == order[..i];
  }

  method AbsentFrom(keys: seq<Key>, m: map<Key, Bytes>) returns (absent: seq<Key>)
    ensures absent == Missing(keys, m)
  {
    absent := [];
    for i := 0 to |keys|
      invariant absent == Missing(keys[..i], m)
    {
      CompareStep(keys, i, m, m);
      if keys[i] !in m {
        absent := absent + [keys[i]];
      }
    }
    assert keys[..|keys|] == keys;
  }

  lemma NothingCompared(a: map<Key, Bytes>, b: map<Key, Bytes>)
    ensures Missing([], b) == [] && Mismatched([], a, b) == 0 && FieldDifferences([], a, b) == 0
  {}

  lemma PartsAreRecords(p: Parts, recs: seq<Bytes>)
    requires AllRecords(recs) && AreParts(p, recs)
    ensures forall k :: 0 <= k < |p.order| ==> p.order[k] in p.details
    ensures forall k :: k in p.details ==> IsRecord(p.details[k])
    ensures AllRecords(p.trailers)
  {
    hide Key10, IsDetail, IsTrailer, IsRecord;
    var ds := Details(recs);
    forall k | 0 <= k < |p.order|
      ensures p.order[k] in p.details
    {
      assert ds[k] in ds;
    }
  }

  /** Comparing fields finds a difference exactly when the records differ. */
  lemma RecordsDiffer(r: Bytes, s: Bytes)
    requires IsRecord(r) && IsRecord(s)
    ensures Differences(DetailLayout(), r, s, |DetailLayout().fields|) == 0 <==> r == s
    ensures Differences(TrailerLayout(), r, s, |TrailerLayout().fields|) == 0 <==> r == s
  {
    hide Differences, DetailLayout, TrailerLayout, IsLayout;
    OutputLayouts();
    FieldsDecide(DetailLayout(), r, s);
    FieldsDecide(TrailerLayout(), r, s);
  }

  // ---------------------------------------------------------------- what a clean verdict means

  lemma {:induction false} CountOnce<T>(s: seq<T>, x: T)
    requires NoDup(s)
    ensures multiset(s)[x] == if x in s then 1 else 0
  {
    if s != [] {
      var (front, last) := (s[..|s| - 1], s[|s| - 1]);
      assert s == front + [last];
      NoDupAppend(front, last);
      CountOnce(front, x);
    }
  }

  lemma SameElements<T(!new)>(s: seq<T>, t: seq<T>)
    requires NoDup(s) && NoDup(t)
    ensures multiset(s) == multiset(t) <==> forall x :: x in s <==> x in t
  {
    if multiset(s) == multiset(t) {
      forall x
        ensures x in s <==> x in t
      {
        assert x in s <==> x in multiset(s);
        assert x in t <==> x in multiset(t);
      }
    }
    if forall x :: x in s <==> x in t {
      forall x
        ensures multiset(s)[x] == multiset(t)[x]
      {
        CountOnce(s, x);
        CountOnce(t, x);
      }
    }
  }

  /** One detail per account and at most one trailer: no record appears twice. */
  lemma {:induction false} RecordsDistinct(recs: seq<Bytes>)
    requires AllRecords(recs) && Typed(recs) && NoDup(Keys(Details(recs))) && |Trailers(recs)| <= 1
    ensures NoDup(recs)
  {
    hide Details, Trailers, Keys, NoDup, IsDetail, IsTrailer, Key10;
    if recs == [] {
      NoDupEmpty<Bytes>();
    } else {
      var (front, r) := (recs[..|recs| - 1], recs[|recs| - 1]);
      assert recs == front + [r];
      FilterStep(front, r);
      TypedAppend(front, r);
      OneType(r);
      KeysAppend(Details(front), r);
      NoDupAppend(Keys(Details(front)), Key10(r));
      assert Details(front) + [] == Details(front) && Trailers(front) + [] == Trailers(front);
      RecordsDistinct(front);
      NoDupAppend(front, r);
      if IsDetail(r) {
        KeyOf(Details(front), r);
      }
    }
  }

  lemma NoDupEmpty<T>()
    ensures NoDup<T>([])
  {}

  lemma KeyOf(ds: seq<Bytes>, r: Bytes)
    requires AllRecords(ds) && IsRecord(r)
    ensures r in ds ==> Key10(r) in Keys(ds)
  {
    hide Key10;
    if r in ds {
      var k :| 0 <= k < |ds| && ds[k] == r;
      assert Keys(ds)[k] == Key10(r);
    }
  }

  lemma {:induction false} LatestExact(ds: seq<Bytes>, r: Bytes)
    requires AllRecords(ds) && IsRecord(r) && NoDup(Keys(ds))
    ensures r in ds <==> Key10(r) in Latest(ds) && Latest(ds)[Key10(r)] == r
  {
    hide Keys, NoDup, Key10;
    if ds != [] {
      var (front, last) := (ds[..|ds| - 1], ds[|ds| - 1]);
      assert ds == front + [last];
      KeysAppend(front, last);
      NoDupAppend(Keys(front), Key10(last));
      LatestExact(front, r);
      KeyOf(front, r);
    }
  }

  lemma TypedMember(recs: seq<Bytes>, r: Bytes)
    requires AllRecords(recs) && Typed(recs)
    ensures r in recs ==> IsRecord(r) && (r in Details(recs) || r in Trailers(recs))
    ensures r in Details(recs) || r in Trailers(recs) ==> r in recs
  {
    hide Details, Trailers, IsDetail, IsTrailer;
  }

  lemma OnlyElement<T>(s: seq<T>, x: T)
    requires |s| == 1
    ensures x in s <==> x == s[0]
  {}

  /** A well-formed file is determined, up to order, by its details dictionary and its trailer. */
  lemma PartsHold(p: Parts, recs: seq<Bytes>, r: Bytes)
    requires AllRecords(recs) && AreParts(p, recs) && Typed(recs) && NoDup(Keys(Details(recs))) && |Trailers(recs)| == 1
    ensures r in recs <==> IsRecord(r) && ((Key10(r) in p.details && p.details[Key10(r)] == r) || r == p.trailers[0])
  {
    hide AreParts, AllRecords, Typed, Keys, Details, Trailers, NoDup, Key10, Latest, IsRecord;
    PartsMeanRecords(p, recs);
    TypedMember(recs, r);
    OnlyElement(Trailers(recs), r);
    if IsRecord(r) {
      LatestExact(Details(recs), r);
    }
  }

  lemma PartsMeanRecords(p: Parts, recs: seq<Bytes>)
    requires AllRecords(recs) && AreParts(p, recs)
    ensures p.details == Latest(Details(recs)) && p.trailers == Trailers(recs) && p.order == Keys(Details(recs))
  {}

  method Reconcile(legacy: Bytes, candidate: Bytes) returns (res: ReconResult)
    ensures fresh(res) && exists a, b ::
      && AreParts(a, RecordsOf(legacy)) && AreParts(b, RecordsOf(candidate))
      && res.missingInCandidate == Missing(a.order, b.details)
      && res.recordsCompared == |a.order| - |Missing(a.order, b.details)|
      && res.recordsMismatched == Mismatched(a.order, a.details, b.details)
      && res.fieldMismatches == FieldDifferences(a.order, a.details, b.details)
      && res.extraInCandidate == Missing(b.keys, a.details)
      && res.trailerMismatches == TrailerDifferences(a.trailers, b.trailers)
    ensures res.structuralErrors == ErrorsOf(legacy, Legacy) + ErrorsOf(candidate, Candidate)
    ensures res.Clean() <==>
      && Structured(legacy) && Structured(candidate)
      && multiset(RecordsOf(legacy)) == multiset(RecordsOf(candidate))
  {
    hide AreParts, RecordsOf, ErrorsOf, Missing, Mismatched, FieldDifferences, Differences, DetailLayout, TrailerLayout, Structured;
    res := new ReconResult();
    var a := SplitRecords(legacy, Legacy, res);
    var b := SplitRecords(candidate, Candidate, res);
    PartsAreRecords(a, RecordsOf(legacy));
    PartsAreRecords(b, RecordsOf(candidate));
    NothingCompared(a.details, b.details);
    for i := 0 to |a.order|
      invariant fresh(res) && res.structuralErrors == ErrorsOf(legacy, Legacy) + ErrorsOf(candidate, Candidate)
      invariant res.missingInCandidate == Missing(a.order[..i], b.details) && res.extraInCandidate == []
      invariant res.recordsCompared + |res.missingInCandidate| == i
      invariant res.recordsMismatched == Mismatched(a.order[..i], a.details, b.details) && res.trailerMismatches == 0
      invariant res.fieldMismatches == FieldDifferences(a.order[..i], a.details, b.details)
    {
      CompareStep(a.order, i, a.details, b.details);
      var key := a.order[i];
      if key !in b.details {
        res.missingInCandidate := res.missingInCandidate + [key];
        continue;
      }
      res.recordsCompared := res.recordsCompared + 1;
      var differing := CompareFields(DetailLayout(), a.details[key], b.details[key]);
      RecordsDiffer(a.details[key], b.details[key]);
      res.fieldMismatches := res.fieldMismatches + differing;
      if differing > 0 {
        res.recordsMismatched := res.recordsMismatched + 1;
      }
    }
    assert a.order[..|a.order|] == a.order;
    var extra := AbsentFrom(b.keys, a.details);
    res.extraInCandidate := extra;
    if |a.trailers| == 1 && |b.trailers| == 1 {
      var differing := CompareFields(TrailerLayout(), a.trailers[0], b.trailers[0]);
      res.trailerMismatches := res.trailerMismatches + differing;
    }
    NoErrors(legacy, Legacy);
    NoErrors(candidate, Candidate);
    if Structured(legacy) && Structured(candidate) {
      CleanIsSame(a, b, legacy, candidate);
    }
  }

  /** Two files hold the same records exactly when their dictionaries and trailers agree. */
  lemma SameParts(a: Parts, b: Parts, legacy: Bytes, candidate: Bytes)
    requires AreParts(a, RecordsOf(legacy)) && AreParts(b, RecordsOf(candidate))
    requires Structured(legacy) && Structured(candidate)
    ensures |a.trailers| == 1 == |b.trailers|
    ensures multiset(RecordsOf(legacy)) == multiset(RecordsOf(candidate)) <==> a.details == b.details && a.trailers[0] == b.trailers[0]
  {
    hide Keys, NoDup, Key10, Details, Trailers, Latest, RecordsOf, Typed, Terminated;
    var (rs, ss) := (RecordsOf(legacy), RecordsOf(candidate));
    TrailersOfParts(a, rs);
    TrailersOfParts(b, ss);
    RecordsDistinct(rs);
    RecordsDistinct(ss);
    SameElements(rs, ss);
    if forall r :: r in rs <==> r in ss {
      DetailsCarry(a, b, rs, ss);
      DetailsCarry(b, a, ss, rs);
    }
    if a.details == b.details && a.trailers[0] == b.trailers[0] {
      forall r
        ensures r in rs <==> r in ss
      {
        PartsHold(a, rs, r);
        PartsHold(b, ss, r);
      }
    }
  }

  lemma DetailsCarry(a: Parts, b: Parts, rs: seq<Bytes>, ss: seq<Bytes>)
    requires AllRecords(rs) && AllRecords(ss) && AreParts(a, rs) && AreParts(b, ss)
    requires NoDup(Keys(Details(ss))) && |Trailers(rs)| == 1 == |Trailers(ss)|
    requires forall r :: r in rs ==> r in ss
    ensures forall k :: k in a.details ==> k in b.details && b.details[k] == a.details[k]
    ensures a.trailers[0] == b.trailers[0]
  {
    hide AreParts, AllRecords, Keys, Details, Trailers, NoDup, Key10, Latest, IsRecord, IsDetail, IsTrailer;
    PartsMeanRecords(a, rs);
    PartsMeanRecords(b, ss);
    forall k | k in a.details
      ensures k in b.details && b.details[k] == a.details[k]
    {
      var r := Latest(Details(rs))[k];
      LatestExact(Details(ss), r);
    }
    OnlyElement(Trailers(rs), Trailers(rs)[0]);
    OnlyElement(Trailers(ss), Trailers(rs)[0]);
  }

  /** Nothing missing, nothing extra and nothing mismatched means that the dictionaries are equal. */
  lemma NothingFound(a: Parts, b: Parts, rs: seq<Bytes>, ss: seq<Bytes>)
    requires AllRecords(rs) && AllRecords(ss) && AreParts(a, rs) && AreParts(b, ss)
    ensures a.details == b.details <==>
      && Missing(a.order, b.details) == [] && Missing(b.keys, a.details) == []
      && Mismatched(a.order, a.details, b.details) == 0
  {
    hide NoDup, Key10, IsDetail, IsTrailer, Details, Latest, Trailers;
    PartsAreRecords(a, rs);
    OrderCovers(a, rs);
    if && Missing(a.order, b.details) == [] && Missing(b.keys, a.details) == []
       && Mismatched(a.order, a.details, b.details) == 0 {
      forall k | k in a.details
        ensures k in b.details && a.details[k] == b.details[k]
      {
        var i :| 0 <= i < |a.order| && a.order[i] == k;
      }
      forall k | k in b.details
        ensures k in a.details
      {
        var i :| 0 <= i < |b.keys| && b.keys[i] == k;
      }
    }
  }

  lemma OrderCovers(p: Parts, recs: seq<Bytes>)
    requires AllRecords(recs) && AreParts(p, recs)
    ensures forall k :: k in p.details ==> k in p.order
  {
    hide Keys, Key10, Details, Latest;
    forall k | k in p.details
      ensures k in p.order
    {
      KeysOfLatest(Details(recs), k);
    }
  }

  /** For well-formed files the reconciler's checks all pass exactly when the records are the same. */
  lemma CleanIsSame(a: Parts, b: Parts, legacy: Bytes, candidate: Bytes)
    requires AreParts(a, RecordsOf(legacy)) && AreParts(b, RecordsOf(candidate))
    requires Structured(legacy) && Structured(candidate)
    ensures multiset(RecordsOf(legacy)) == multiset(RecordsOf(candidate)) <==>
      && Missing(a.order, b.details) == [] && Missing(b.keys, a.details) == []
      && Mismatched(a.order, a.details, b.details) == 0 && TrailerDifferences(a.trailers, b.trailers) == 0
  {
    hide AreParts, Structured, RecordsOf, Missing, Mismatched, Differences, DetailLayout, TrailerLayout;
    SameParts(a, b, legacy, candidate);
    NothingFound(a, b, RecordsOf(legacy), RecordsOf(candidate));
    PartsAreRecords(a, RecordsOf(legacy));
    PartsAreRecords(b, RecordsOf(candidate));
    RecordsDiffer(a.trailers[0], b.trailers[0]);
  }
}
