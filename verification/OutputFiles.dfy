/** LNOUT files as the shadow-run reconciler sees them: records, fields, structural errors. */
module OutputFiles {
  import opened Copybook
  import opened Records

  const RECORD_LENGTH: nat := 80
  const STEP: nat := 81
  const LINE_FEED := 10
  const REC_TYPE_OFFSET: nat := 70
  const DETAIL_TYPE := 68
  const TRAILER_TYPE := 84
  const REPLACEMENT := 65533

  function N(digits: nat, scale: nat): Pic {
    Pic(Num, false, digits, scale, Display)
  }

  function S(digits: nat, scale: nat): Pic {
    Pic(Num, true, digits, scale, Display)
  }

  function X(length: nat): Pic {
    Pic(Alnum, false, length, 0, Display)
  }

  function DetailLayout(): Layout {
    Layout([Field("LO-ACCT-NO", N(10, 0), 0), Field("LO-PRODUCT-CD", X(1), 10), Field("LO-ASOF-DATE", N(8, 0), 11),
            Field("LO-BALANCE", S(13, 2), 19), Field("LO-ACCRUED-INT", S(11, 2), 32), Field("LO-LATE-FEE", N(9, 2), 43),
            Field("LO-DAYS-LATE", N(3, 0), 52), Field("LO-STATUS", X(1), 55), Field("LO-RATE-TIER", N(1, 0), 56),
            Field("LO-DAILY-RATE", N(10, 9), 57), Field("LO-ACCR-DAYS", N(3, 0), 67), Field("LO-REC-TYPE", X(1), 70),
            Field("FILLER", X(9), 71)], 80, [LINE_FEED])
  }

  function TrailerLayout(): Layout {
    Layout([Field("LT-REC-COUNT", N(7, 0), 0), Field("LT-HASH-TOTAL", N(11, 0), 7), Field("LT-TOT-ACCRUED", S(13, 2), 18),
            Field("LT-TOT-FEES", N(13, 2), 31), Field("LT-TOT-BALANCE", S(15, 2), 44), Field("FILLER-1", X(11), 59),
            Field("LT-REC-TYPE", X(1), 70), Field("FILLER-2", X(9), 71)], 80, [LINE_FEED])
  }

  /** Both layouts fill the same record, with the record type at the same place. */
  lemma OutputLayouts()
    ensures IsLayout(DetailLayout()) && DetailLayout().recordLength == RECORD_LENGTH && |DetailLayout().fields| == 13
    ensures IsLayout(TrailerLayout()) && TrailerLayout().recordLength == RECORD_LENGTH && |TrailerLayout().fields| == 8
    ensures DetailLayout().fields[11].offset == REC_TYPE_OFFSET == TrailerLayout().fields[6].offset
    ensures DetailLayout().terminator == TrailerLayout().terminator == [LINE_FEED]
  {
    hide IsPic;
    DetailLaid();
    TrailerLaid();
  }

  lemma DetailLaid()
    ensures IsLayout(DetailLayout())
  {
    var fields := DetailLayout().fields;
    forall k: nat | k < |fields|
      ensures Follows(fields, k) && IsPic(fields[k].pic)
    {}
  }

  lemma TrailerLaid()
    ensures IsLayout(TrailerLayout())
  {
    var fields := TrailerLayout().fields;
    forall k: nat | k < |fields|
      ensures Follows(fields, k) && IsPic(fields[k].pic)
    {}
  }

  // ---------------------------------------------------------------- comparing field by field

  predicate Differs(f: Field, r: Bytes, s: Bytes) {
    Slice(f, r) != Slice(f, s)
  }

  /** Number of the first `n` fields in which two records differ. */
  function Differences(l: Layout, r: Bytes, s: Bytes, n: nat): nat
    requires n <= |l.fields|
  {
    if n == 0 then 0 else Differences(l, r, s, n - 1) + if Differs(l.fields[n - 1], r, s) then 1 else 0
  }

  lemma {:induction false} NoDifferences(l: Layout, r: Bytes, s: Bytes, n: nat)
    requires n <= |l.fields|
    ensures Differences(l, r, s, n) == 0 <==> forall k: nat :: k < n ==> !Differs(l.fields[k], r, s)
  {
    hide Differs;
    if n > 0 {
      NoDifferences(l, r, s, n - 1);
    }
  }

  /** Two records agree in every field exactly when they are the same bytes. */
  lemma FieldsDecide(l: Layout, r: Bytes, s: Bytes)
    requires IsLayout(l) && |r| == |s| == l.recordLength
    ensures Differences(l, r, s, |l.fields|) == 0 <==> r == s
  {
    hide IsLayout, Differences, Differs;
    NoDifferences(l, r, s, |l.fields|);
    if forall k: nat :: k < |l.fields| ==> !Differs(l.fields[k], r, s) {
      forall i: nat | i < |r|
        ensures r[i] == s[i]
      {
        FieldsTile(l, i);
        var k: nat :| k < |l.fields| && l.fields[k].offset <= i < End(l.fields[k]);
        ByteOfField(l, r, s, k, i);
      }
    } else {
      var k: nat :| k < |l.fields| && Differs(l.fields[k], r, s);
      DiffersMeans(l.fields[k], r, s);
    }
  }

  lemma DiffersMeans(f: Field, r: Bytes, s: Bytes)
    ensures Differs(f, r, s) ==> r != s
  {}

  lemma ByteOfField(l: Layout, r: Bytes, s: Bytes, k: nat, i: nat)
    requires IsLayout(l) && |r| == |s| == l.recordLength && k < |l.fields|
    requires l.fields[k].offset <= i < End(l.fields[k]) && i < |r| && !Differs(l.fields[k], r, s)
    ensures r[i] == s[i]
  {
    var f := l.fields[k];
    assert Slice(f, r)[i - f.offset] == r[i] && Slice(f, s)[i - f.offset] == s[i];
  }

  // ---------------------------------------------------------------- what a file holds

  type Key = seq<int>

  function Key10(rec: Bytes): Key
    requires |rec| == RECORD_LENGTH
  {
    seq(10, k requires 0 <= k < 10 => if rec[k] < 128 then rec[k] else REPLACEMENT)
  }

  predicate IsRecord(rec: Bytes) {
    |rec| == RECORD_LENGTH
  }

  predicate IsDetail(rec: Bytes)
    requires IsRecord(rec)
  {
    rec[REC_TYPE_OFFSET] == DETAIL_TYPE
  }

  predicate IsTrailer(rec: Bytes)
    requires IsRecord(rec)
  {
    rec[REC_TYPE_OFFSET] == TRAILER_TYPE
  }

  /** Whole lines of the file; a partial last line is cut off. */
  function Lines(data: Bytes): (lines: seq<Bytes>)
    ensures forall k :: 0 <= k < |lines| ==> |lines[k]| == STEP
  {
    seq(|data| / STEP, k requires 0 <= k < |data| / STEP => data[STEP * k..STEP * k + STEP])
  }

  function Recs(lines: seq<Bytes>): (recs: seq<Bytes>)
    requires forall k :: 0 <= k < |lines| ==> |lines[k]| == STEP
    ensures |recs| == |lines| && forall k :: 0 <= k < |recs| ==> IsRecord(recs[k])
  {
    seq(|lines|, k requires 0 <= k < |lines| => lines[k][..RECORD_LENGTH])
  }

  function RecordsOf(data: Bytes): (recs: seq<Bytes>)
    ensures forall k :: 0 <= k < |recs| ==> IsRecord(recs[k])
  {
    Recs(Lines(data))
  }

  predicate AllRecords(recs: seq<Bytes>) {
    forall k :: 0 <= k < |recs| ==> IsRecord(recs[k])
  }

  function Details(recs: seq<Bytes>): (ds: seq<Bytes>)
    requires AllRecords(recs)
    ensures AllRecords(ds)
    ensures forall r :: r in ds <==> r in recs && IsDetail(r)
  {
    if recs == [] then []
    else
      var (front, r) := (recs[..|recs| - 1], recs[|recs| - 1]);
      assert recs == front + [r];
      Details(front) + if IsDetail(r) then [r] else []
  }

  function Trailers(recs: seq<Bytes>): (ts: seq<Bytes>)
    requires AllRecords(recs)
    ensures AllRecords(ts)
    ensures forall r :: r in ts <==> r in recs && IsTrailer(r)
  {
    if recs == [] then []
    else
      var (front, r) := (recs[..|recs| - 1], recs[|recs| - 1]);
      assert recs == front + [r];
      Trailers(front) + if IsTrailer(r) then [r] else []
  }

  function Keys(ds: seq<Bytes>): seq<Key>
    requires AllRecords(ds)
  {
    seq(|ds|, k requires 0 <= k < |ds| => Key10(ds[k]))
  }

  /** The last detail record of each account. */
  function Latest(ds: seq<Bytes>): (m: map<Key, Bytes>)
    requires AllRecords(ds)
    ensures forall k :: k in m ==> m[k] in ds && IsRecord(m[k]) && Key10(m[k]) == k
    ensures forall r :: r in ds ==> Key10(r) in m
  {
    if ds == [] then map[]
    else
      var (front, r) := (ds[..|ds| - 1], ds[|ds| - 1]);
      assert ds == front + [r];
      Latest(front)[Key10(r) := r]
  }

  predicate NoDup<T(==)>(s: seq<T>) {
    forall i, j :: 0 <= i < j < |s| ==> s[i] != s[j]
  }

  lemma NoDupAppend<T>(s: seq<T>, x: T)
    ensures NoDup(s + [x]) <==> NoDup(s) && x !in s
  {
    if NoDup(s + [x]) {
      forall i | 0 <= i < |s|
        ensures s[i] != x
      {
        assert (s + [x])[i] != (s + [x])[|s|];
      }
      forall i, j | 0 <= i < j < |s|
        ensures s[i] != s[j]
      {
        assert (s + [x])[i] != (s + [x])[j];
      }
    }
  }

  // ---------------------------------------------------------------- structural errors

  datatype Side = Legacy | Candidate

  datatype Error =
    | PartialLine(side: Side, length: nat)
    | NotTerminated(side: Side, number: nat)
    | DuplicateAccount(side: Side, key: Key)
    | UnknownType(side: Side, number: nat, recType: int)
    | TrailerCount(side: Side, count: nat)

  function LineErrors(lines: seq<Bytes>, side: Side): seq<Error>
    requires forall k :: 0 <= k < |lines| ==> |lines[k]| == STEP
  {
    if lines == [] then []
    else
      var n := |lines| - 1;
      var (line, rec) := (lines[n], lines[n][..RECORD_LENGTH]);
      LineErrors(lines[..n], side)
      + (if line[RECORD_LENGTH] == LINE_FEED then [] else [NotTerminated(side, n + 1)])
      + if IsTrailer(rec) then []
        else if IsDetail(rec) then
          if Key10(rec) in Keys(Details(Recs(lines[..n]))) then [DuplicateAccount(side, Key10(rec))] else []
        else [UnknownType(side, n + 1, if rec[REC_TYPE_OFFSET] < 128 then rec[REC_TYPE_OFFSET] else REPLACEMENT)]
  }

  function PartialErrors(data: Bytes, side: Side): seq<Error> {
    if |data| % STEP == 0 then [] else [PartialLine(side, |data|)]
  }

  function TrailerErrors(trailers: seq<Bytes>, side: Side): seq<Error> {
    if |trailers| == 1 then [] else [TrailerCount(side, |trailers|)]
  }

  function ErrorsOf(data: Bytes, side: Side): seq<Error> {
    PartialErrors(data, side) + LineErrors(Lines(data), side) + TrailerErrors(Trailers(RecordsOf(data)), side)
  }

  predicate Terminated(lines: seq<Bytes>)
    requires forall k :: 0 <= k < |lines| ==> |lines[k]| == STEP
  {
    forall k :: 0 <= k < |lines| ==> lines[k][RECORD_LENGTH] == LINE_FEED
  }

  predicate Typed(recs: seq<Bytes>)
    requires AllRecords(recs)
  {
    forall k :: 0 <= k < |recs| ==> IsDetail(recs[k]) || IsTrailer(recs[k])
  }

  /** A well-formed output file: whole, terminated lines, every one a detail or a trailer, one detail
      record per account, one trailer. */
  predicate Structured(data: Bytes) {
    && |data| % STEP == 0 && Terminated(Lines(data)) && Typed(RecordsOf(data))
    && NoDup(Keys(Details(RecordsOf(data)))) && |Trailers(RecordsOf(data))| == 1
  }

  lemma RecsStep(lines: seq<Bytes>, n: nat)
    requires n < |lines| && forall k :: 0 <= k < |lines| ==> |lines[k]| == STEP
    ensures Recs(lines[..n + 1]) == Recs(lines[..n]) + [lines[n][..RECORD_LENGTH]]
    ensures var rec := lines[n][..RECORD_LENGTH];
      && Details(Recs(lines[..n + 1])) == Details(Recs(lines[..n])) + (if IsDetail(rec) then [rec] else [])
      && Trailers(Recs(lines[..n + 1])) == Trailers(Recs(lines[..n])) + (if IsTrailer(rec) then [rec] else [])
  {
    var rec := lines[n][..RECORD_LENGTH];
    assert Recs(lines[..n + 1]) == Recs(lines[..n]) + [rec];
    FilterStep(Recs(lines[..n]), rec);
  }

  lemma FilterStep(recs: seq<Bytes>, rec: Bytes)
    requires AllRecords(recs) && IsRecord(rec)
    ensures Details(recs + [rec]) == Details(recs) + if IsDetail(rec) then [rec] else []
    ensures Trailers(recs + [rec]) == Trailers(recs) + if IsTrailer(rec) then [rec] else []
  {
    hide IsDetail, IsTrailer, IsRecord;
    assert (recs + [rec])[..|recs|] == recs;
  }

  lemma KeysAppend(ds: seq<Bytes>, r: Bytes)
    requires AllRecords(ds) && IsRecord(r)
    ensures Keys(ds + [r]) == Keys(ds) + [Key10(r)]
    ensures Latest(ds + [r]) == Latest(ds)[Key10(r) := r]
  {
    hide Key10, IsRecord;
    assert (ds + [r])[..|ds|] == ds;
  }

  lemma LastLine(lines: seq<Bytes>, n: nat, side: Side)
    requires |lines| == n + 1 && forall k :: 0 <= k < |lines| ==> |lines[k]| == STEP
    ensures var (front, rec) := (lines[..n], lines[n][..RECORD_LENGTH]);
      LineErrors(lines, side) == [] <==>
        && LineErrors(front, side) == [] && lines[n][RECORD_LENGTH] == LINE_FEED && (IsDetail(rec) || IsTrailer(rec))
        && (!IsTrailer(rec) && IsDetail(rec) ==> Key10(rec) !in Keys(Details(Recs(front))))
  {
    hide Key10, Keys, Details, Recs, IsDetail, IsTrailer;
  }

  lemma LastShape(lines: seq<Bytes>, n: nat)
    requires |lines| == n + 1 && forall k :: 0 <= k < |lines| ==> |lines[k]| == STEP
    ensures var (front, rec) := (lines[..n], lines[n][..RECORD_LENGTH]);
      && (Terminated(lines) <==> Terminated(front) && lines[n][RECORD_LENGTH] == LINE_FEED)
      && (Typed(Recs(lines)) <==> Typed(Recs(front)) && (IsDetail(rec) || IsTrailer(rec)))
  {
    hide Recs, Typed, IsDetail, IsTrailer;
    var front, rec := lines[..n], lines[n][..RECORD_LENGTH];
    RecsAppend(lines, n);
    TypedAppend(Recs(front), rec);
  }

  lemma OneType(rec: Bytes)
    requires IsRecord(rec)
    ensures !(IsDetail(rec) && IsTrailer(rec))
  {}

  lemma RecsAppend(lines: seq<Bytes>, n: nat)
    requires |lines| == n + 1 && forall k :: 0 <= k < |lines| ==> |lines[k]| == STEP
    ensures Recs(lines) == Recs(lines[..n]) + [lines[n][..RECORD_LENGTH]]
  {}

  lemma TypedAppend(recs: seq<Bytes>, rec: Bytes)
    requires AllRecords(recs) && IsRecord(rec)
    ensures Typed(recs + [rec]) <==> Typed(recs) && (IsDetail(rec) || IsTrailer(rec))
  {
    hide IsDetail, IsTrailer;
    var all := recs + [rec];
    if Typed(all) {
      assert all[|recs|] == rec;
      forall k | 0 <= k < |recs|
        ensures IsDetail(recs[k]) || IsTrailer(recs[k])
      {
        assert all[k] == recs[k];
      }
    }
  }

  lemma NoLines(side: Side)
    ensures LineErrors([], side) == [] && Terminated([]) && Typed(Recs([])) && NoDup(Keys(Details(Recs([]))))
  {}

  lemma {:induction false} NoLineErrors(lines: seq<Bytes>, side: Side)
    requires forall k :: 0 <= k < |lines| ==> |lines[k]| == STEP
    ensures LineErrors(lines, side) == [] <==> Terminated(lines) && Typed(Recs(lines)) && NoDup(Keys(Details(Recs(lines))))
  {
    hide Terminated, Typed, NoDup, Keys, Details, LineErrors, Recs, IsDetail, IsTrailer, Key10;
    if lines == [] {
      NoLines(side);
    } else {
      var n := |lines| - 1;
      var front, rec := lines[..n], lines[n][..RECORD_LENGTH];
      NoLineErrors(front, side);
      assert lines[..n + 1] == lines;
      RecsStep(lines, n);
      LastLine(lines, n, side);
      LastShape(lines, n);
      OneType(rec);
      if IsDetail(rec) {
        KeysAppend(Details(Recs(front)), rec);
        NoDupAppend(Keys(Details(Recs(front))), Key10(rec));
      } else {
        assert Details(Recs(front)) + [] == Details(Recs(front));
      }
    }
  }

  /** Both files are well formed exactly when splitting them reports nothing. */
  lemma NoErrors(data: Bytes, side: Side)
    ensures ErrorsOf(data, side) == [] <==> Structured(data)
  {
    hide LineErrors, Terminated, Typed, NoDup, Details, Trailers, Keys, Recs;
    NoLineErrors(Lines(data), side);
  }
}
