/** Output files byte by byte: what the lines of a file are, when it is well formed, and what the
    reconciler counts. */
module ReconFigures {
  import opened Copybook
  import opened Records
  import opened OutputFiles
  import opened Reconciler
  import opened Sums

  /** A file is cut into lines of 81 bytes; the record is the first 80 of them. */
  lemma LineExact(data: Bytes, k: nat)
    requires k < |data| / 81
    ensures |Lines(data)| == |data| / 81 == |RecordsOf(data)|
    ensures 81 * k + 81 <= |data| && Lines(data)[k] == data[81 * k..81 * k + 81] && RecordsOf(data)[k] == data[81 * k..81 * k + 80]
  {
    var line := data[81 * k..81 * k + 81];
    assert Lines(data)[k] == line;
    assert line[..80] == data[81 * k..81 * k + 80];
  }

  /** The record type stands at byte 70: D for a detail, T for a trailer. */
  lemma KindExact(rec: Bytes)
    requires |rec| == 80
    ensures IsDetail(rec) <==> rec[70] == 'D' as int
    ensures IsTrailer(rec) <==> rec[70] == 'T' as int
  {}

  /** The account key: ten characters, those that are not ASCII replaced. */
  function KeyCharacter(b: int): int {
    if b < 128 then b else 0xFFFD
  }

  lemma KeyExact(r: Bytes, s: Bytes)
    requires |r| == 80 == |s|
    ensures Key10(r) == Key10(s) <==> forall i :: 0 <= i < 10 ==> KeyCharacter(r[i]) == KeyCharacter(s[i])
    ensures |Key10(r)| == 10 && forall i :: 0 <= i < 10 ==> Key10(r)[i] == KeyCharacter(r[i])
  {
    assert forall i :: 0 <= i < 10 ==> Key10(r)[i] == KeyCharacter(r[i]) && Key10(s)[i] == KeyCharacter(s[i]);
  }

  /** The fields of both layouts: where they start, how long they are, which carry a sign, and their decimals. */
  lemma LayoutFigures(k: nat)
    ensures k < 13 ==>
      var f := DetailLayout().fields[k];
      && f.offset == [0, 10, 11, 19, 32, 43, 52, 55, 56, 57, 67, 70, 71][k]
      && f.pic.digits == [10, 1, 8, 13, 11, 9, 3, 1, 1, 10, 3, 1, 9][k] && f.pic.usage == Display
      && (f.pic.signed <==> k in {3, 4}) && (f.pic.kind == Alnum <==> k in {1, 7, 11, 12})
      && f.pic.scale == if k in {3, 4, 5} then 2 else if k == 9 then 9 else 0
    ensures k < 8 ==>
      var f := TrailerLayout().fields[k];
      && f.offset == [0, 7, 18, 31, 44, 59, 70, 71][k]
      && f.pic.digits == [7, 11, 13, 13, 15, 11, 1, 9][k] && f.pic.usage == Display
      && (f.pic.signed <==> k in {2, 4}) && (f.pic.kind == Alnum <==> k in {5, 6, 7})
      && f.pic.scale == if k in {2, 3, 4} then 2 else 0
  {}

  // ---------------------------------------------------------------- well-formed files

  /** How many records are trailers. */
  function TrailersIn(recs: seq<Bytes>): int
    requires AllRecords(recs)
  {
    SumTo(|recs|, k => if 0 <= k < |recs| && recs[k][70] == 'T' as int then 1 else 0)
  }

  lemma TrailersStep(recs: seq<Bytes>, rec: Bytes)
    requires AllRecords(recs) && IsRecord(rec)
    ensures TrailersIn(recs + [rec]) == TrailersIn(recs) + if rec[70] == 'T' as int then 1 else 0
  {
    var all := recs + [rec];
    SumToSame(|recs|, k => if 0 <= k < |all| && all[k][70] == 'T' as int then 1 else 0,
              k => if 0 <= k < |recs| && recs[k][70] == 'T' as int then 1 else 0);
  }

  lemma {:induction false} TrailersCounted(recs: seq<Bytes>)
    requires AllRecords(recs)
    ensures |Trailers(recs)| == TrailersIn(recs)
  {
    if recs == [] {
      assert TrailersIn(recs) == 0;
    } else {
      hide IsTrailer, TrailersIn, Trailers;
      var (front, rec) := (recs[..|recs| - 1], recs[|recs| - 1]);
      assert recs == front + [rec];
      TrailersCounted(front);
      KindExact(rec);
      FilterStep(front, rec);
      TrailersStep(front, rec);
    }
  }

  lemma {:induction false} DistinctKeys(recs: seq<Bytes>)
    requires AllRecords(recs)
    ensures NoDup(Keys(Details(recs))) <==> forall j, k :: 0 <= j < k < |recs| && IsDetail(recs[j]) && IsDetail(recs[k]) ==> Key10(recs[j]) != Key10(recs[k])
  {
    hide IsDetail, Key10, NoDup, Keys, Details;
    if recs == [] {
      NoneDistinct();
    } else {
      var (front, r) := (recs[..|recs| - 1], recs[|recs| - 1]);
      assert recs == front + [r];
      DistinctKeys(front);
      FilterStep(front, r);
      if IsDetail(r) {
        KeysAppend(Details(front), r);
        NoDupAppend(Keys(Details(front)), Key10(r));
        KeyListed(front, r);
      } else {
        assert Details(front) + [] == Details(front);
      }
    }
  }

  lemma NoneDistinct()
    ensures NoDup(Keys(Details([])))
  {}

  lemma KeyListed(recs: seq<Bytes>, r: Bytes)
    requires AllRecords(recs) && IsRecord(r)
    ensures Key10(r) in Keys(Details(recs)) <==> exists j :: 0 <= j < |recs| && IsDetail(recs[j]) && Key10(recs[j]) == Key10(r)
  {
    hide Key10, IsDetail;
    var ds := Details(recs);
    if Key10(r) in Keys(ds) {
      var i :| 0 <= i < |ds| && Keys(ds)[i] == Key10(r);
      assert ds[i] in ds;
      var j :| 0 <= j < |recs| && recs[j] == ds[i];
    }
    if j :| 0 <= j < |recs| && IsDetail(recs[j]) && Key10(recs[j]) == Key10(r) {
      assert recs[j] in ds;
      var i :| 0 <= i < |ds| && ds[i] == recs[j];
      assert Keys(ds)[i] == Key10(r);
    }
  }

  /** A file is well formed exactly when it is a whole number of lines, each ends in a line feed and is a
      detail or a trailer, no two details have the same key, and there is one trailer. */
  lemma StructuredExact(data: Bytes)
    ensures Structured(data) <==>
      && |data| % 81 == 0
      && (forall k :: 0 <= k < |data| / 81 ==> Lines(data)[k][80] == '\n' as int)
      && (forall k :: 0 <= k < |data| / 81 ==> RecordsOf(data)[k][70] == 'D' as int || RecordsOf(data)[k][70] == 'T' as int)
      && (forall j, k :: 0 <= j < k < |data| / 81 && RecordsOf(data)[j][70] == 'D' as int && RecordsOf(data)[k][70] == 'D' as int ==>
            Key10(RecordsOf(data)[j]) != Key10(RecordsOf(data)[k]))
      && TrailersIn(RecordsOf(data)) == 1
  {
    hide Key10, NoDup, Keys, Details, Trailers, TrailersIn;
    var recs := RecordsOf(data);
    TrailersCounted(recs);
    DistinctKeys(recs);
    forall k | 0 <= k < |recs|
      ensures IsDetail(recs[k]) <==> recs[k][70] == 'D' as int
      ensures IsTrailer(recs[k]) <==> recs[k][70] == 'T' as int
    {
      KindExact(recs[k]);
    }
  }

  // ---------------------------------------------------------------- what is reported

  /** Every error names a line that has it, and every such line is named. */
  lemma {:induction false} LineErrorsExact(lines: seq<Bytes>, side: Side, other: Side, number: nat, recType: int)
    requires forall k :: 0 <= k < |lines| ==> |lines[k]| == 81
    ensures NotTerminated(other, number) in LineErrors(lines, side) <==>
      other == side && 1 <= number <= |lines| && lines[number - 1][80] != '\n' as int
    ensures UnknownType(other, number, recType) in LineErrors(lines, side) <==>
      other == side && 1 <= number <= |lines| && lines[number - 1][70] != 'D' as int && lines[number - 1][70] != 'T' as int
      && recType == KeyCharacter(lines[number - 1][70])
  {
    hide Key10, Keys, Details, Recs;
    if lines != [] {
      var n := |lines| - 1;
      LineErrorsExact(lines[..n], side, other, number, recType);
      KindExact(lines[n][..80]);
    }
  }

  predicate Twice(recs: seq<Bytes>, key: Key)
    requires AllRecords(recs)
  {
    exists j, k :: 0 <= j < k < |recs| && DetailOf(recs[j], key) && DetailOf(recs[k], key)
  }

  predicate DetailOf(rec: Bytes, key: Key)
    requires IsRecord(rec)
  {
    rec[70] == 'D' as int && Key10(rec) == key
  }

  lemma TwiceWithOneMore(recs: seq<Bytes>, rec: Bytes, key: Key)
    requires AllRecords(recs) && IsRecord(rec)
    ensures Twice(recs + [rec], key) <==> Twice(recs, key) || (DetailOf(rec, key) && key in Keys(Details(recs)))
  {
    hide Key10, Keys, Details;
    var all := recs + [rec];
    KindExact(rec);
    if DetailOf(rec, key) {
      KeyListed(recs, rec);
      if j :| 0 <= j < |recs| && IsDetail(recs[j]) && Key10(recs[j]) == key {
        KindExact(recs[j]);
        assert DetailOf(all[j], key) && DetailOf(all[|recs|], key);
      }
    }
    if j, k :| 0 <= j < k < |recs| && DetailOf(recs[j], key) && DetailOf(recs[k], key) {
      assert DetailOf(all[j], key) && DetailOf(all[k], key);
    }
    if j, k :| 0 <= j < k < |all| && DetailOf(all[j], key) && DetailOf(all[k], key) {
      assert DetailOf(recs[j], key);
      KindExact(recs[j]);
      if k < |recs| {
        assert DetailOf(recs[k], key);
      }
    }
  }

  /** An account is reported as a duplicate exactly when two details have its key. */
  lemma {:induction false} DuplicatesExact(lines: seq<Bytes>, side: Side, other: Side, key: Key)
    requires forall k :: 0 <= k < |lines| ==> |lines[k]| == 81
    ensures DuplicateAccount(other, key) in LineErrors(lines, side) <==> other == side && Twice(Recs(lines), key)
  {
    hide Key10, Keys, Details, Twice, Recs;
    if lines == [] {
      NothingTwice(key);
    } else {
      var n := |lines| - 1;
      var rec := lines[n][..80];
      DuplicatesExact(lines[..n], side, other, key);
      RecsAppend(lines, n);
      KindExact(rec);
      OneType(rec);
      TwiceWithOneMore(Recs(lines[..n]), rec, key);
    }
  }

  lemma NothingTwice(key: Key)
    ensures !Twice(Recs([]), key)
  {}

  /** A difference is a field whose bytes differ. */
  lemma {:induction false} DifferencesExact(l: Layout, r: Bytes, s: Bytes, n: nat)
    requires IsLayout(l) && |r| == |s| == l.recordLength && n <= |l.fields|
    ensures Differences(l, r, s, n) == SumTo(n, k => if 0 <= k < |l.fields| && FieldDiffers(l.fields[k], r, s) then 1 else 0)
  {
    hide Differs, FieldDiffers;
    if n > 0 {
      DifferencesExact(l, r, s, n - 1);
      DiffersExact(l, r, s, n - 1);
    }
  }

  predicate FieldDiffers(f: Field, r: Bytes, s: Bytes) {
    exists i :: f.offset <= i < f.offset + Length(f.pic) && 0 <= i < |r| && i < |s| && r[i] != s[i]
  }

  lemma DiffersExact(l: Layout, r: Bytes, s: Bytes, k: nat)
    requires IsLayout(l) && |r| == |s| == l.recordLength && k < |l.fields|
    ensures Differs(l.fields[k], r, s) <==> FieldDiffers(l.fields[k], r, s)
  {
    EndsGrow(l.fields, k, |l.fields| - 1);
    var f := l.fields[k];
    forall i | f.offset <= i < f.offset + Length(f.pic)
      ensures Slice(f, r)[i - f.offset] == r[i] && Slice(f, s)[i - f.offset] == s[i]
    {}
    if Differs(f, r, s) {
      var j :| 0 <= j < Length(f.pic) && Slice(f, r)[j] != Slice(f, s)[j];
      assert r[f.offset + j] != s[f.offset + j];
    }
  }

  // ---------------------------------------------------------------- what is counted

  /** Accounts are listed as missing one by one, in order. */
  lemma {:induction false} MissingExact(front: seq<Key>, back: seq<Key>, m: map<Key, Bytes>)
    ensures Missing(front + back, m) == Missing(front, m) + Missing(back, m)
  {
    hide Missing;
    if back == [] {
      assert front + back == front;
      MissingNone(m);
    } else {
      var n := |back| - 1;
      MissingExact(front, back[..n], m);
      MissingStep(back[..n], back[n], m);
      MissingStep(front + back[..n], back[n], m);
      assert back[..n] + [back[n]] == back && (front + back[..n]) + [back[n]] == front + back;
    }
  }

  /** The last account is listed exactly when the other file does not have it. */
  lemma MissingStep(front: seq<Key>, key: Key, m: map<Key, Bytes>)
    ensures Missing(front + [key], m) == Missing(front, m) + if key in m then [] else [key]
  {
    assert (front + [key])[..|front|] == front;
  }

  lemma MissingNone(m: map<Key, Bytes>)
    ensures Missing([], m) == []
  {}

  /** A mismatch is an account in both files whose records are different bytes. */
  lemma {:induction false} MismatchesCounted(order: seq<Key>, a: map<Key, Bytes>, b: map<Key, Bytes>)
    ensures Mismatched(order, a, b) == SumTo(|order|, k =>
      if 0 <= k < |order| && order[k] in a && order[k] in b && a[order[k]] != b[order[k]] then 1 else 0)
  {
    if order != [] {
      var (n, front) := (|order| - 1, order[..|order| - 1]);
      MismatchesCounted(front, a, b);
      SumToSame(n, k => if 0 <= k < |order| && order[k] in a && order[k] in b && a[order[k]] != b[order[k]] then 1 else 0,
                k => if 0 <= k < |front| && front[k] in a && front[k] in b && a[front[k]] != b[front[k]] then 1 else 0);
    }
  }

  /** Field mismatches are counted over the thirteen fields of the accounts that are in both files. */
  lemma {:induction false} FieldsCounted(order: seq<Key>, a: map<Key, Bytes>, b: map<Key, Bytes>)
    ensures FieldDifferences(order, a, b) == SumTo(|order|, k =>
      if 0 <= k < |order| && order[k] in a && order[k] in b then Differences(DetailLayout(), a[order[k]], b[order[k]], 13) else 0)
  {
    hide DetailLayout, Differences;
    OutputLayouts();
    if order != [] {
      var (n, front) := (|order| - 1, order[..|order| - 1]);
      FieldsCounted(front, a, b);
      SumToSame(n,
        k => if 0 <= k < |order| && order[k] in a && order[k] in b then Differences(DetailLayout(), a[order[k]], b[order[k]], 13) else 0,
        k => if 0 <= k < |front| && front[k] in a && front[k] in b then Differences(DetailLayout(), a[front[k]], b[front[k]], 13) else 0);
    }
  }
}
