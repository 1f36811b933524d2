/** How version texts are cut into components and ordered, without recursion. */
module VersionOrder {
  import opened Common
  import opened Strings
  import opened BundleRegistry

  /** A text is less when it is a proper prefix or has the smaller character where they first differ. */
  lemma {:induction false} StringOrder(a: string, b: string)
    ensures StringLess(a, b) <==> exists j: nat :: FirstDifferent(a, b, j)
  {
    if a == "" || b == "" {
      assert b != "" ==> FirstDifferent("", b, 0);
    } else if a[0] != b[0] {
      assert a[0] < b[0] ==> FirstDifferent(a, b, 0);
    } else {
      StringOrder(a[1..], b[1..]);
      if j: nat :| FirstDifferent(a[1..], b[1..], j) {
        assert a[..j + 1] == [a[0]] + a[1..][..j] && b[..j + 1] == [b[0]] + b[1..][..j];
        assert FirstDifferent(a, b, j + 1);
      }
      if j: nat :| FirstDifferent(a, b, j) {
        assert a[1..][..j - 1] == a[..j][1..] && b[1..][..j - 1] == b[..j][1..];
        assert FirstDifferent(a[1..], b[1..], j - 1);
      }
    }
  }

  predicate FirstDifferent(a: string, b: string, j: nat) {
    j <= |a| && j < |b| && a[..j] == b[..j] && (j < |a| ==> a[j] < b[j])
  }

  predicate FirstSmaller(a: seq<string>, b: seq<string>, k: nat) {
    k <= |a| && k < |b| && a[..k] == b[..k] && (k < |a| ==> StringLess(a[k], b[k]))
  }

  lemma {:induction false} TupleOrder(a: seq<string>, b: seq<string>)
    ensures TupleLess(a, b) <==> exists k: nat :: FirstSmaller(a, b, k)
  {
    hide StringLess;
    if a == [] || b == [] {
      assert b != [] ==> FirstSmaller([], b, 0);
    } else {
      StringLessIrreflexive(a[0]);
      if StringLess(a[0], b[0]) {
        assert FirstSmaller(a, b, 0);
      }
      TupleOrder(a[1..], b[1..]);
      if k: nat :| a[0] == b[0] && FirstSmaller(a[1..], b[1..], k) {
        assert a[..k + 1] == [a[0]] + a[1..][..k] && b[..k + 1] == [b[0]] + b[1..][..k];
        assert FirstSmaller(a, b, k + 1);
      }
      if k: nat :| FirstSmaller(a, b, k) {
        if k > 0 {
          assert a[0] == a[..k][0] && b[0] == b[..k][0];
          assert a[1..][..k - 1] == a[..k][1..] && b[1..][..k - 1] == b[..k][1..];
          assert FirstSmaller(a[1..], b[1..], k - 1);
        }
      }
    }
  }

  /** -1 says that the first version is the lower one: it runs out of components first, or has the smaller
      text in the first component where they differ. */
  lemma CompareDirection(a: string, b: string)
    requires a != "" && b != ""
    ensures Compare(a, b) == Some(-1) <==> exists k: nat :: FirstSmaller(ParseVersion(a).value, ParseVersion(b).value, k)
    ensures Compare(a, b) == Some(1) <==> exists k: nat :: FirstSmaller(ParseVersion(b).value, ParseVersion(a).value, k)
  {
    hide TupleLess, FirstSmaller, Partition, Split;
    TupleOrder(ParseVersion(a).value, ParseVersion(b).value);
    TupleOrder(ParseVersion(b).value, ParseVersion(a).value);
    TupleLessTotal(ParseVersion(a).value, ParseVersion(b).value);
  }

  /** Components hold no dot and give the text back when joined with dots. */
  function Joined(parts: seq<string>, separator: char): string {
    if parts == [] then "" else if |parts| == 1 then parts[0] else parts[0] + [separator] + Joined(parts[1..], separator)
  }

  lemma {:induction false} SplitJoined(text: string, separator: char)
    ensures Joined(Split(text, separator), separator) == text
    ensures forall k :: 0 <= k < |Split(text, separator)| ==> separator !in Split(text, separator)[k]
  {
    if text != "" {
      var rest := Split(text[1..], separator);
      SplitJoined(text[1..], separator);
      assert text == [text[0]] + text[1..];
      if text[0] == separator {
        assert ([""] + rest)[1..] == rest;
      } else {
        assert ([[text[0]] + rest[0]] + rest[1..])[1..] == rest[1..];
      }
    }
  }

  lemma {:induction false} PartitionExact(text: string, separator: char)
    ensures var (core, pre) := Partition(text, separator);
      && separator !in core
      && text == (if separator in text then core + [separator] + pre else core)
      && (separator !in text ==> pre == "")
  {
    if text != "" {
      assert text == [text[0]] + text[1..];
      if text[0] != separator {
        PartitionExact(text[1..], separator);
      }
    }
  }

  /** The components of a version text: what stands between the dots before the first hyphen, and then, if
      it is not empty, all that stands behind that hyphen. */
  lemma Components(text: string)
    ensures text == "" <==> ParseVersion(text) == None
    ensures text != "" && '-' !in text ==>
      Joined(ParseVersion(text).value, '.') == text
      && forall k :: 0 <= k < |ParseVersion(text).value| ==> '.' !in ParseVersion(text).value[k]
    ensures text != "" && '-' in text ==> exists core, pre ::
      && text == core + "-" + pre && '-' !in core
      && ParseVersion(text) == Some(Split(core, '.') + if pre == "" then [] else [pre])
      && Joined(Split(core, '.'), '.') == core
  {
    hide Split, Partition;
    PartitionExact(text, '-');
    var (core, pre) := Partition(text, '-');
    SplitJoined(core, '.');
    assert Split(core, '.') + [] == Split(core, '.');
  }

  /** Over any table: a version that is empty, or meets an empty latest one, is bad; one that is not above the
      latest of its name is a rollback; of the others the listed ones are duplicates, the rest published. */
  lemma VerdictExact(rows: seq<Row>, row: Row)
    ensures var (v, latest) := (PublishVerdict(rows, row), Best(RowsFor(rows, row.name)));
      var bad := latest.Some? && (row.version == "" || latest.value.version == "");
      var higher := latest.None? || (!bad && exists k: nat ::
        FirstSmaller(ParseVersion(latest.value.version).value, ParseVersion(row.version).value, k));
      var listed := exists r :: r in rows && r.name == row.name && r.version == row.version;
      && (v == BadVersion <==> bad) && (v == Rollback <==> !bad && !higher)
      && (v == Duplicate <==> higher && listed) && (v == Published <==> higher && !listed)
  {
    hide Best, RowsFor, FirstSmaller, Compare, ParseVersion;
    var latest := Best(RowsFor(rows, row.name));
    EmptyIsNone(row.version);
    if latest.Some? {
      EmptyIsNone(latest.value.version);
      CompareIsPreorder(row.version, latest.value.version, "");
      if row.version != "" && latest.value.version != "" {
        CompareDirection(row.version, latest.value.version);
      }
    }
    assert Listed(rows, row.name, row.version) <==> exists r :: r in rows && r.name == row.name && r.version == row.version;
  }

  lemma EmptyIsNone(text: string)
    ensures ParseVersion(text).None? <==> text == ""
  {}
}
