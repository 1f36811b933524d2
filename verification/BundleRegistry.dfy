/** Version order and the bundle registry. */
module BundleRegistry {
  import opened Common
  import opened Strings

  // ---------------------------------------------------------------- versions

  function Split(text: string, separator: char): (parts: seq<string>)
    ensures parts != []
  {
    if text == "" then [""]
    else
      var rest := Split(text[1..], separator);
      if text[0] == separator then [""] + rest else [[text[0]] + rest[0]] + rest[1..]
  }

  /** Text before the first separator, and the text after it (empty when there is none). */
  function Partition(text: string, separator: char): (string, string) {
    if text == "" then ("", "")
    else if text[0] == separator then ("", text[1..])
    else
      var (core, pre) := Partition(text[1..], separator);
      ([text[0]] + core, pre)
  }

  /** Dotted components, followed by the part after the first hyphen if there is one; None when empty. */
  function ParseVersion(text: string): Option<seq<string>> {
    if text == "" then None
    else
      var (core, pre) := Partition(text, '-');
      Some(Split(core, '.') + if pre == "" then [] else [pre])
  }

  /** Order of tuples: the first different component decides, a proper prefix is less. */
  predicate TupleLess(a: seq<string>, b: seq<string>) {
    b != [] && (a == [] || StringLess(a[0], b[0]) || (a[0] == b[0] && TupleLess(a[1..], b[1..])))
  }

  /** -1, 0 or 1; None when either version is empty. */
  function Compare(a: string, b: string): Option<int> {
    match ParseVersion(a)
    case None => None
    case Some(va) =>
      match ParseVersion(b)
      case None => None
      case Some(vb) => Some(if TupleLess(va, vb) then -1 else if TupleLess(vb, va) then 1 else 0)
  }

  lemma {:induction false} TupleLessTransitive(a: seq<string>, b: seq<string>, c: seq<string>)
    requires TupleLess(a, b) && TupleLess(b, c)
    ensures TupleLess(a, c)
  {
    hide StringLess;
    if a != [] {
      StringLessIrreflexive(b[0]);
      if StringLess(a[0], b[0]) && StringLess(b[0], c[0]) {
        StringLessTransitive(a[0], b[0], c[0]);
      } else if a[0] == b[0] == c[0] {
        TupleLessTransitive(a[1..], b[1..], c[1..]);
      }
    }
  }

  lemma {:induction false} TupleLessTotal(a: seq<string>, b: seq<string>)
    ensures TupleLess(a, b) ==> !TupleLess(b, a)
    ensures TupleLess(a, b) || TupleLess(b, a) || a == b
  {
    hide StringLess;
    if a != [] && b != [] {
      StringLessTotal(a[0], b[0]);
      StringLessIrreflexive(a[0]);
      TupleLessTotal(a[1..], b[1..]);
      assert a == [a[0]] + a[1..] && b == [b[0]] + b[1..];
    }
  }

  predicate Above(a: string, b: string) {
    Compare(a, b) == Some(1)
  }

  /** On versions that are not empty, `compare` is a total preorder: defined, antisymmetric in sign,
      transitive, and zero exactly for versions with the same components. */
  lemma CompareIsPreorder(a: string, b: string, c: string)
    ensures Compare(a, b).Some? <==> a != "" && b != ""
    ensures a != "" && b != "" ==>
      && Compare(b, a) == Some(-Compare(a, b).value) && -1 <= Compare(a, b).value <= 1
      && (Compare(a, b) == Some(0) <==> ParseVersion(a) == ParseVersion(b))
    ensures a != "" && b != "" && c != "" ==>
      Compare(a, b).value <= 0 && Compare(b, c).value <= 0 ==> Compare(a, c).value <= 0
    ensures Above(a, b) && Above(b, c) ==> Above(a, c)
  {
    hide TupleLess, Partition, Split;
    if a != "" && b != "" {
      var (va, vb) := (ParseVersion(a).value, ParseVersion(b).value);
      TupleLessTotal(va, vb);
      if c != "" {
        var vc := ParseVersion(c).value;
        TupleLessTotal(vb, vc);
        TupleLessTotal(va, vc);
        if TupleLess(va, vb) && TupleLess(vb, vc) {
          TupleLessTransitive(va, vb, vc);
        }
        if TupleLess(vc, vb) && TupleLess(vb, va) {
          TupleLessTransitive(vc, vb, va);
        }
      }
    }
  }

  /** Two different texts can be the same version: a hyphen counts as one more dot. */
  lemma SameVersionTwice()
    ensures Compare("1.2", "1-2") == Some(0) && "1.2" != "1-2"
  {
    assert "1.2"[1..] == ".2" && ".2"[1..] == "2" && "2"[1..] == "" && "1-2"[1..] == "-2" && "-2"[1..] == "2" && "1"[1..] == "";
    assert ['2'] + "" == "2" && ['.'] + "2" == ".2" && ['1'] + ".2" == "1.2" && ['1'] + "" == "1";
    assert Partition("2", '-') == ("2", "") && Partition(".2", '-') == (".2", "") && Partition("1.2", '-') == ("1.2", "");
    assert Partition("-2", '-') == ("", "2") && Partition("1-2", '-') == ("1", "2");
    assert Split("2", '.') == ["2"] && Split(".2", '.') == ["", "2"] && Split("1.2", '.') == ["1", "2"] && Split("1", '.') == ["1"];
    TupleLessTotal(["1", "2"], ["1", "2"]);
  }

  // ---------------------------------------------------------------- the table of bundles

  datatype Row = Row(name: string, version: string, vendorId: string, sha256: string, stagePath: string, publishedAt: string, status: string)

  function RowsFor(rows: seq<Row>, name: string): (mine: seq<Row>)
    ensures forall r :: r in mine <==> r in rows && r.name == name
  {
    if rows == [] then []
    else
      var (front, r) := (rows[..|rows| - 1], rows[|rows| - 1]);
      assert rows == front + [r];
      RowsFor(front, name) + if r.name == name then [r] else []
  }

  /** What the scan for the greatest version returns: the first row, replaced by each row above it;
      comparisons with an empty version are passed over. */
  function Best(mine: seq<Row>): Option<Row> {
    if mine == [] then None
    else
      match Best(mine[..|mine| - 1])
      case None => Some(mine[|mine| - 1])
      case Some(best) => Some(if Above(mine[|mine| - 1].version, best.version) then mine[|mine| - 1] else best)
  }

  /** When no version is empty, no row is above the one returned. */
  lemma {:induction false} BestIsGreatest(mine: seq<Row>)
    requires forall k :: 0 <= k < |mine| ==> mine[k].version != ""
    ensures mine == [] <==> Best(mine) == None
    ensures mine != [] ==> Best(mine).value in mine && forall k :: 0 <= k < |mine| ==> !Above(mine[k].version, Best(mine).value.version)
  {
    hide Compare;
    if mine != [] {
      var (front, last) := (mine[..|mine| - 1], mine[|mine| - 1]);
      assert mine == front + [last];
      BestIsGreatest(front);
      CompareIsPreorder(last.version, last.version, last.version);
      if front != [] {
        var best := Best(front).value;
        forall k | 0 <= k < |front|
          ensures Above(last.version, best.version) ==> !Above(front[k].version, last.version)
        {
          CompareIsPreorder(front[k].version, last.version, best.version);
        }
      }
    }
  }

  /** An accepted row next to the rows of its name published before it. */
  predicate Rises(rows: seq<Row>, k: nat)
    requires k < |rows|
  {
    forall j :: 0 <= j < k && rows[j].name == rows[k].name ==> Above(rows[k].version, rows[j].version)
  }

  /** Every row is strictly above the earlier rows of its name. */
  predicate Increasing(rows: seq<Row>) {
    forall k: nat :: k < |rows| ==> Rises(rows, k)
  }

  datatype Verdict = Published | Rollback | Duplicate | BadVersion

  predicate Listed(rows: seq<Row>, name: string, version: string) {
    exists k :: 0 <= k < |rows| && rows[k].name == name && rows[k].version == version
  }

  function PublishVerdict(rows: seq<Row>, row: Row): Verdict {
    var current := Best(RowsFor(rows, row.name));
    if current.Some? && Compare(row.version, current.value.version).None? then BadVersion
    else if current.Some? && Compare(row.version, current.value.version).value <= 0 then Rollback
    else if Listed(rows, row.name, row.version) then Duplicate
    else Published
  }

  class Registry {
    var rows: seq<Row>

    constructor ()
      ensures rows == []
    {
      rows := [];
    }

    method Latest(name: string) returns (best: Option<Row>)
      ensures best == Best(RowsFor(rows, name))
    {
      hide Above;
      best := None;
      var mine := RowsFor(rows, name);
      for i := 0 to |mine|
        invariant best == Best(mine[..i])
      {
        assert mine[..i + 1][..i] == mine[..i];
        if best.None? || Above(mine[i].version, best.value.version) {
          best := Some(mine[i]);
        }
      }
      assert mine[..|mine|] == mine;
    }

    method Get(name: string, version: string) returns (row: Option<Row>)
      ensures row.Some? <==> Listed(rows, name, version)
      ensures row.Some? ==> row.value in rows && row.value.name == name && row.value.version == version
    {
      for i := 0 to |rows|
        invariant !Listed(rows[..i], name, version)
      {
        if rows[i].name == name && rows[i].version == version {
          return Some(rows[i]);
        }
      }
      assert rows[..|rows|] == rows;
      row := None;
    }

    /** Publishes unless the version is not above the latest, is listed already, or cannot be compared. */
    method Publish(row: Row) returns (v: Verdict)
      modifies this
      ensures v == PublishVerdict(old(rows), row)
      ensures rows == if v == Published then old(rows) + [row] else old(rows)
    {
      hide Best, RowsFor, Compare, Listed;
      var current := Latest(row.name);
      if current.Some? {
        var c := Compare(row.version, current.value.version);
        if c.None? {
          return BadVersion;
        }
        if c.value <= 0 {
          return Rollback;
        }
      }
      var listed := Get(row.name, row.version);
      if listed.Some? {
        return Duplicate;
      }
      rows := rows + [row];
      v := Published;
    }
  }

  // ---------------------------------------------------------------- what publishing keeps

  function AfterPublish(rows: seq<Row>, row: Row): seq<Row> {
    if PublishVerdict(rows, row) == Published then rows + [row] else rows
  }

  function AfterAll(rows: seq<Row>, attempts: seq<Row>): seq<Row> {
    if attempts == [] then rows else AfterPublish(AfterAll(rows, attempts[..|attempts| - 1]), attempts[|attempts| - 1])
  }

  /** The version is strictly above every listed version of the name. */
  predicate AboveAll(rows: seq<Row>, name: string, version: string) {
    forall j :: 0 <= j < |rows| && rows[j].name == name ==> Above(version, rows[j].version)
  }

  lemma AboveMeans(a: string, b: string)
    ensures Above(a, b) ==> a != "" && b != "" && !Above(b, a) && a != b
  {
    hide TupleLess, Partition, Split;
    CompareIsPreorder(a, b, b);
    CompareIsPreorder(a, a, a);
  }

  /** Two rows of one name are in order, unless they are the same row. */
  lemma RowsOrdered(rows: seq<Row>, j: nat, k: nat)
    requires Increasing(rows) && j < |rows| && k < |rows| && rows[j].name == rows[k].name && j != k
    ensures Above(rows[j].version, rows[k].version) || Above(rows[k].version, rows[j].version)
    ensures rows[j].version != "" && rows[k].version != ""
  {
    hide Above;
    if j < k {
      assert Rises(rows, k);
    } else {
      assert Rises(rows, j);
    }
    AboveMeans(rows[j].version, rows[k].version);
    AboveMeans(rows[k].version, rows[j].version);
  }

  lemma {:induction false} BestListed(mine: seq<Row>)
    ensures mine != [] ==> Best(mine).Some? && Best(mine).value in mine
    ensures mine == [] ==> Best(mine) == None
  {
    hide Above;
    if mine != [] {
      BestListed(mine[..|mine| - 1]);
      assert mine == mine[..|mine| - 1] + [mine[|mine| - 1]];
    }
  }

  /** In an increasing table a name whose greatest version is not empty has no empty version. */
  lemma NoneEmpty(rows: seq<Row>, name: string, best: Row)
    requires Increasing(rows) && best in rows && best.name == name && best.version != ""
    ensures forall r :: r in RowsFor(rows, name) ==> r.version != ""
  {
    hide RowsFor, Above, Increasing;
    forall r | r in RowsFor(rows, name)
      ensures r.version != ""
    {
      var j: nat :| j < |rows| && rows[j] == r;
      var k: nat :| k < |rows| && rows[k] == best;
      if j != k {
        RowsOrdered(rows, j, k);
      }
    }
  }

  lemma AboveGreatest(row: string, best: string, other: string)
    requires Above(row, best) && other != "" && !Above(other, best)
    ensures Above(row, other)
  {
    hide Compare;
    CompareIsPreorder(row, other, best);
    CompareIsPreorder(row, best, other);
    CompareIsPreorder(other, best, row);
  }

  /** Over an increasing table a row is accepted exactly when its version is strictly above every version
      of its name, and the duplicate check never decides. */
  lemma PublishExact(rows: seq<Row>, row: Row)
    requires Increasing(rows)
    ensures PublishVerdict(rows, row) == Published <==> AboveAll(rows, row.name, row.version)
    ensures PublishVerdict(rows, row) != Duplicate
  {
    hide Compare, RowsFor, Best, Increasing;
    var mine := RowsFor(rows, row.name);
    BestListed(mine);
    if mine == [] {
      assert forall j :: 0 <= j < |rows| ==> rows[j] in rows;
    } else {
      var best := Best(mine).value;
      if AboveAll(rows, row.name, row.version) {
        var b: nat :| b < |rows| && rows[b] == best;
        NotListed(rows, row);
      } else if Above(row.version, best.version) {
        AboveMeans(row.version, best.version);
        NoneEmpty(rows, row.name, best);
        BestIsGreatest(mine);
        forall j | 0 <= j < |rows| && rows[j].name == row.name
          ensures Above(row.version, rows[j].version)
        {
          assert rows[j] in mine;
          AboveGreatest(row.version, best.version, rows[j].version);
        }
      }
      CompareIsPreorder(row.version, best.version, best.version);
    }
  }

  lemma NotListed(rows: seq<Row>, row: Row)
    requires AboveAll(rows, row.name, row.version)
    ensures !Listed(rows, row.name, row.version)
  {
    hide Above;
    forall k | 0 <= k < |rows| && rows[k].name == row.name
      ensures rows[k].version != row.version
    {
      AboveMeans(row.version, rows[k].version);
    }
  }

  /** Publishing keeps the table increasing, and an accepted row becomes the latest of its name. */
  lemma PublishKeeps(rows: seq<Row>, row: Row)
    requires Increasing(rows)
    ensures Increasing(AfterPublish(rows, row))
    ensures PublishVerdict(rows, row) == Published ==> Best(RowsFor(AfterPublish(rows, row), row.name)) == Some(row)
    ensures forall name :: name != row.name ==> RowsFor(AfterPublish(rows, row), name) == RowsFor(rows, name)
  {
    hide PublishVerdict, Above, Best, RowsFor;
    PublishExact(rows, row);
    if PublishVerdict(rows, row) == Published {
      var all := rows + [row];
      forall k: nat | k < |all|
        ensures Rises(all, k)
      {
        if k < |rows| {
          assert Rises(rows, k);
        }
      }
      LatestIsNew(rows, row);
    }
  }

  lemma LatestIsNew(rows: seq<Row>, row: Row)
    requires AboveAll(rows, row.name, row.version)
    ensures Best(RowsFor(rows + [row], row.name)) == Some(row)
    ensures forall name :: name != row.name ==> RowsFor(rows + [row], name) == RowsFor(rows, name)
  {
    hide Above;
    var mine := RowsFor(rows, row.name);
    assert (rows + [row])[..|rows|] == rows;
    assert RowsFor(rows + [row], row.name) == mine + [row];
    assert (mine + [row])[..|mine|] == mine;
    BestListed(mine);
    forall name | name != row.name
      ensures RowsFor(rows + [row], name) == RowsFor(rows, name)
    {
      assert RowsFor(rows, name) + [] == RowsFor(rows, name);
    }
  }

  /** In an increasing table the latest row of a name is the last one accepted. */
  lemma {:induction false} LatestIsLast(rows: seq<Row>, name: string)
    requires Increasing(rows)
    ensures var mine := RowsFor(rows, name); Best(mine) == if mine == [] then None else Some(mine[|mine| - 1])
  {
    hide Best, RowsFor, Increasing, Above;
    if rows == [] {
      NoRows(name);
    } else {
      var (front, r) := (rows[..|rows| - 1], rows[|rows| - 1]);
      assert rows == front + [r];
      IncreasingFront(front, r);
      LatestIsLast(front, name);
      LatestIsNew(front, r);
      LastOfName(front, r);
    }
  }

  lemma NoRows(name: string)
    ensures RowsFor([], name) == [] && Best([]) == None
  {}

  lemma LastOfName(front: seq<Row>, r: Row)
    ensures RowsFor(front + [r], r.name) == RowsFor(front, r.name) + [r]
  {
    assert (front + [r])[..|front|] == front;
  }

  lemma IncreasingFront(front: seq<Row>, r: Row)
    requires Increasing(front + [r])
    ensures Increasing(front) && AboveAll(front, r.name, r.version)
  {
    hide Above;
    var all := front + [r];
    assert Rises(all, |front|) && all[|front|] == r;
    forall k: nat | k < |front|
      ensures Rises(front, k)
    {
      assert Rises(all, k) && all[k] == front[k];
      assert forall j :: 0 <= j < k ==> all[j] == front[j];
    }
    assert forall j :: 0 <= j < |front| ==> all[j] == front[j];
  }

  /** Over any run of attempts from an increasing table: the table stays increasing and only grows, the
      latest row of every name is the last accepted one, and no attempt is turned down as a duplicate. */
  lemma {:induction false} RunIncreases(rows: seq<Row>, attempts: seq<Row>)
    requires Increasing(rows)
    ensures Increasing(AfterAll(rows, attempts)) && rows <= AfterAll(rows, attempts)
    ensures forall name :: var mine := RowsFor(AfterAll(rows, attempts), name);
      Best(mine) == if mine == [] then None else Some(mine[|mine| - 1])
    ensures forall k :: 0 <= k < |attempts| ==> PublishVerdict(AfterAll(rows, attempts[..k]), attempts[k]) != Duplicate
  {
    hide Increasing, PublishVerdict, Best, RowsFor;
    if attempts != [] {
      var n := |attempts| - 1;
      RunIncreases(rows, attempts[..n]);
      PublishKeeps(AfterAll(rows, attempts[..n]), attempts[n]);
      PublishExact(AfterAll(rows, attempts[..n]), attempts[n]);
      forall k | 0 <= k < |attempts|
        ensures PublishVerdict(AfterAll(rows, attempts[..k]), attempts[k]) != Duplicate
      {
        if k < n {
          assert attempts[..n][..k] == attempts[..k] && attempts[..n][k] == attempts[k];
        }
      }
    }
    forall name
      ensures var mine := RowsFor(AfterAll(rows, attempts), name);
        Best(mine) == if mine == [] then None else Some(mine[|mine| - 1])
    {
      LatestIsLast(AfterAll(rows, attempts), name);
    }
  }

  /** A name first published with an empty version can never be published again. */
  lemma EmptyVersionBlocks(rows: seq<Row>, row: Row, k: nat)
    requires Increasing(rows) && k < |rows| && rows[k].name == row.name && rows[k].version == ""
    ensures PublishVerdict(rows, row) != Published
  {
    hide PublishVerdict;
    PublishExact(rows, row);
    AboveMeans(row.version, "");
  }

  /** In an increasing table the latest row does not depend on the order in which rows are read. */
  lemma LatestIgnoresOrder(rows: seq<Row>, name: string, read: seq<Row>)
    requires Increasing(rows) && forall r :: r in read <==> r in RowsFor(rows, name)
    ensures Best(read) == Best(RowsFor(rows, name))
  {
    hide Best, RowsFor, Increasing, Above;
    var mine := RowsFor(rows, name);
    BestListed(mine);
    BestListed(read);
    if mine != [] {
      assert mine[0] in mine;
      var (x, y) := (Best(mine).value, Best(read).value);
      var j: nat :| j < |rows| && rows[j] == x;
      var k: nat :| k < |rows| && rows[k] == y;
      if x != y {
        RowsOrdered(rows, j, k);
        NoneEmpty(rows, name, x);
        BestIsGreatest(mine);
        BestIsGreatest(read);
      }
    }
  }
}
