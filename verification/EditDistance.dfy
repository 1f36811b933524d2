/** Unit-cost edit distance: the full-matrix loop, the least number of single-character edits
    that it computes, and the metric laws of that number. */
module EditDistance {
  import opened Common

  /** The matrix cell for the first `i` characters of `a` and the first `j` of `b`. */
  function Cell(a: string, b: string, i: nat, j: nat): nat
    requires i <= |a| && j <= |b|
  {
    if i == 0 then j
    else if j == 0 then i
    else
      var cost := if a[i - 1] == b[j - 1] then 0 else 1;
      Min(Min(Cell(a, b, i - 1, j) + 1, Cell(a, b, i, j - 1) + 1), Cell(a, b, i - 1, j - 1) + cost)
  }

  function Distance(a: string, b: string): nat {
    Cell(a, b, |a|, |b|)
  }

  // ---------------------------------------------------------------- edit scripts

  datatype Edit =
    | Insert(at: nat, c: char)
    | Delete(at: nat)
    | Substitute(at: nat, c: char)

  predicate Applicable(e: Edit, s: string) {
    if e.Insert? then e.at <= |s| else e.at < |s|
  }

  function Apply(e: Edit, s: string): string
    requires Applicable(e, s)
  {
    match e
    case Insert(at, c) => s[..at] + [c] + s[at..]
    case Delete(at) => s[..at] + s[at + 1..]
    case Substitute(at, c) => s[..at] + [c] + s[at + 1..]
  }

  /** Does the script, edit by edit, turn `a` into `b`? */
  predicate Transforms(script: seq<Edit>, a: string, b: string) {
    if script == [] then a == b
    else Applicable(script[0], a) && Transforms(script[1..], Apply(script[0], a), b)
  }

  /** `d` is the least number of single-character edits that turn `a` into `b`. */
  ghost predicate IsEditDistance(a: string, b: string, d: nat) {
    && (exists script :: |script| == d && Transforms(script, a, b))
    && (forall script :: Transforms(script, a, b) ==> d <= |script|)
  }

  // ---------------------------------------------------------------- the matrix loop

  /** One cell from its three neighbours, and the first row and column. */
  lemma CellRecurrence(a: string, b: string, i: nat, j: nat)
    requires i <= |a| && j <= |b|
    ensures i == 0 ==> Cell(a, b, i, j) == j
    ensures j == 0 ==> Cell(a, b, i, j) == i
    ensures i > 0 && j > 0 ==>
      var cost := if a[i - 1] == b[j - 1] then 0 else 1;
      var (del, ins, sub) := (Cell(a, b, i - 1, j) + 1, Cell(a, b, i, j - 1) + 1, Cell(a, b, i - 1, j - 1) + cost);
      && Cell(a, b, i, j) == Min(Min(del, ins), sub)
  {}

  method Levenshtein(a: string, b: string) returns (d: nat)
    ensures d == Distance(a, b)
    ensures IsEditDistance(a, b, d)
  {
    hide Cell, IsEditDistance;
    var rows, cols := |a| + 1, |b| + 1;
    var matrix := new int[rows, cols]((_, _) => 0);
    for i := 0 to rows
      invariant forall k :: 0 <= k < i ==> matrix[k, 0] == k
    {
      matrix[i, 0] := i;
    }
    for j := 0 to cols
      invariant forall k :: 0 <= k < rows ==> matrix[k, 0] == k
      invariant forall k :: 0 <= k < j ==> matrix[0, k] == k
    {
      matrix[0, j] := j;
    }
    forall k: nat, l: nat | k < rows && l < cols && (k == 0 || l == 0)
      ensures Cell(a, b, k, l) == k + l
    {
      CellRecurrence(a, b, k, l);
    }
    for i := 1 to rows
      invariant forall k :: 0 <= k < rows ==> matrix[k, 0] == k
      invariant forall k, l :: 0 <= k < i && 0 <= l < cols ==> matrix[k, l] == Cell(a, b, k, l)
    {
      for j := 1 to cols
        invariant forall k :: 0 <= k < rows ==> matrix[k, 0] == k
        invariant forall k, l :: 0 <= k < i && 0 <= l < cols ==> matrix[k, l] == Cell(a, b, k, l)
        invariant forall l :: 0 <= l < j ==> matrix[i, l] == Cell(a, b, i, l)
      {
        CellRecurrence(a, b, i, j);
        var cost := if a[i - 1] == b[j - 1] then 0 else 1;
        matrix[i, j] := Min(Min(matrix[i - 1, j] + 1, matrix[i, j - 1] + 1), matrix[i - 1, j - 1] + cost);
      }
    }
    d := matrix[rows - 1, cols - 1];
    DistanceIsLeastCost(a, b);
  }

  // ---------------------------------------------------------------- metric laws

  lemma {:induction false} CellBounds(a: string, b: string, i: nat, j: nat)
    requires i <= |a| && j <= |b|
    ensures i - j <= Cell(a, b, i, j) && j - i <= Cell(a, b, i, j)
    ensures Cell(a, b, i, j) <= Max(i, j)
  {
    hide Cell;
    CellRecurrence(a, b, i, j);
    if i > 0 && j > 0 {
      CellBounds(a, b, i - 1, j);
      CellBounds(a, b, i, j - 1);
      CellBounds(a, b, i - 1, j - 1);
    }
  }

  lemma {:induction false} CellZeroIffEqual(a: string, b: string, i: nat, j: nat)
    requires i <= |a| && j <= |b|
    ensures Cell(a, b, i, j) == 0 <==> a[..i] == b[..j]
  {
    if i > 0 && j > 0 {
      CellZeroIffEqual(a, b, i - 1, j - 1);
      assert a[..i] == a[..i - 1] + [a[i - 1]] && b[..j] == b[..j - 1] + [b[j - 1]];
    }
  }

  lemma {:induction false} CellSymmetric(a: string, b: string, i: nat, j: nat)
    requires i <= |a| && j <= |b|
    ensures Cell(a, b, i, j) == Cell(b, a, j, i)
  {
    hide Cell;
    CellRecurrence(a, b, i, j);
    CellRecurrence(b, a, j, i);
    if i > 0 && j > 0 {
      CellSymmetric(a, b, i - 1, j);
      CellSymmetric(a, b, i, j - 1);
      CellSymmetric(a, b, i - 1, j - 1);
    }
  }

  lemma {:induction false} CellTriangle(x: string, y: string, z: string, i: nat, j: nat, k: nat)
    requires i <= |x| && j <= |y| && k <= |z|
    ensures Cell(x, z, i, k) <= Cell(x, y, i, j) + Cell(y, z, j, k)
    decreases i + j + k
  {
    hide Cell;
    if i == 0 || j == 0 || k == 0 {
      CellBounds(x, y, i, j);
      CellBounds(y, z, j, k);
      CellBounds(x, z, i, k);
      CellRecurrence(x, y, i, j);
      CellRecurrence(y, z, j, k);
    } else {
      CellTriangle(x, y, z, i - 1, j, k);
      CellTriangle(x, y, z, i, j, k - 1);
      CellTriangle(x, y, z, i, j - 1, k);
      CellTriangle(x, y, z, i, j - 1, k - 1);
      CellTriangle(x, y, z, i - 1, j - 1, k);
      CellTriangle(x, y, z, i - 1, j - 1, k - 1);
      CellRecurrence(x, y, i, j);
      CellRecurrence(y, z, j, k);
      CellRecurrence(x, z, i, k);
    }
  }

  /** The distance is a metric, at least the length difference and at most the longer length. */
  lemma DistanceIsMetric(a: string, b: string, c: string)
    ensures Distance(a, b) == 0 <==> a == b
    ensures Distance(a, b) == Distance(b, a)
    ensures Distance(a, c) <= Distance(a, b) + Distance(b, c)
    ensures Max(|a| - |b|, |b| - |a|) <= Distance(a, b) <= Max(|a|, |b|)
  {
    CellZeroIffEqual(a, b, |a|, |b|);
    assert a[..|a|] == a && b[..|b|] == b;
    CellSymmetric(a, b, |a|, |b|);
    CellTriangle(a, b, c, |a|, |b|, |c|);
    CellBounds(a, b, |a|, |b|);
  }

  // ---------------------------------------------------------------- least cost: lower bound

  /** A common suffix never makes two strings farther apart. */
  lemma {:induction false} CellCommonSuffix(a: string, b: string, i: nat, j: nat, n: nat)
    requires i + n <= |a| && j + n <= |b|
    requires forall k :: i <= k < i + n ==> a[k] == b[k + (j - i)]
    ensures Cell(a, b, i + n, j + n) <= Cell(a, b, i, j)
  {
    if n > 0 {
      assert a[i + n - 1] == b[j + n - 1];
      CellCommonSuffix(a, b, i, j, n - 1);
    }
  }

  /** Past one edit the two strings go on alike. */
  lemma AroundEdit(e: Edit, s: string)
    requires Applicable(e, s)
    ensures var t := Apply(e, s);
      var (i, j) := (if e.Insert? then e.at else e.at + 1, if e.Delete? then e.at else e.at + 1);
      && e.at <= |s| && e.at <= |t| && i <= |s| && j <= |t| && |s| - i == |t| - j
      && s[..e.at] == t[..e.at] && forall k :: i <= k < |s| ==> s[k] == t[k + (j - i)]
  {}

  /** One step away from an equal prefix costs at most one. */
  lemma CellNearZero(s: string, t: string, at: nat, i: nat, j: nat)
    requires at <= i <= at + 1 && at <= j <= at + 1 && i <= |s| && j <= |t| && Cell(s, t, at, at) == 0
    ensures Cell(s, t, i, j) <= 1
  {
    hide Cell;
    CellRecurrence(s, t, i, j);
  }

  lemma OneEditOneStep(e: Edit, s: string)
    requires Applicable(e, s)
    ensures Distance(s, Apply(e, s)) <= 1
  {
    hide Cell, Apply;
    var t := Apply(e, s);
    var i, j := if e.Insert? then e.at else e.at + 1, if e.Delete? then e.at else e.at + 1;
    AroundEdit(e, s);
    CellZeroIffEqual(s, t, e.at, e.at);
    CellNearZero(s, t, e.at, i, j);
    CellCommonSuffix(s, t, i, j, |s| - i);
  }

  /** No script is shorter than the matrix value. */
  lemma {:induction false} ScriptAtLeastDistance(script: seq<Edit>, a: string, b: string)
    requires Transforms(script, a, b)
    ensures Distance(a, b) <= |script|
    decreases |script|
  {
    if script == [] {
      DistanceIsMetric(a, b, b);
    } else {
      var a' := Apply(script[0], a);
      ScriptAtLeastDistance(script[1..], a', b);
      OneEditOneStep(script[0], a);
      DistanceIsMetric(a, a', b);
    }
  }

  // ---------------------------------------------------------------- least cost: upper bound

  lemma {:induction false} AppendEdit(script: seq<Edit>, a: string, b: string, e: Edit)
    requires Transforms(script, a, b) && Applicable(e, b)
    ensures Transforms(script + [e], a, Apply(e, b))
    decreases |script|
  {
    if script != [] {
      AppendEdit(script[1..], Apply(script[0], a), b, e);
      assert (script + [e])[1..] == script[1..] + [e];
    } else {
      assert (script + [e])[1..] == [];
    }
  }

  lemma ApplyBeforeSuffix(e: Edit, a: string, c: char)
    requires Applicable(e, a)
    ensures Applicable(e, a + [c]) && Apply(e, a + [c]) == Apply(e, a) + [c]
  {
    assert (a + [c])[..e.at] == a[..e.at] && (a + [c])[e.at..] == a[e.at..] + [c];
    if !e.Insert? {
      assert (a + [c])[e.at + 1..] == a[e.at + 1..] + [c];
    }
  }

  /** Edits are addressed from the front, so a script also works in front of a suffix. */
  lemma {:induction false} ScriptBeforeSuffix(script: seq<Edit>, a: string, b: string, c: char)
    requires Transforms(script, a, b)
    ensures Transforms(script, a + [c], b + [c])
    decreases |script|
  {
    hide Apply;
    if script != [] {
      ScriptBeforeSuffix(script[1..], Apply(script[0], a), b, c);
      ApplyBeforeSuffix(script[0], a, c);
    }
  }

  lemma DeleteFirst(script: seq<Edit>, a: string, b: string, i: nat)
    requires 0 < i <= |a| && Transforms(script, a[..i - 1], b)
    ensures Transforms([Delete(i - 1)] + script, a[..i], b)
  {
    assert Apply(Delete(i - 1), a[..i]) == a[..i - 1];
    assert ([Delete(i - 1)] + script)[1..] == script;
  }

  lemma InsertLast(script: seq<Edit>, a: string, b: string, j: nat)
    requires 0 < j <= |b| && Transforms(script, a, b[..j - 1])
    ensures Transforms(script + [Insert(j - 1, b[j - 1])], a, b[..j])
  {
    AppendEdit(script, a, b[..j - 1], Insert(j - 1, b[j - 1]));
    assert Apply(Insert(j - 1, b[j - 1]), b[..j - 1]) == b[..j];
  }

  lemma SubstituteLast(script: seq<Edit>, a: string, b: string, i: nat, j: nat)
    requires 0 < i <= |a| && 0 < j <= |b| && Transforms(script, a[..i - 1], b[..j - 1])
    ensures a[i - 1] == b[j - 1] ==> Transforms(script, a[..i], b[..j])
    ensures Transforms(script + [Substitute(j - 1, b[j - 1])], a[..i], b[..j])
  {
    hide Transforms;
    var e := Substitute(j - 1, b[j - 1]);
    ScriptBeforeSuffix(script, a[..i - 1], b[..j - 1], a[i - 1]);
    assert a[..i] == a[..i - 1] + [a[i - 1]];
    assert b[..j] == b[..j - 1] + [b[j - 1]];
    AppendEdit(script, a[..i], b[..j - 1] + [a[i - 1]], e);
    assert Apply(e, b[..j - 1] + [a[i - 1]]) == b[..j];
  }

  lemma NoEdits(a: string)
    ensures Transforms([], a, a)
  {}

  /** A script as short as the matrix value, read off the cells. */
  lemma {:induction false} CheapestScript(a: string, b: string, i: nat, j: nat) returns (script: seq<Edit>)
    requires i <= |a| && j <= |b|
    ensures Transforms(script, a[..i], b[..j]) && |script| == Cell(a, b, i, j)
  {
    hide Cell, Transforms, Apply;
    CellRecurrence(a, b, i, j);
    if i == 0 && j == 0 {
      script := [];
      NoEdits(a[..i]);
      assert a[..i] == b[..j];
    } else if i == 0 || (j > 0 && Cell(a, b, i, j) == Cell(a, b, i, j - 1) + 1) {
      CellRecurrence(a, b, i, j - 1);
      script := CheapestScript(a, b, i, j - 1);
      InsertLast(script, a[..i], b, j);
      script := script + [Insert(j - 1, b[j - 1])];
    } else if j == 0 || Cell(a, b, i, j) == Cell(a, b, i - 1, j) + 1 {
      CellRecurrence(a, b, i - 1, j);
      script := CheapestScript(a, b, i - 1, j);
      DeleteFirst(script, a, b[..j], i);
      script := [Delete(i - 1)] + script;
    } else {
      script := CheapestScript(a, b, i - 1, j - 1);
      SubstituteLast(script, a, b, i, j);
      if a[i - 1] != b[j - 1] {
        script := script + [Substitute(j - 1, b[j - 1])];
      }
    }
  }

  /** The matrix value is the least cost of any insert/delete/substitute script. */
  lemma DistanceIsLeastCost(a: string, b: string)
    ensures IsEditDistance(a, b, Distance(a, b))
  {
    var cheapest := CheapestScript(a, b, |a|, |b|);
    assert a[..|a|] == a && b[..|b|] == b;
    forall script | Transforms(script, a, b)
      ensures Distance(a, b) <= |script|
    {
      ScriptAtLeastDistance(script, a, b);
    }
  }
}
