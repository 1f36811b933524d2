/** Text normalisation: the multi-pass form used by the engine, the one-pass scanner of the
    reference matcher, and what the two agree on. */
module Normalize {

  /** What the two forms take from the platform: upper-casing and the white-space test. */
  datatype Platform = Platform(upper: string -> string, isSpace: char -> bool)

  predicate IsDigit(c: char) {
    '0' <= c <= '9'
  }

  predicate IsKept(c: char) {
    'A' <= c <= 'Z' || IsDigit(c)
  }

  const UMLAUTS: seq<(char, string)> :=
    [('\U{E4}', "ae"), ('\U{F6}', "oe"), ('\U{FC}', "ue"), ('\U{C4}', "AE"), ('\U{D6}', "OE"), ('\U{DC}', "UE"), ('\U{DF}', "ss")]

  function Replace(text: string, src: char, dst: string): string {
    if text == "" then ""
    else (if text[0] == src then dst else [text[0]]) + Replace(text[1..], src, dst)
  }

  function ReplaceAll(text: string, pairs: seq<(char, string)>): string
    decreases |pairs|
  {
    if pairs == [] then text
    else ReplaceAll(Replace(text, pairs[0].0, pairs[0].1), pairs[1..])
  }

  /** Number of digits at the front of the text: the length of a maximal run that starts there. */
  function RunLength(text: string): (n: nat)
    ensures n <= |text|
    ensures forall k :: 0 <= k < n ==> IsDigit(text[k])
    ensures n < |text| ==> !IsDigit(text[n])
  {
    if text == "" || !IsDigit(text[0]) then 0 else 1 + RunLength(text[1..])
  }

  function LStripZeros(run: string): string {
    if run != "" && run[0] == '0' then LStripZeros(run[1..]) else run
  }

  function StripRun(run: string): string {
    if LStripZeros(run) == "" then "0" else LStripZeros(run)
  }

  /** Third step: every maximal digit run loses its leading zeros. */
  function StripRuns(text: string): string
    decreases |text|
  {
    if text == "" then ""
    else if IsDigit(text[0]) then
      var n := RunLength(text);
      StripRun(text[..n]) + StripRuns(text[n..])
    else [text[0]] + StripRuns(text[1..])
  }

  /** Fourth step: only A-Z and 0-9 stay. */
  function Keep(text: string): string {
    if text == "" then ""
    else (if IsKept(text[0]) then [text[0]] else "") + Keep(text[1..])
  }

  /** Third and fourth step together. */
  function Normal(text: string): string {
    Keep(StripRuns(text))
  }

  function Reference(p: Platform, text: string): string {
    Normal(p.upper(ReplaceAll(text, UMLAUTS)))
  }

  function RemoveSpace(p: Platform, text: string): string {
    if text == "" then ""
    else (if p.isSpace(text[0]) then "" else [text[0]]) + RemoveSpace(p, text[1..])
  }

  function Iban(p: Platform, text: string): string {
    p.upper(RemoveSpace(p, text))
  }

  // ---------------------------------------------------------------- the one-pass scanner

  method Norm(p: Platform, source: string) returns (out: string)
    ensures out == Reference(p, source)
  {
    hide Normal, StripRun, IsKept, IsDigit, RunLength;
    var text := p.upper(ReplaceAll(source, UMLAUTS));
    out := "";
    var i := 0;
    while i < |text|
      invariant 0 <= i <= |text|
      invariant Normal(text) == out + Normal(text[i..])
    {
      var rest := text[i..];
      if IsDigit(text[i]) {
        var j := i;
        while j < |text| && IsDigit(text[j])
          invariant i <= j <= |text|
          invariant RunLength(rest) == (j - i) + RunLength(text[j..])
        {
          j := j + 1;
        }
        RunEnds(text, j);
        var run := StripRun(text[i..j]);
        assert rest[..j - i] == text[i..j] && rest[j - i..] == text[j..];
        ScannerStep(rest);
        out := out + run;
        i := j;
      } else {
        assert rest[1..] == text[i + 1..];
        ScannerStep(rest);
        var kept := if IsKept(text[i]) then [text[i]] else "";
        out := out + kept;
        i := i + 1;
      }
    }
    assert text[i..] == "";
    NormalEmpty();
  }

  lemma RunEnds(text: string, j: nat)
    requires j == |text| || (j < |text| && !IsDigit(text[j]))
    ensures RunLength(text[j..]) == 0
  {}

  lemma NormalEmpty()
    ensures Normal("") == ""
  {}

  /** One turn of the scanner: a whole digit run, or a single other character. */
  lemma ScannerStep(text: string)
    requires text != ""
    ensures IsDigit(text[0]) ==>
      var n := RunLength(text);
      n > 0 && Normal(text) == StripRun(text[..n]) + Normal(text[n..])
    ensures !IsDigit(text[0]) ==>
      Normal(text) == (if IsKept(text[0]) then [text[0]] else "") + Normal(text[1..])
  {
    if IsDigit(text[0]) {
      var n := RunLength(text);
      StripRunDigits(text[..n]);
      KeepConcat(StripRun(text[..n]), StripRuns(text[n..]));
      KeepAll(StripRun(text[..n]));
    } else {
      KeepConcat([text[0]], StripRuns(text[1..]));
      assert Keep([text[0]]) == if IsKept(text[0]) then [text[0]] else "";
    }
  }

  lemma {:induction false} LStripZerosDigits(run: string)
    requires forall k :: 0 <= k < |run| ==> IsDigit(run[k])
    ensures forall k :: 0 <= k < |LStripZeros(run)| ==> IsDigit(LStripZeros(run)[k])
  {
    if run != "" && run[0] == '0' {
      LStripZerosDigits(run[1..]);
    }
  }

  lemma StripRunDigits(run: string)
    requires forall k :: 0 <= k < |run| ==> IsDigit(run[k])
    ensures forall k :: 0 <= k < |StripRun(run)| ==> IsDigit(StripRun(run)[k])
  {
    LStripZerosDigits(run);
  }

  lemma {:induction false} KeepConcat(a: string, b: string)
    ensures Keep(a + b) == Keep(a) + Keep(b)
  {
    if a == "" {
      assert a + b == b;
    } else {
      hide IsKept;
      KeepConcat(a[1..], b);
      assert (a + b)[1..] == a[1..] + b;
      var first := if IsKept(a[0]) then [a[0]] else "";
      assert Keep(a + b) == first + Keep(a[1..] + b);
    }
  }

  lemma {:induction false} KeepAll(a: string)
    requires forall k :: 0 <= k < |a| ==> IsKept(a[k])
    ensures Keep(a) == a
  {
    if a != "" {
      KeepAll(a[1..]);
    }
  }

  // ---------------------------------------------------------------- formatting variants

  lemma {:induction false} RunLengthConcat(a: string, b: string)
    requires IsCut(a, b)
    ensures a != "" ==> RunLength(a + b) == RunLength(a)
  {
    if a != "" && IsDigit(a[0]) {
      assert (a + b)[1..] == a[1..] + b;
      RunLengthConcat(a[1..], b);
      if |a| == 1 {
        assert a[1..] + b == b;
      }
    }
  }

  /** What one turn of the scanner emits, and how many characters it consumes. */
  function Turn(text: string): (string, nat)
    requires text != ""
  {
    if IsDigit(text[0]) then (StripRun(text[..RunLength(text)]), RunLength(text))
    else (if IsKept(text[0]) then [text[0]] else "", 1)
  }

  lemma TurnConcat(a: string, b: string)
    requires a != ""
    requires IsCut(a, b)
    ensures Turn(a + b) == Turn(a) && 1 <= Turn(a).1 <= |a|
    ensures (a + b)[Turn(a).1..] == a[Turn(a).1..] + b
  {
    hide StripRun;
    RunLengthConcat(a, b);
    assert (a + b)[..Turn(a).1] == a[..Turn(a).1];
  }

  lemma TurnNormal(text: string)
    requires text != ""
    ensures Turn(text).1 <= |text| && Normal(text) == Turn(text).0 + Normal(text[Turn(text).1..])
  {
    hide Normal, StripRun;
    ScannerStep(text);
  }

  /** The texts do not cut a digit run in two. */
  predicate IsCut(a: string, b: string) {
    a == "" || b == "" || !IsDigit(a[|a| - 1]) || !IsDigit(b[0])
  }

  lemma CutLater(a: string, b: string, n: nat)
    requires IsCut(a, b) && n <= |a|
    ensures IsCut(a[n..], b)
  {
    hide IsDigit;
    assert n < |a| ==> a[n..][|a| - n - 1] == a[|a| - 1];
  }

  lemma OneTurn(a: string, b: string)
    requires a != "" && IsCut(a, b)
    ensures var (first, n) := (Turn(a).0, Turn(a).1);
      && 1 <= n <= |a| && Normal(a) == first + Normal(a[n..]) && Normal(a + b) == first + Normal(a[n..] + b)
  {
    hide Normal, Turn, IsDigit;
    TurnConcat(a, b);
    TurnNormal(a);
    TurnNormal(a + b);
  }

  /** Away from the inside of a digit run, a text may be normalised piece by piece. */
  lemma {:induction false} PiecewiseNormal(a: string, b: string)
    requires IsCut(a, b)
    ensures Normal(a + b) == Normal(a) + Normal(b)
    decreases |a|
  {
    hide *;
    if a == "" {
      NormalEmpty();
      assert a + b == b && "" + Normal(b) == Normal(b);
    } else {
      var (first, n) := (Turn(a).0, Turn(a).1);
      OneTurn(a, b);
      CutLater(a, b, n);
      PiecewiseNormal(a[n..], b);
    }
  }

  function Zeros(n: nat): string {
    seq(n, _ => '0')
  }

  lemma {:induction false} PaddedRun(n: nat, run: string)
    ensures LStripZeros(Zeros(n) + run) == LStripZeros(run)
  {
    if n == 0 {
      assert Zeros(n) + run == run;
    } else {
      PaddedRun(n - 1, run);
      assert (Zeros(n) + run)[1..] == Zeros(n - 1) + run;
    }
  }

  lemma DigitRunNormal(run: string)
    requires run != "" && forall k :: 0 <= k < |run| ==> IsDigit(run[k])
    ensures Normal(run) == StripRun(run)
  {
    ScannerStep(run);
    assert run[..|run|] == run && run[|run|..] == "";
  }

  predicate IsSeparator(text: string) {
    text != "" && forall k :: 0 <= k < |text| ==> !IsKept(text[k])
  }

  lemma {:induction false} SeparatorVanishes(sep: string)
    requires forall k :: 0 <= k < |sep| ==> !IsKept(sep[k])
    ensures Normal(sep) == ""
  {
    if sep != "" {
      SeparatorVanishes(sep[1..]);
      ScannerStep(sep);
    }
  }

  /** Formatting does not matter: any separators between two groups, and any number of zeros in
      front of the second digit group, lead to the same normal form. */
  lemma FormattingVariants(head: string, sep: string, sep': string, zeros: nat, run: string)
    requires IsSeparator(sep) && IsSeparator(sep')
    requires run != "" && forall k :: 0 <= k < |run| ==> IsDigit(run[k])
    ensures Normal(head + sep + Zeros(zeros) + run) == Normal(head + sep' + run)
  {
    var padded := Zeros(zeros) + run;
    GroupAfterSeparator(head, sep, padded);
    GroupAfterSeparator(head, sep', run);
    PaddedRun(zeros, run);
    assert head + sep + Zeros(zeros) + run == head + sep + padded;
  }

  lemma GroupAfterSeparator(head: string, sep: string, run: string)
    requires IsSeparator(sep)
    requires run != "" && forall k :: 0 <= k < |run| ==> IsDigit(run[k])
    ensures Normal(head + sep + run) == Normal(head) + StripRun(run)
  {
    hide *;
    CutAtSeparator(head, sep, run);
    PiecewiseNormal(head + sep, run);
    PiecewiseNormal(head, sep);
    SeparatorMeans(sep);
    SeparatorVanishes(sep);
    DigitRunNormal(run);
    assert Normal(head) + "" == Normal(head);
  }

  lemma SeparatorMeans(sep: string)
    requires IsSeparator(sep)
    ensures forall k :: 0 <= k < |sep| ==> !IsKept(sep[k])
  {}

  lemma CutAtSeparator(head: string, sep: string, run: string)
    requires IsSeparator(sep)
    ensures IsCut(head, sep) && IsCut(head + sep, run)
  {
    assert (head + sep)[|head + sep| - 1] == sep[|sep| - 1];
    assert !IsKept(sep[0]) && !IsKept(sep[|sep| - 1]);
  }
}
