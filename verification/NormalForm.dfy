/** The normal form read off a text: what becomes of each special character, of each other character and of
    each run of digits. */
module NormalForm {
  import opened Normalize

  /** Transliteration goes character by character. */
  function Transliterated(c: char): string {
    if c == '\U{E4}' then "ae" else if c == '\U{F6}' then "oe" else if c == '\U{FC}' then "ue"
    else if c == '\U{C4}' then "AE" else if c == '\U{D6}' then "OE" else if c == '\U{DC}' then "UE"
    else if c == '\U{DF}' then "ss" else [c]
  }

  function EachTransliterated(text: string): string {
    if text == "" then "" else Transliterated(text[0]) + EachTransliterated(text[1..])
  }

  lemma {:induction false} ReplaceConcat(a: string, b: string, src: char, dst: string)
    ensures Replace(a + b, src, dst) == Replace(a, src, dst) + Replace(b, src, dst)
  {
    if a == "" {
      assert a + b == b;
    } else {
      assert (a + b)[1..] == a[1..] + b;
      ReplaceConcat(a[1..], b, src, dst);
    }
  }

  lemma {:induction false} ReplaceAllConcat(a: string, b: string, pairs: seq<(char, string)>)
    ensures ReplaceAll(a + b, pairs) == ReplaceAll(a, pairs) + ReplaceAll(b, pairs)
    decreases |pairs|
  {
    hide Replace;
    if pairs != [] {
      ReplaceConcat(a, b, pairs[0].0, pairs[0].1);
      ReplaceAllConcat(Replace(a, pairs[0].0, pairs[0].1), Replace(b, pairs[0].0, pairs[0].1), pairs[1..]);
    }
  }

  lemma ReplaceOne(c: char, src: char, dst: string)
    ensures Replace([c], src, dst) == if c == src then dst else [c]
  {
    assert [c][1..] == "";
  }

  /** A text is left alone by replacements of characters that do not occur in it. */
  lemma {:induction false} ReplaceNothing(text: string, src: char, dst: string)
    requires src !in text
    ensures Replace(text, src, dst) == text
  {
    if text != "" {
      assert text == [text[0]] + text[1..];
      ReplaceNothing(text[1..], src, dst);
    }
  }

  lemma {:induction false} PairsNotIn(text: string, pairs: seq<(char, string)>)
    requires forall k :: 0 <= k < |pairs| ==> pairs[k].0 !in text
    ensures ReplaceAll(text, pairs) == text
    decreases |pairs|
  {
    if pairs != [] {
      ReplaceNothing(text, pairs[0].0, pairs[0].1);
      PairsNotIn(text, pairs[1..]);
    }
  }

  /** Up to its own replacement a character stays, and its replacement is not replaced again. */
  lemma {:induction false} OneReplaced(c: char, pairs: seq<(char, string)>, n: nat)
    requires n < |pairs| && pairs[n].0 == c && forall k :: 0 <= k < |pairs| && k != n ==> pairs[k].0 != c
    requires forall k :: 0 <= k < |pairs| ==> pairs[k].0 !in pairs[n].1
    ensures ReplaceAll([c], pairs) == pairs[n].1
    decreases |pairs|
  {
    hide Replace;
    ReplaceOne(c, pairs[0].0, pairs[0].1);
    if n == 0 {
      PairsNotIn(pairs[0].1, pairs[1..]);
    } else {
      OneReplaced(c, pairs[1..], n - 1);
    }
  }

  lemma OneTransliterated(c: char)
    ensures ReplaceAll([c], UMLAUTS) == Transliterated(c)
  {
    hide Replace, ReplaceAll;
    assert UMLAUTS[0].0 == '\U{E4}' && UMLAUTS[1].0 == '\U{F6}' && UMLAUTS[2].0 == '\U{FC}' && UMLAUTS[3].0 == '\U{C4}';
    assert UMLAUTS[4].0 == '\U{D6}' && UMLAUTS[5].0 == '\U{DC}' && UMLAUTS[6].0 == '\U{DF}';
    if k :| 0 <= k < |UMLAUTS| && UMLAUTS[k].0 == c {
      OneReplaced(c, UMLAUTS, k);
    } else {
      PairsNotIn([c], UMLAUTS);
    }
  }

  /** Seven replacements one after the other are one pass over the characters. */
  lemma {:induction false} TransliteratedExact(text: string)
    ensures ReplaceAll(text, UMLAUTS) == EachTransliterated(text)
  {
    hide ReplaceAll, Transliterated;
    if text == "" {
      PairsNotIn("", UMLAUTS);
    } else {
      assert text == [text[0]] + text[1..];
      ReplaceAllConcat([text[0]], text[1..], UMLAUTS);
      OneTransliterated(text[0]);
      TransliteratedExact(text[1..]);
    }
  }

  /** A character that is not a digit stays when it is one of A to Z and disappears otherwise. */
  lemma NormalOfCharacter(c: char)
    requires !('0' <= c <= '9')
    ensures Normal([c]) == if 'A' <= c <= 'Z' then [c] else ""
  {
    ScannerStep([c]);
    assert [c][1..] == "";
  }

  /** A run of digits loses its leading zeros; of zeros alone one stays. */
  lemma NormalOfDigits(run: string)
    requires run != "" && forall k :: 0 <= k < |run| ==> '0' <= run[k] <= '9'
    ensures exists z: nat :: IsZeroPrefix(run, z) && Normal(run) == if z == |run| then "0" else run[z..]
  {
    hide IsZeroPrefix, LStripZeros, Normal;
    DigitRunNormal(run);
    var z := ZeroPrefix(run);
    assert run[z..] == "" <==> z == |run| by {
      PrefixInside(run, z);
    }
  }

  predicate IsZeroPrefix(run: string, z: nat) {
    z <= |run| && (forall k :: 0 <= k < z ==> run[k] == '0') && (z < |run| ==> run[z] != '0')
  }

  lemma PrefixInside(run: string, z: nat)
    requires IsZeroPrefix(run, z)
    ensures z <= |run|
  {}

  lemma ZeroPrefix(run: string) returns (z: nat)
    ensures IsZeroPrefix(run, z) && LStripZeros(run) == run[z..]
  {
    z := 0;
    while z < |run| && run[z] == '0'
      invariant z <= |run| && (forall k :: 0 <= k < z ==> run[k] == '0') && LStripZeros(run) == LStripZeros(run[z..])
    {
      assert run[z..][1..] == run[z + 1..];
      z := z + 1;
    }
  }

  /** An IBAN is compared without its white space and in upper case. */
  lemma {:induction false} SpaceRemoved(p: Platform, a: string, b: string, c: char)
    ensures RemoveSpace(p, a + b) == RemoveSpace(p, a) + RemoveSpace(p, b)
    ensures RemoveSpace(p, [c]) == if p.isSpace(c) then "" else [c]
    ensures Iban(p, a) == p.upper(RemoveSpace(p, a))
  {
    assert [c][1..] == "" && RemoveSpace(p, "") == "";
    if a == "" {
      assert a + b == b;
    } else {
      assert (a + b)[1..] == a[1..] + b;
      SpaceRemoved(p, a[1..], b, c);
    }
  }
}
