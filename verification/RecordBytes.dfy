/** The bytes of encoded fields, character by character and half-byte by half-byte. */
module RecordBytes {
  import opened Common
  import opened Copybook
  import opened Decimals
  import opened Records

  /** The decimal digit of a number at the given place, the units being place 0. */
  function DigitAt(m: nat, place: nat): int {
    m / Pow10(place) % 10
  }

  lemma {:induction false} FixedDigitAt(m: nat, n: nat, k: nat)
    requires k < n
    ensures FixedDigits(m, n)[k] == DigitAt(m, n - 1 - k)
  {
    hide High, DigitAt;
    HighDigit(m, n - 1 - k);
    if k < n - 1 {
      HighDigit(m / 10, n - 2 - k);
      FixedDigitAt(m / 10, n - 1, k);
      LowStep(m, n - 1 - k);
    } else {
      HighNone(m);
    }
  }

  lemma HighDigit(m: nat, place: nat)
    ensures DigitAt(m, place) == High(m, place) % 10
  {}

  lemma HighNone(m: nat)
    ensures High(m, 0) == m
  {}

  lemma TextDigitAt(m: nat, p: Pic, k: nat)
    requires IsPic(p) && m < Pow10(p.digits) && k < TextLength(p)
    ensures |DigitText(m, p)| == TextLength(p)
    ensures DigitText(m, p)[k] == DigitAt(m, TextLength(p) - 1 - k)
  {
    hide Pow10, FixedDigits, DigitText, High, DigitAt;
    DigitTextExact(m, p);
    if IntegerDigits(p) >= 1 {
      FixedDigitAt(m, p.digits, k);
    } else if k > 0 {
      FixedDigitAt(m, p.digits, k - 1);
    } else {
      HighDigit(m, p.digits);
      HighOfLow(m, p.digits);
    }
  }

  /** A zoned number is written digit by digit as ASCII characters; on a signed field the last character is
      the one of the positive zone, whatever the sign of the number. */
  lemma ZonedBytes(v: Dec, p: Pic, k: nat)
    requires IsPic(p) && FitToPic(v, p).Some? && k < TextLength(p)
    ensures EncodeDisplay(v, p).Some? && |EncodeDisplay(v, p).value| == TextLength(p)
    ensures var (raw, digit) := (EncodeDisplay(v, p).value, DigitAt(Abs(FitToPic(v, p).value), TextLength(p) - 1 - k));
      && 0 <= digit <= 9
      && raw[k] == if p.signed && k == |raw| - 1 then "{ABCDEFGHI"[digit] as int else "0123456789"[digit] as int
  {
    hide FitToPic, DigitText, TextLength, DigitAt, EncodeDisplay, Pow10;
    EncodedText(v, p);
    FitInRange(v, p);
    TextDigitAt(Abs(FitToPic(v, p).value), p, k);
    DigitRange(Abs(FitToPic(v, p).value), TextLength(p) - 1 - k);
  }

  lemma DigitRange(m: nat, place: nat)
    ensures 0 <= DigitAt(m, place) <= 9
  {
    hide Pow10;
  }

  lemma NibbleValues(ds: seq<int>, sign: int, k: nat)
    requires AreDigits(ds) && 0 <= sign < 16 && k < |Nibbles(ds, sign)|
    ensures var n := Nibbles(ds, sign);
      && |n| == 2 * ((|ds| + 2) / 2) && 0 <= n[k] < 16
      && n[k] == if k == |n| - 1 then sign else if k < |n| - 1 - |ds| then 0 else ds[k - (|n| - 1 - |ds|)]
  {}

  lemma PackedNibble(nibbles: seq<int>, k: nat)
    requires |nibbles| % 2 == 0 && k < |nibbles| && forall j :: 0 <= j < |nibbles| ==> 0 <= nibbles[j] < 16
    ensures |Pack(nibbles)| == |nibbles| / 2
    ensures nibbles[k] == if k % 2 == 0 then Pack(nibbles)[k / 2] / 16 else Pack(nibbles)[k / 2] % 16
  {
    var h := k / 2;
    assert Pack(nibbles)[h] == nibbles[2 * h] * 16 + nibbles[2 * h + 1];
    assert k == 2 * h || k == 2 * h + 1;
  }

  /** A packed number is written digit by digit, two to a byte; its last half-byte is 13 for a negative number,
      12 for another one of a signed field and 15 on an unsigned field. */
  lemma PackedBytes(v: Dec, p: Pic, k: nat)
    requires IsPic(p) && FitToPic(v, p).Some? && k < 2 * ((TextLength(p) + 2) / 2)
    ensures EncodeComp3(v, p).Some? && |EncodeComp3(v, p).value| == (TextLength(p) + 2) / 2
    ensures var (raw, c) := (EncodeComp3(v, p).value, FitToPic(v, p).value);
      var (place, half) := (2 * |raw| - 2 - k, if k % 2 == 0 then raw[k / 2] / 16 else raw[k / 2] % 16);
      if place >= 0 then half == DigitAt(Abs(c), place)
      else half == if c < 0 then 13 else if p.signed then 12 else 15
  {
    hide FitToPic, DigitText, TextLength, DigitAt, EncodeComp3, Pow10, Pack, Nibbles;
    var c := FitToPic(v, p).value;
    var (ds, sign) := (DigitText(Abs(c), p), SignNibble(c, p.signed));
    EncodedNibbles(v, p);
    FitInRange(v, p);
    DigitTextExact(Abs(c), p);
    NibblesInRange(ds, sign);
    NibbleValues(ds, sign, k);
    PackedNibble(Nibbles(ds, sign), k);
    var pad := 2 * ((|ds| + 2) / 2) - 1 - |ds|;
    if pad <= k < pad + |ds| {
      TextDigitAt(Abs(c), p, k - pad);
    } else if k < pad {
      BeyondText(Abs(c), p);
    }
  }

  lemma TenTimes(n: nat)
    ensures Pow10(n + 1) == 10 * Pow10(n)
  {}

  /** Past the written digits there are only zeros. */
  lemma BeyondText(m: nat, p: Pic)
    requires IsPic(p) && m < Pow10(p.digits)
    ensures DigitAt(m, TextLength(p)) == 0
  {
    hide Pow10, High;
    HighDigit(m, TextLength(p));
    if IntegerDigits(p) < 1 {
      TenTimes(p.digits);
    }
    HighOfLow(m, TextLength(p));
  }

  // ---------------------------------------------------------------- what can be stored

  /** A text can be stored when the characters that fit are ASCII. */
  lemma TextStored(v: Value, p: Pic, conv: Conversions)
    requires p.kind == Alnum
    ensures EncodeField(v, p, conv).Some? <==>
      forall k :: 0 <= k < |AsText(v, conv)| && k < Length(p) ==> 0 <= AsText(v, conv)[k] < 128
  {
    var (text, cut) := (AsText(v, conv), LJustCut(AsText(v, conv), Length(p)));
    assert forall k :: 0 <= k < |text| && k < Length(p) ==> cut[k] == text[k];
  }

  /** A field whose name has no value holds blanks, or zero. */
  lemma MissingValue(f: Field, values: map<string, Value>, conv: Conversions)
    requires f.name !in values && IsPic(f.pic)
    ensures f.pic.kind == Alnum ==> StoredIn(f, values, conv) == Some(Text(seq(f.pic.digits, _ => 32)))
    ensures f.pic.kind == Num ==> StoredIn(f, values, conv) == Some(Number(Dec(0, f.pic.scale)))
  {
    hide Pow10;
    if f.pic.kind == Alnum {
      assert LJustCut([], f.pic.digits) == seq(f.pic.digits, _ => 32);
    } else {
      FitMeaning(Dec(0, 0), f.pic);
      LowFits(0, f.pic.digits);
      ContextStart();
      assert 0 * Pow10(f.pic.scale) == 0;
    }
  }

  lemma ContextStart()
    ensures Pow10(PRECISION) > 0
  {}

  // ---------------------------------------------------------------- reading

  /** The characters that stand for a digit at the end of a signed field: either zone, or a plain digit. */
  predicate StandsFor(b: int, digit: int)
    requires 0 <= digit <= 9
  {
    b == "{ABCDEFGHI"[digit] as int || b == "}JKLMNOPQR"[digit] as int || b == "0123456789"[digit] as int
  }

  lemma OverpunchSound(b: int)
    ensures OverpunchDigit(b).Some? ==> 0 <= OverpunchDigit(b).value <= 9 && StandsFor(b, OverpunchDigit(b).value)
  {}

  lemma OverpunchComplete(b: int, digit: int)
    requires 0 <= digit <= 9 && StandsFor(b, digit)
    ensures OverpunchDigit(b) == Some(digit)
  {}

  /** A zoned field is read exactly when all its characters are digits, the last one of a signed field, which
      must not be alone, in either zone; the zone does not count for the number. */
  lemma ZonedRead(raw: Bytes, p: Pic, v: Dec)
    ensures DecodeDisplay(raw, p) == Some(v) <==>
      && raw != [] && v.scale == p.scale
      && (forall k :: 0 <= k < |raw| - 1 ==> 48 <= raw[k] <= 57)
      && (!p.signed ==> 48 <= raw[|raw| - 1] <= 57 && v.coeff == ToInt(seq(|raw|, k requires 0 <= k < |raw| => raw[k] - 48)))
      && (p.signed ==>
            && |raw| >= 2
            && var (last, front) := (raw[|raw| - 1], ToInt(seq(|raw| - 1, k requires 0 <= k < |raw| - 1 => raw[k] - 48)));
            exists d :: 0 <= d <= 9 && StandsFor(last, d) && v.coeff == 10 * front + d)
  {
    hide OverpunchDigit, StandsFor;
    if raw != [] {
      var (body, last) := (raw[..|raw| - 1], raw[|raw| - 1]);
      OverpunchSound(last);
      forall d | 0 <= d <= 9 && StandsFor(last, d)
        ensures OverpunchDigit(last) == Some(d)
      {
        OverpunchComplete(last, d);
      }
      assert FromAscii(body) == seq(|raw| - 1, k requires 0 <= k < |raw| - 1 => raw[k] - 48);
      assert FromAscii(raw) == seq(|raw|, k requires 0 <= k < |raw| => raw[k] - 48);
      if OverpunchDigit(last).Some? {
        var ds := FromAscii(body) + [OverpunchDigit(last).value];
        assert ds[..|ds| - 1] == FromAscii(body);
      }
    }
  }

  /** The decimal context has 28 digits: a number that needs more of them in the field's scale is an error. */
  lemma ContextDigits(v: Dec, p: Pic)
    ensures FitToPic(v, p).None? <==> Abs(Quantize(v, p.scale)) >= Pow10(28)
  {
    hide Pow10, Quantize;
  }

  // ---------------------------------------------------------------- in a record

  /** Where a field lies in an encoded record, and what was stored in it. */
  lemma FieldInRecord(l: Layout, values: map<string, Value>, conv: Conversions, k: nat)
    requires IsLayout(l) && Encoded(l, values, conv).Some? && k < |l.fields|
    ensures var (f, record) := (l.fields[k], Encoded(l, values, conv).value);
      && IsPic(f.pic) && Fills(f.pic)
      && |record| == l.recordLength && f.offset + Length(f.pic) <= |record|
      && EncodeField(ValueFor(values, f), f.pic, conv) == Some(record[f.offset..f.offset + Length(f.pic)])
      && StoredIn(f, values, conv).Some?
  {
    hide EncodeFields, EncodeField, Fills, Stored, ValueFor, IsPic, Length;
    EncodeSucceeds(l, values, conv);
    assert l.fields[..|l.fields|] == l.fields;
    EncodedSlice(l.fields, |l.fields|, k, values, conv);
    EndsGrow(l.fields, k, |l.fields| - 1);
  }

  /** The character at position i of a DISPLAY field of an encoded record: of a text the character itself or
      a blank behind it; of a number its digit, in the positive zone at the end of a signed field. */
  lemma DisplayCharacter(l: Layout, values: map<string, Value>, conv: Conversions, k: nat, i: nat)
    requires IsLayout(l) && Encoded(l, values, conv).Some? && k < |l.fields|
    requires l.fields[k].pic.usage == Display && i < l.fields[k].pic.digits
    ensures var (f, record) := (l.fields[k], Encoded(l, values, conv).value);
      && f.offset + i < |record|
      && (f.pic.kind == Alnum ==>
            var text := AsText(ValueFor(values, f), conv);
            record[f.offset + i] == if i < |text| then text[i] else 32)
      && (f.pic.kind == Num ==>
            && StoredIn(f, values, conv).Some? && StoredIn(f, values, conv).value.Number?
            && var digit := DigitAt(Abs(StoredIn(f, values, conv).value.number.coeff), f.pic.digits - 1 - i);
               0 <= digit <= 9 && record[f.offset + i] ==
                 if f.pic.signed && i == f.pic.digits - 1 then "{ABCDEFGHI"[digit] as int else "0123456789"[digit] as int)
  {
    hide IsLayout, Encoded, EncodeDisplay, FitToPic, DigitAt, ValueFor;
    FieldInRecord(l, values, conv, k);
    var (f, record) := (l.fields[k], Encoded(l, values, conv).value);
    assert record[f.offset..f.offset + f.pic.digits][i] == record[f.offset + i];
    if f.pic.kind == Num {
      ZonedBytes(AsNumber(ValueFor(values, f), conv).value, f.pic, i);
    }
  }

  /** Half-byte i of a packed field of an encoded record. */
  lemma PackedHalf(l: Layout, values: map<string, Value>, conv: Conversions, k: nat, i: nat)
    requires IsLayout(l) && Encoded(l, values, conv).Some? && k < |l.fields|
    requires l.fields[k].pic.usage == Comp3 && l.fields[k].pic.kind == Num && i < 2 * Length(l.fields[k].pic)
    ensures var (f, record) := (l.fields[k], Encoded(l, values, conv).value);
      && f.offset + i / 2 < |record|
      && StoredIn(f, values, conv).Some? && StoredIn(f, values, conv).value.Number?
      && var (c, b) := (StoredIn(f, values, conv).value.number.coeff, record[f.offset + i / 2]);
         var (place, half) := (2 * Length(f.pic) - 2 - i, if i % 2 == 0 then b / 16 else b % 16);
         if place >= 0 then half == DigitAt(Abs(c), place)
         else half == if c < 0 then 13 else if f.pic.signed then 12 else 15
  {
    hide IsLayout, Encoded, EncodeComp3, FitToPic, DigitAt, ValueFor;
    FieldInRecord(l, values, conv, k);
    var (f, record) := (l.fields[k], Encoded(l, values, conv).value);
    var b := record[f.offset..f.offset + Length(f.pic)][i / 2];
    assert b == record[f.offset + i / 2];
    PackedBytes(AsNumber(ValueFor(values, f), conv).value, f.pic, i);
  }
}
