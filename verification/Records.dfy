/** Record layouts: field offsets, encoding and decoding one record, splitting a dataset. */
module Records {
  import opened Common
  import opened Copybook
  import opened Decimals

  /** A value of a record's dictionary; characters are code points. */
  datatype Value = Nothing | Text(chars: seq<int>) | Number(number: Dec)

  /** Text of a number, and the number a text spells if any. */
  datatype Conversions = Conversions(textOf: Dec -> seq<int>, numberOf: seq<int> -> Option<Dec>)

  datatype Field = Field(name: string, pic: Pic, offset: nat)

  datatype Layout = Layout(fields: seq<Field>, recordLength: nat, terminator: Bytes)

  // ---------------------------------------------------------------- one field

  const BLANK := 32

  function LJustCut(text: seq<int>, n: nat): (r: seq<int>)
    ensures |r| == n
  {
    if |text| < n then text + seq(n - |text|, _ => BLANK) else text[..n]
  }

  predicate IsAscii(text: seq<int>) {
    forall k :: 0 <= k < |text| ==> 0 <= text[k] < 128
  }

  function AsText(v: Value, conv: Conversions): seq<int> {
    match v
    case Nothing => []
    case Text(chars) => chars
    case Number(d) => conv.textOf(d)
  }

  function AsNumber(v: Value, conv: Conversions): Option<Dec> {
    match v
    case Nothing => None
    case Text(chars) => conv.numberOf(chars)
    case Number(d) => Some(d)
  }

  function EncodeField(v: Value, p: Pic, conv: Conversions): Option<Bytes> {
    if p.kind == Alnum then
      var text := LJustCut(AsText(v, conv), Length(p));
      if IsAscii(text) then Some(text) else None
    else
      match AsNumber(v, conv)
      case None => None
      case Some(d) => if p.usage == Comp3 then EncodeComp3(d, p) else EncodeDisplay(d, p)
  }

  function DecodeField(raw: Bytes, p: Pic): Option<Value> {
    if p.kind == Alnum then
      if IsAscii(raw) then Some(Text(raw)) else None
    else
      match if p.usage == Comp3 then DecodeComp3(raw, p) else DecodeDisplay(raw, p)
      case None => None
      case Some(d) => Some(Number(d))
  }

  /** What a field holds once a value is stored in it: text padded or cut, a number fitted to its PIC. */
  function Stored(v: Value, p: Pic, conv: Conversions): Option<Value> {
    if p.kind == Alnum then
      var text := LJustCut(AsText(v, conv), Length(p));
      if IsAscii(text) then Some(Text(text)) else None
    else
      match AsNumber(v, conv)
      case None => None
      case Some(d) =>
        match FitToPic(d, p)
        case None => None
        case Some(c) => Some(Number(Dec(c, p.scale)))
  }

  /** The fields whose encoding has exactly the width the layout gives them. */
  predicate Fills(p: Pic) {
    p.kind == Alnum || IntegerDigits(p) >= 1 || (p.usage == Comp3 && p.digits % 2 == 0)
  }

  /** A value survives its field unless the field is zoned, signed, and either the number is negative
      or there is room for one character only. */
  predicate Survives(stored: Option<Value>, p: Pic) {
    p.kind == Num && p.usage == Display && p.signed && stored.Some? && stored.value.Number?
    ==> stored.value.number.coeff >= 0 && p.digits >= 2
  }

  lemma FieldRoundTrip(v: Value, p: Pic, conv: Conversions)
    requires IsPic(p)
    ensures EncodeField(v, p, conv).Some? <==> Stored(v, p, conv).Some?
    ensures EncodeField(v, p, conv).Some? ==>
      var raw := EncodeField(v, p, conv).value;
      && |raw| >= Length(p)
      && (|raw| == Length(p) <==> Fills(p))
      && (Fills(p) ==> (DecodeField(raw, p) == Stored(v, p, conv) <==> Survives(Stored(v, p, conv), p)))
  {
    hide FitToPic, EncodeDisplay, DecodeDisplay, EncodeComp3, DecodeComp3, LJustCut, IsAscii;
    if p.kind == Num && AsNumber(v, conv).Some? {
      var d := AsNumber(v, conv).value;
      if FitToPic(d, p).Some? {
        NumberRoundTrip(d, p);
      } else {
        NotEncoded(d, p);
      }
    }
  }

  lemma NumberRoundTrip(d: Dec, p: Pic)
    requires IsPic(p) && p.kind == Num && FitToPic(d, p).Some?
    ensures var e := if p.usage == Comp3 then EncodeComp3(d, p) else EncodeDisplay(d, p);
      && e.Some? && |e.value| >= Length(p) && (|e.value| == Length(p) <==> Fills(p))
      && var back := if p.usage == Comp3 then DecodeComp3(e.value, p) else DecodeDisplay(e.value, p);
      var c := Dec(FitToPic(d, p).value, p.scale);
      Fills(p) ==> (back == Some(c) <==> Survives(Some(Number(c)), p))
  {
    hide FitToPic, EncodeDisplay, DecodeDisplay, EncodeComp3, DecodeComp3;
    if p.usage == Comp3 {
      Comp3RoundTrip(d, p);
      Comp3Width(d, p);
    } else {
      DisplayDecoded(d, p);
      DisplayRoundTrip(d, p);
    }
  }

  lemma Comp3Width(d: Dec, p: Pic)
    requires IsPic(p) && p.kind == Num && p.usage == Comp3 && FitToPic(d, p).Some?
    ensures EncodeComp3(d, p).Some? && |EncodeComp3(d, p).value| >= Length(p)
  {
    hide FitToPic, DigitText, EncodeComp3, Pack, Nibbles;
    EncodedNibbles(d, p);
    FitInRange(d, p);
    var c := FitToPic(d, p).value;
    DigitTextExact(Abs(c), p);
    NibblesInRange(DigitText(Abs(c), p), SignNibble(c, p.signed));
    PackLength(Nibbles(DigitText(Abs(c), p), SignNibble(c, p.signed)));
  }

  lemma NotEncoded(d: Dec, p: Pic)
    requires FitToPic(d, p).None?
    ensures EncodeComp3(d, p).None? && EncodeDisplay(d, p).None?
  {
    hide FitToPic;
  }

  // ---------------------------------------------------------------- layouts

  function Width(specs: seq<(string, Pic)>): nat {
    if specs == [] then 0 else Width(specs[..|specs| - 1]) + Length(specs[|specs| - 1].1)
  }

  function Specs(fields: seq<Field>): seq<(string, Pic)> {
    seq(|fields|, k requires 0 <= k < |fields| => (fields[k].name, fields[k].pic))
  }

  function End(f: Field): nat {
    f.offset + Length(f.pic)
  }

  predicate Follows(fields: seq<Field>, k: nat)
    requires k < |fields|
  {
    fields[k].offset == if k == 0 then 0 else End(fields[k - 1])
  }

  /** The first `n` fields lie one after the other from the start of the record. */
  predicate Laid(fields: seq<Field>, n: nat)
    requires n <= |fields|
  {
    forall k: nat :: k < n ==> Follows(fields, k)
  }

  predicate IsLayout(l: Layout) {
    Laid(l.fields, |l.fields|) && l.recordLength == (if l.fields == [] then 0 else End(l.fields[|l.fields| - 1]))
    && forall k :: 0 <= k < |l.fields| ==> IsPic(l.fields[k].pic)
  }

  lemma WidthStep(specs: seq<(string, Pic)>, i: nat)
    requires i < |specs|
    ensures Width(specs[..i + 1]) == Width(specs[..i]) + Length(specs[i].1)
  {
    assert specs[..i + 1][..i] == specs[..i];
  }

  lemma LaidAppend(fields: seq<Field>, f: Field)
    requires Laid(fields, |fields|) && f.offset == (if fields == [] then 0 else End(fields[|fields| - 1]))
    ensures Laid(fields + [f], |fields| + 1) && Specs(fields + [f]) == Specs(fields) + [(f.name, f.pic)]
  {
    var all := fields + [f];
    forall k: nat | k < |all|
      ensures Follows(all, k)
    {
      if k < |fields| {
        assert Follows(fields, k) && all[k] == fields[k];
      }
    }
  }

  method MakeLayout(specs: seq<(string, Pic)>, terminator: Bytes) returns (l: Layout)
    requires forall k :: 0 <= k < |specs| ==> IsPic(specs[k].1)
    ensures IsLayout(l) && Specs(l.fields) == specs && l.terminator == terminator && l.recordLength == Width(specs)
  {
    hide Length, Laid, Width, IsPic;
    var fields: seq<Field> := [];
    var offset := 0;
    EmptyLayout();
    for i := 0 to |specs|
      invariant Specs(fields) == specs[..i] && Laid(fields, |fields|) && offset == Width(specs[..i])
      invariant offset == if fields == [] then 0 else End(fields[|fields| - 1])
    {
      var f := Field(specs[i].0, specs[i].1, offset);
      LaidAppend(fields, f);
      WidthStep(specs, i);
      fields := fields + [f];
      offset := offset + Length(specs[i].1);
    }
    assert specs[..|specs|] == specs;
    SpecsArePics(fields);
    l := Layout(fields, offset, terminator);
  }

  lemma EmptyLayout()
    ensures Laid([], 0) && Width([]) == 0
  {}

  lemma SpecsArePics(fields: seq<Field>)
    ensures (forall k :: 0 <= k < |fields| ==> IsPic(fields[k].pic)) <==> forall k :: 0 <= k < |fields| ==> IsPic(Specs(fields)[k].1)
  {
    hide IsPic;
    var specs := Specs(fields);
    assert forall k :: 0 <= k < |fields| ==> specs[k].1 == fields[k].pic;
  }

  lemma {:induction false} EndsGrow(fields: seq<Field>, j: nat, k: nat)
    requires j <= k < |fields| && Laid(fields, |fields|)
    ensures fields[j].offset <= fields[k].offset && End(fields[j]) <= End(fields[k])
    ensures j < k ==> End(fields[j]) <= fields[k].offset
  {
    if j < k {
      assert Follows(fields, k);
      EndsGrow(fields, j, k - 1);
    }
  }

  /** Field slices tile the record: every byte belongs to exactly one field. */
  lemma FieldsTile(l: Layout, i: nat)
    requires IsLayout(l) && i < l.recordLength
    ensures exists k: nat :: k < |l.fields| && l.fields[k].offset <= i < End(l.fields[k])
    ensures forall j: nat, k: nat ::
      j < |l.fields| && k < |l.fields| && l.fields[j].offset <= i < End(l.fields[j]) && l.fields[k].offset <= i < End(l.fields[k]) ==> j == k
  {
    var k := FieldAt(l.fields, |l.fields| - 1, i);
    forall j: nat, k: nat | j < |l.fields| && k < |l.fields| && l.fields[j].offset <= i < End(l.fields[j]) && l.fields[k].offset <= i < End(l.fields[k])
      ensures j == k
    {
      EndsGrow(l.fields, if j < k then j else k, if j < k then k else j);
    }
  }

  lemma {:induction false} FieldAt(fields: seq<Field>, n: nat, i: nat) returns (k: nat)
    requires n < |fields| && Laid(fields, |fields|) && i < End(fields[n])
    ensures k <= n && fields[k].offset <= i < End(fields[k])
  {
    assert Follows(fields, n);
    if fields[n].offset <= i {
      k := n;
    } else {
      k := FieldAt(fields, n - 1, i);
    }
  }

  // ---------------------------------------------------------------- one record

  function ValueFor(values: map<string, Value>, f: Field): Value {
    if f.name in values then values[f.name]
    else if f.pic.kind == Alnum then Text([]) else Number(Dec(0, 0))
  }

  function EncodeFields(fields: seq<Field>, values: map<string, Value>, conv: Conversions): Option<Bytes> {
    if fields == [] then Some([])
    else
      var f := fields[|fields| - 1];
      match EncodeFields(fields[..|fields| - 1], values, conv)
      case None => None
      case Some(out) =>
        match EncodeField(ValueFor(values, f), f.pic, conv)
        case None => None
        case Some(raw) => Some(out + raw)
  }

  function Encoded(l: Layout, values: map<string, Value>, conv: Conversions): Option<Bytes> {
    match EncodeFields(l.fields, values, conv)
    case None => None
    case Some(out) => if |out| == l.recordLength then Some(out) else None
  }

  /** Encodes one record; None for a value that cannot be stored or an encoding of the wrong length. */
  method Encode(l: Layout, values: map<string, Value>, conv: Conversions) returns (r: Option<Bytes>)
    ensures r == match Encoded(l, values, conv) case None => None case Some(out) => Some(out + l.terminator)
  {
    hide EncodeField;
    var out: Bytes := [];
    for i := 0 to |l.fields|
      invariant EncodeFields(l.fields[..i], values, conv) == Some(out)
    {
      var f := l.fields[i];
      var raw := EncodeField(ValueFor(values, f), f.pic, conv);
      EncodeFieldsStep(l.fields, i, values, conv);
      if raw.None? {
        EncodeFieldsStuck(l.fields, i + 1, values, conv);
        return None;
      }
      out := out + raw.value;
    }
    assert l.fields[..|l.fields|] == l.fields;
    if |out| != l.recordLength {
      return None;
    }
    r := Some(out + l.terminator);
  }

  lemma EncodeFieldsStep(fields: seq<Field>, i: nat, values: map<string, Value>, conv: Conversions)
    requires i < |fields|
    ensures EncodeFields(fields[..i + 1], values, conv) ==
      match EncodeFields(fields[..i], values, conv)
      case None => None
      case Some(out) =>
        match EncodeField(ValueFor(values, fields[i]), fields[i].pic, conv)
        case None => None
        case Some(raw) => Some(out + raw)
  {
    hide EncodeField, ValueFor;
    assert fields[..i + 1][..i] == fields[..i];
  }

  lemma {:induction false} EncodeFieldsStuck(fields: seq<Field>, i: nat, values: map<string, Value>, conv: Conversions)
    requires i <= |fields| && EncodeFields(fields[..i], values, conv).None?
    ensures EncodeFields(fields, values, conv).None?
    decreases |fields| - i
  {
    hide EncodeField;
    if i < |fields| {
      EncodeFieldsStep(fields, i, values, conv);
      EncodeFieldsStuck(fields, i + 1, values, conv);
    } else {
      assert fields[..i] == fields;
    }
  }

  function StoredIn(f: Field, values: map<string, Value>, conv: Conversions): Option<Value> {
    Stored(ValueFor(values, f), f.pic, conv)
  }

  function Position(fields: seq<Field>, n: nat): nat
    requires n <= |fields|
  {
    if n == 0 then 0 else End(fields[n - 1])
  }

  /** An encoding never falls short of its field's width, so the lengths add up only if each one fits. */
  lemma {:induction false} EncodedLength(fields: seq<Field>, n: nat, values: map<string, Value>, conv: Conversions)
    requires n <= |fields| && Laid(fields, |fields|) && forall k: nat :: k < |fields| ==> IsPic(fields[k].pic)
    ensures EncodeFields(fields[..n], values, conv).Some? <==> forall k: nat :: k < n ==> StoredIn(fields[k], values, conv).Some?
    ensures EncodeFields(fields[..n], values, conv).Some? ==>
      var out := EncodeFields(fields[..n], values, conv).value;
      |out| >= Position(fields, n) && (|out| == Position(fields, n) <==> forall k: nat :: k < n ==> Fills(fields[k].pic))
  {
    hide EncodeField, ValueFor, Fills, EncodeFields, Stored, IsPic, Length;
    if n == 0 {
      EncodeNone(values, conv);
    } else {
      var f := fields[n - 1];
      EncodedLength(fields, n - 1, values, conv);
      EncodeFieldsStep(fields, n - 1, values, conv);
      FieldRoundTrip(ValueFor(values, f), f.pic, conv);
      assert Follows(fields, n - 1);
    }
  }

  lemma EncodeNone(values: map<string, Value>, conv: Conversions)
    ensures EncodeFields([], values, conv) == Some([])
  {}

  /** Encoding succeeds exactly when every value can be stored and every numeric field has room for the
      digits its formatter writes. */
  lemma EncodeSucceeds(l: Layout, values: map<string, Value>, conv: Conversions)
    requires IsLayout(l)
    ensures Encoded(l, values, conv).Some? <==>
      forall k: nat :: k < |l.fields| ==> StoredIn(l.fields[k], values, conv).Some? && Fills(l.fields[k].pic)
    ensures Encoded(l, values, conv).Some? ==> |Encoded(l, values, conv).value| == l.recordLength
  {
    hide EncodeFields, StoredIn, Fills, IsPic;
    EncodedLength(l.fields, |l.fields|, values, conv);
    assert l.fields[..|l.fields|] == l.fields;
  }

  /** Python slicing: bounds past the end are cut. */
  function Slice(f: Field, record: Bytes): Bytes {
    var lo, hi := if f.offset <= |record| then f.offset else |record|, if End(f) <= |record| then End(f) else |record|;
    record[lo..hi]
  }

  lemma {:induction false} EncodedSlice(fields: seq<Field>, n: nat, k: nat, values: map<string, Value>, conv: Conversions)
    requires k < n <= |fields| && Laid(fields, |fields|)
    requires forall j: nat :: j < |fields| ==> IsPic(fields[j].pic) && Fills(fields[j].pic)
    requires EncodeFields(fields[..n], values, conv).Some?
    ensures EncodeField(ValueFor(values, fields[k]), fields[k].pic, conv)
         == Some(Slice(fields[k], EncodeFields(fields[..n], values, conv).value))
  {
    hide EncodeField, ValueFor, Fills, EncodeFields, StoredIn, IsPic, Length;
    var f := fields[n - 1];
    EncodeFieldsStep(fields, n - 1, values, conv);
    EncodedLength(fields, n - 1, values, conv);
    EncodedLength(fields, n, values, conv);
    assert Follows(fields, n - 1);
    var (front, out) := (EncodeFields(fields[..n - 1], values, conv).value, EncodeFields(fields[..n], values, conv).value);
    var raw := EncodeField(ValueFor(values, f), f.pic, conv).value;
    assert out == front + raw;
    if k == n - 1 {
      assert Slice(f, out) == raw;
    } else {
      EncodedSlice(fields, n - 1, k, values, conv);
      EndsGrow(fields, k, n - 2);
      assert Slice(fields[k], out) == Slice(fields[k], front);
    }
  }

  /** In an encoded record each field's slice decodes to the stored value exactly when it survives. */
  lemma EveryFieldBack(l: Layout, values: map<string, Value>, conv: Conversions, k: nat)
    requires IsLayout(l) && Encoded(l, values, conv).Some? && k < |l.fields|
    ensures StoredIn(l.fields[k], values, conv).Some?
    ensures var f := l.fields[k];
      var back := DecodeField(Slice(f, Encoded(l, values, conv).value), f.pic);
      back == StoredIn(f, values, conv) <==> Survives(StoredIn(f, values, conv), f.pic)
  {
    hide EncodeFields, Fills, IsPic, Slice, DecodeField, EncodeField, Stored, ValueFor, Survives;
    var f := l.fields[k];
    EncodeSucceeds(l, values, conv);
    assert l.fields[..|l.fields|] == l.fields;
    EncodedSlice(l.fields, |l.fields|, k, values, conv);
    FieldRoundTrip(ValueFor(values, f), f.pic, conv);
  }

  function DecodeFields(fields: seq<Field>, record: Bytes): Option<map<string, Value>> {
    if fields == [] then Some(map[])
    else
      var f := fields[|fields| - 1];
      match DecodeFields(fields[..|fields| - 1], record)
      case None => None
      case Some(m) =>
        match DecodeField(Slice(f, record), f.pic)
        case None => None
        case Some(v) => Some(m[f.name := v])
  }

  function Decode(l: Layout, record: Bytes): Option<map<string, Value>> {
    if |record| != l.recordLength then None else DecodeFields(l.fields, record)
  }

  /** The field a name stands for: the last one that bears it. */
  function ByName(fields: seq<Field>, name: string): Option<Field> {
    if fields == [] then None
    else if fields[|fields| - 1].name == name then Some(fields[|fields| - 1])
    else ByName(fields[..|fields| - 1], name)
  }

  /** Decoding an encoded record gives under every name what its field stored. */
  lemma RecordRoundTrip(l: Layout, values: map<string, Value>, conv: Conversions)
    requires IsLayout(l) && Encoded(l, values, conv).Some?
    requires forall k: nat :: k < |l.fields| ==> Survives(StoredIn(l.fields[k], values, conv), l.fields[k].pic)
    ensures Decode(l, Encoded(l, values, conv).value).Some?
    ensures var m := Decode(l, Encoded(l, values, conv).value).value;
      && (forall name :: name in m <==> ByName(l.fields, name).Some?)
      && (forall name :: name in m ==> Some(m[name]) == StoredIn(ByName(l.fields, name).value, values, conv))
  {
    hide Encoded, IsPic, DecodeField, Slice, StoredIn, Survives, DecodeFields, ByName;
    var record := Encoded(l, values, conv).value;
    forall k: nat | k < |l.fields|
      ensures StoredIn(l.fields[k], values, conv).Some?
      ensures DecodeField(Slice(l.fields[k], record), l.fields[k].pic) == StoredIn(l.fields[k], values, conv)
    {
      EveryFieldBack(l, values, conv, k);
    }
    EncodeSucceeds(l, values, conv);
    DecodedFields(l.fields, |l.fields|, record, values, conv);
    assert l.fields[..|l.fields|] == l.fields;
  }

  lemma {:induction false} DecodedFields(fields: seq<Field>, n: nat, record: Bytes, values: map<string, Value>, conv: Conversions)
    requires n <= |fields|
    requires forall k: nat :: k < n ==> StoredIn(fields[k], values, conv).Some?
    requires forall k: nat :: k < n ==> DecodeField(Slice(fields[k], record), fields[k].pic) == StoredIn(fields[k], values, conv)
    ensures DecodeFields(fields[..n], record).Some?
    ensures var m := DecodeFields(fields[..n], record).value;
      && (forall name :: name in m <==> ByName(fields[..n], name).Some?)
      && (forall name :: name in m ==> Some(m[name]) == StoredIn(ByName(fields[..n], name).value, values, conv))
  {
    hide DecodeField, Slice, StoredIn;
    if n > 0 {
      DecodedFields(fields, n - 1, record, values, conv);
      assert fields[..n][..n - 1] == fields[..n - 1];
    }
  }

  // ---------------------------------------------------------------- datasets

  function Join(records: seq<Bytes>, terminator: Bytes): Bytes {
    if records == [] then [] else records[0] + terminator + Join(records[1..], terminator)
  }

  predicate AllOfLength(records: seq<Bytes>, n: nat) {
    forall k :: 0 <= k < |records| ==> |records[k]| == n
  }

  lemma {:induction false} JoinAppend(records: seq<Bytes>, r: Bytes, terminator: Bytes)
    ensures Join(records + [r], terminator) == Join(records, terminator) + (r + terminator)
  {
    if records == [] {
      assert [r][1..] == [];
    } else {
      assert (records + [r])[1..] == records[1..] + [r];
      JoinAppend(records[1..], r, terminator);
    }
  }

  /** Start of record `k` in a dataset whose records take `step` bytes each. */
  function Start(k: nat, step: nat): nat {
    k * step
  }

  lemma StartStep(k: nat, step: nat)
    ensures Start(k + 1, step) == Start(k, step) + step && Start(0, step) == 0
  {}

  /** Splits a dataset; None when a record has no length, the data is not a whole number of records,
      or a terminator is missing. */
  method ReadRecords(l: Layout, data: Bytes) returns (r: Option<seq<Bytes>>)
    ensures r.Some? ==> AllOfLength(r.value, l.recordLength) && data == Join(r.value, l.terminator)
    ensures r.Some? ==> l.recordLength + |l.terminator| > 0
    ensures l.recordLength + |l.terminator| > 0 ==>
      forall rs :: AllOfLength(rs, l.recordLength) && data == Join(rs, l.terminator) ==> r == Some(rs)
  {
    hide Join, Start;
    var step := l.recordLength + |l.terminator|;
    if step == 0 {
      return None;
    }
    if |data| % step != 0 {
      PartialRecord(l, data);
      return None;
    }
    var records: seq<Bytes> := [];
    var i := 0;
    JoinNothing(l.terminator);
    StartStep(0, step);
    while i < |data|
      invariant i <= |data| && i == Start(|records|, step)
      invariant AllOfLength(records, l.recordLength) && data[..i] == Join(records, l.terminator)
    {
      StepFits(|data|, step, |records|);
      var chunk := data[i..i + step];
      if l.terminator != [] && chunk[l.recordLength..] != l.terminator {
        MissingTerminator(l, data, |records|, chunk);
        return None;
      }
      AppendChunk(records, chunk, l, data, i);
      records := records + [chunk[..l.recordLength]];
      i := i + step;
    }
    r := Some(records);
    assert data[..i] == data;
    OnlySplit(records, l);
  }

  lemma AppendChunk(records: seq<Bytes>, chunk: Bytes, l: Layout, data: Bytes, i: nat)
    requires i <= i + |chunk| <= |data| && chunk == data[i..i + |chunk|]
    requires |chunk| == l.recordLength + |l.terminator| && chunk[l.recordLength..] == l.terminator
    ensures data[..i] == Join(records, l.terminator)
        ==> data[..i + |chunk|] == Join(records + [chunk[..l.recordLength]], l.terminator)
  {
    hide Join;
    JoinAppend(records, chunk[..l.recordLength], l.terminator);
    assert chunk[..l.recordLength] + l.terminator == chunk;
    assert data[..i] + chunk == data[..i + |chunk|];
  }

  lemma PartialRecord(l: Layout, data: Bytes)
    requires l.recordLength + |l.terminator| > 0 && |data| % (l.recordLength + |l.terminator|) != 0
    ensures forall rs :: AllOfLength(rs, l.recordLength) ==> data != Join(rs, l.terminator)
  {
    hide Join, AllOfLength;
    forall rs | AllOfLength(rs, l.recordLength)
      ensures data != Join(rs, l.terminator)
    {
      JoinLength(rs, l.recordLength, l.terminator);
    }
  }

  lemma MissingTerminator(l: Layout, data: Bytes, k: nat, chunk: Bytes)
    requires var step := l.recordLength + |l.terminator|;
      && step > 0 && Start(k + 1, step) <= |data| && Start(k + 1, step) == Start(k, step) + step
      && chunk == data[Start(k, step)..Start(k + 1, step)]
    requires chunk[l.recordLength..] != l.terminator
    ensures forall rs :: AllOfLength(rs, l.recordLength) ==> data != Join(rs, l.terminator)
  {
    hide Join, AllOfLength, Start;
    forall rs | AllOfLength(rs, l.recordLength)
      ensures data != Join(rs, l.terminator)
    {
      if data == Join(rs, l.terminator) {
        JoinChunk(rs, k, l.recordLength, l.terminator, data);
      }
    }
  }

  lemma OnlySplit(records: seq<Bytes>, l: Layout)
    requires AllOfLength(records, l.recordLength) && l.recordLength + |l.terminator| > 0
    ensures forall rs :: AllOfLength(rs, l.recordLength) && Join(records, l.terminator) == Join(rs, l.terminator) ==> rs == records
  {
    hide Join, AllOfLength;
    forall rs | AllOfLength(rs, l.recordLength) && Join(records, l.terminator) == Join(rs, l.terminator)
      ensures rs == records
    {
      JoinInjective(rs, records, l.recordLength, l.terminator);
    }
  }

  lemma JoinNothing(terminator: Bytes)
    ensures Join([], terminator) == []
  {}

  lemma {:induction false} JoinLength(rs: seq<Bytes>, n: nat, terminator: Bytes)
    requires AllOfLength(rs, n)
    ensures |Join(rs, terminator)| == Start(|rs|, n + |terminator|)
    ensures n + |terminator| > 0 ==> |Join(rs, terminator)| % (n + |terminator|) == 0
  {
    hide Start;
    var step := n + |terminator|;
    StartStep(0, step);
    if rs != [] {
      JoinLength(rs[1..], n, terminator);
      StartStep(|rs| - 1, step);
    }
    if step > 0 {
      MultipleDivides(|rs|, step);
    }
  }

  lemma MultipleDivides(q: nat, step: nat)
    requires step > 0
    ensures Start(q, step) % step == 0
  {
    ModUnique(q * step, step, q, 0);
  }

  lemma StepFits(length: nat, step: nat, q: nat)
    requires step > 0 && length % step == 0 && Start(q, step) < length
    ensures Start(q, step) + step <= length && Start(q + 1, step) == Start(q, step) + step
  {
    DivideNat(length, step);
    if length / step <= q {
      MulOrder(length / step, q, step);
    } else {
      MulOrder(q + 1, length / step, step);
    }
  }

  lemma {:induction false} JoinChunk(rs: seq<Bytes>, k: nat, n: nat, terminator: Bytes, data: Bytes)
    requires AllOfLength(rs, n) && data == Join(rs, terminator)
    requires Start(k + 1, n + |terminator|) <= |data| && n + |terminator| > 0
    ensures Start(k + 1, n + |terminator|) == Start(k, n + |terminator|) + n + |terminator|
    ensures data[Start(k, n + |terminator|) + n..Start(k + 1, n + |terminator|)] == terminator
  {
    hide Join, Start;
    var step := n + |terminator|;
    StartStep(k, step);
    JoinStep(rs, terminator);
    var head := rs[0] + terminator;
    assert data == head + data[step..];
    if k == 0 {
      assert data[n..step] == head[n..];
    } else {
      StartStep(k - 1, step);
      JoinChunk(rs[1..], k - 1, n, terminator, data[step..]);
    }
  }

  lemma JoinStep(rs: seq<Bytes>, terminator: Bytes)
    ensures Join(rs, terminator) == if rs == [] then [] else (rs[0] + terminator) + Join(rs[1..], terminator)
  {}

  lemma {:induction false} JoinInjective(rs: seq<Bytes>, ss: seq<Bytes>, n: nat, terminator: Bytes)
    requires AllOfLength(rs, n) && AllOfLength(ss, n) && n + |terminator| > 0
    requires Join(rs, terminator) == Join(ss, terminator)
    ensures rs == ss
  {
    hide Join;
    JoinStep(rs, terminator);
    JoinStep(ss, terminator);
    if rs != [] && ss != [] {
      var data, step := Join(rs, terminator), n + |terminator|;
      assert data[..n] == rs[0] && data[..n] == ss[0];
      assert data[step..] == Join(rs[1..], terminator) && data[step..] == Join(ss[1..], terminator);
      JoinInjective(rs[1..], ss[1..], n, terminator);
      assert rs == [rs[0]] + rs[1..] && ss == [ss[0]] + ss[1..];
    }
  }
}
