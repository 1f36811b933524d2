/** PICTURE clauses: fitting numbers to them, zoned and packed encodings of one field. Bytes and
    character codes are integers below 256. */
module Copybook {
  import opened Common
  import opened Decimals

  datatype Kind = Num | Alnum

  datatype Usage = Display | Comp3

  datatype Pic = Pic(kind: Kind, signed: bool, digits: nat, scale: nat, usage: Usage)

  type Bytes = seq<int>

  /** What parsing a PICTURE clause yields. */
  predicate IsPic(p: Pic) {
    p.scale <= p.digits && (p.kind == Alnum ==> !p.signed && p.scale == 0 && p.usage == Display)
  }

  function Length(p: Pic): nat {
    if p.kind == Num && p.usage == Comp3 then (p.digits + 2) / 2 else p.digits
  }

  function IntegerDigits(p: Pic): int {
    p.digits - p.scale
  }

  /** The decimal number coeff / 10^scale. */
  datatype Dec = Dec(coeff: int, scale: nat)

  /** Significant digits of the decimal arithmetic context. */
  const PRECISION: nat := 28

  // ---------------------------------------------------------------- fitting

  /** Coefficient of the number cut, never rounded, to the given scale. */
  function Quantize(v: Dec, scale: nat): int {
    if v.scale <= scale then v.coeff * Pow10(scale - v.scale)
    else if v.coeff < 0 then 0 - High(-v.coeff, v.scale - scale)
    else High(v.coeff, v.scale - scale)
  }

  /** Coefficient of the stored number; None when the context has too few digits to cut the value. */
  function FitToPic(v: Dec, p: Pic): (r: Option<int>)
    ensures r.Some? ==> Abs(r.value) < Pow10(p.digits) && (!p.signed ==> r.value >= 0)
  {
    var q := Quantize(v, p.scale);
    if Abs(q) >= Pow10(PRECISION) then None
    else
      var m := if Abs(q) >= Pow10(p.digits) then Low(Abs(q), p.digits) else Abs(q);
      Some(if q < 0 && p.signed then -m else m)
  }

  lemma LowFits(v: nat, n: nat)
    ensures Low(v, n) < Pow10(n) && Low(v, n) <= v
    ensures v < Pow10(n) ==> Low(v, n) == v
  {
    DivideNat(v, Pow10(n));
    if v < Pow10(n) {
      ModUnique(v, Pow10(n), 0, v);
    } else {
      MultipleAtLeast(Pow10(n), v / Pow10(n));
    }
  }

  /** Cutting never rounds: the kept number is the largest multiple of the last kept place that is not
      above the value in magnitude, with the value's sign. */
  lemma QuantizeTruncates(v: Dec, scale: nat)
    ensures var (q, a) := (Abs(Quantize(v, scale)), Abs(v.coeff));
      q * Pow10(v.scale) <= a * Pow10(scale) < (q + 1) * Pow10(v.scale)
    ensures Quantize(v, scale) > 0 ==> v.coeff > 0
    ensures Quantize(v, scale) < 0 ==> v.coeff < 0
  {
    hide Pow10, High;
    var a := Abs(v.coeff);
    if v.scale <= scale {
      Pow10Add(scale - v.scale, v.scale);
      ScaleUp(v.coeff, Pow10(scale - v.scale), Pow10(v.scale));
    } else {
      var d := v.scale - scale;
      Pow10Add(d, scale);
      HighTruncates(a, d);
      ScaleBoth(High(a, d), a, Pow10(d), Pow10(scale));
    }
  }

  lemma ScaleUp(c: int, p: nat, t: nat)
    requires p > 0 && t > 0
    ensures Abs(c * p) * t == Abs(c) * (p * t)
    ensures Abs(c) * (p * t) < (Abs(c * p) + 1) * t
    ensures c * p > 0 ==> c > 0
    ensures c * p < 0 ==> c < 0
  {
    assert c < 0 ==> c * p == -(Abs(c) * p);
  }

  lemma HighTruncates(a: nat, d: nat)
    ensures High(a, d) * Pow10(d) <= a < (High(a, d) + 1) * Pow10(d)
  {
    DivideNat(a, Pow10(d));
  }

  lemma ScaleBoth(q: nat, a: nat, p: nat, t: nat)
    requires t > 0 && q * p <= a < (q + 1) * p
    ensures q * (p * t) <= a * t < (q + 1) * (p * t)
  {
    MulOrder(q * p, a, t);
    MulOrder(a + 1, (q + 1) * p, t);
  }

  lemma MulOrder(a: int, b: int, t: nat)
    requires a <= b
    ensures a * t <= b * t
  {
    assert (b - a) * t >= 0;
  }

  /** What a COBOL MOVE stores: low-order digits cut, high-order digits dropped, sign only if signed. */
  lemma FitMeaning(v: Dec, p: Pic)
    ensures var q := Quantize(v, p.scale);
      FitToPic(v, p) == if Abs(q) >= Pow10(PRECISION) then None
        else Some(if q < 0 && p.signed then 0 - Low(Abs(q), p.digits) else Low(Abs(q), p.digits))
  {
    hide Quantize, Low;
    LowFits(Abs(Quantize(v, p.scale)), p.digits);
  }

  /** Storing a stored value again changes nothing. */
  lemma FitIdempotent(v: Dec, p: Pic)
    requires FitToPic(v, p).Some?
    ensures FitToPic(Dec(FitToPic(v, p).value, p.scale), p) == FitToPic(v, p)
  {
    var c := FitToPic(v, p).value;
    LowFits(Abs(Quantize(v, p.scale)), p.digits);
    assert c * Pow10(0) == c;
  }

  // ---------------------------------------------------------------- digit text

  /** Digits of the formatted number without its point, right-justified with zeros. */
  function DigitText(m: nat, p: Pic): seq<int> {
    RJust(IntDigits(High(m, p.scale)) + FixedDigits(Low(m, p.scale), p.scale), p.digits)
  }

  lemma TextWithInteger(m: nat, p: Pic)
    requires IntegerDigits(p) >= 1 && m < Pow10(p.digits)
    ensures DigitText(m, p) == FixedDigits(m, p.digits)
  {
    hide Pow10, FixedDigits, IntDigits, High, Low, RJust;
    var k, s := IntegerDigits(p), p.scale;
    LowDigits(m, s);
    HighFits(m, k, s);
    JustifiedDigits(High(m, s), k);
    SplitDigits(m, k, s);
    JustifyFront(IntDigits(High(m, s)), FixedDigits(m, s), k);
  }

  lemma TextWithoutInteger(m: nat, p: Pic)
    requires IntegerDigits(p) == 0 && m < Pow10(p.digits)
    ensures DigitText(m, p) == [0] + FixedDigits(m, p.digits)
  {
    hide Pow10, FixedDigits, High, Low;
    LowDigits(m, p.scale);
    HighOfLow(m, p.scale);
  }

  /** The digit text has the width of the field, except that without an integer digit the formatted
      number still starts with a zero. */
  lemma DigitTextExact(m: nat, p: Pic)
    requires IsPic(p) && m < Pow10(p.digits)
    ensures DigitText(m, p) == if IntegerDigits(p) >= 1 then FixedDigits(m, p.digits) else [0] + FixedDigits(m, p.digits)
    ensures |DigitText(m, p)| == p.digits <==> IntegerDigits(p) >= 1
    ensures AreDigits(DigitText(m, p)) && ToInt(DigitText(m, p)) == m
  {
    hide Pow10, FixedDigits, IntDigits, DigitText, Low, ToInt;
    FixedDigitsValue(m, p.digits);
    LowFits(m, p.digits);
    if IntegerDigits(p) >= 1 {
      TextWithInteger(m, p);
    } else {
      TextWithoutInteger(m, p);
      assert Zeros(1) == [0];
      ToIntPrepend(1, FixedDigits(m, p.digits));
    }
  }

  lemma HighFits(m: nat, k: nat, s: nat)
    requires m < Pow10(k + s)
    ensures High(m, s) < Pow10(k)
  {
    var (p, h) := (Pow10(s), High(m, s));
    DivideNat(m, p);
    Pow10Add(k, s);
    if h >= Pow10(k) {
      MulGrows(p, Pow10(k), h);
    }
  }

  lemma MulGrows(p: nat, a: nat, b: nat)
    ensures a <= b ==> p * a <= p * b
  {
    if a <= b {
      assert p * (b - a) >= 0;
    }
  }

  lemma HighOfLow(m: nat, s: nat)
    requires m < Pow10(s)
    ensures High(m, s) == 0
  {
    ModUnique(m, Pow10(s), 0, m);
  }

  lemma JustifyFront(front: seq<int>, back: seq<int>, k: nat)
    requires |front| <= k
    ensures RJust(front + back, k + |back|) == RJust(front, k) + back
  {
    var n := k - |front|;
    if n > 0 {
      assert Zeros(n) + (front + back) == (Zeros(n) + front) + back;
    }
  }

  function DigitsOf(v: Dec, p: Pic): Option<seq<int>> {
    match FitToPic(v, p)
    case None => None
    case Some(c) => Some(DigitText(Abs(c), p))
  }

  function PlacePoint(ds: seq<int>, scale: nat): Dec {
    Dec(ToInt(ds), scale)
  }

  // ---------------------------------------------------------------- zoned (DISPLAY) numbers

  function ToAscii(ds: seq<int>): Bytes {
    seq(|ds|, k requires 0 <= k < |ds| => 48 + ds[k])
  }

  function FromAscii(raw: Bytes): seq<int> {
    seq(|raw|, k requires 0 <= k < |raw| => raw[k] - 48)
  }

  predicate IsDigitText(raw: Bytes) {
    raw != [] && forall k :: 0 <= k < |raw| ==> 48 <= raw[k] <= 57
  }

  /** Positive zone: '{' for 0, 'A' to 'I' for 1 to 9. */
  function Overpunch(d: int): int {
    if d == 0 then 123 else 64 + d
  }

  /** Both zones and plain digits are accepted. */
  function OverpunchDigit(b: int): Option<int> {
    if b == 123 || b == 125 then Some(0)
    else if 65 <= b <= 73 then Some(b - 64)
    else if 74 <= b <= 82 then Some(b - 73)
    else if 48 <= b <= 57 then Some(b - 48)
    else None
  }

  function EncodeDisplay(v: Dec, p: Pic): Option<Bytes> {
    match FitToPic(v, p)
    case None => None
    case Some(c) =>
      match DigitsOf(Dec(c, p.scale), p)
      case None => None
      case Some(ds) =>
        if !p.signed || ds == [] then Some(ToAscii(ds))
        else Some(ToAscii(ds[..|ds| - 1]) + [Overpunch(ds[|ds| - 1])])
  }

  function DecodeDisplay(raw: Bytes, p: Pic): Option<Dec> {
    if !p.signed then
      if IsDigitText(raw) then Some(PlacePoint(FromAscii(raw), p.scale)) else None
    else if raw == [] then None
    else
      var (body, last) := (raw[..|raw| - 1], raw[|raw| - 1]);
      if IsDigitText(body) && OverpunchDigit(last).Some?
      then Some(PlacePoint(FromAscii(body) + [OverpunchDigit(last).value], p.scale))
      else None
  }

  /** Characters of the digit text of any value stored in the field. */
  function TextLength(p: Pic): nat {
    if IntegerDigits(p) >= 1 then p.digits else p.digits + 1
  }

  lemma EncodedDigits(v: Dec, p: Pic)
    requires IsPic(p) && FitToPic(v, p).Some?
    ensures var c := FitToPic(v, p).value;
      && DigitsOf(Dec(c, p.scale), p) == Some(DigitText(Abs(c), p))
      && |DigitText(Abs(c), p)| == TextLength(p)
  {
    FitIdempotent(v, p);
    DigitTextExact(Abs(FitToPic(v, p).value), p);
  }

  lemma AsciiBack(ds: seq<int>)
    requires AreDigits(ds)
    ensures FromAscii(ToAscii(ds)) == ds && (ds != [] ==> IsDigitText(ToAscii(ds)))
  {}

  lemma OverpunchBack(ds: seq<int>)
    requires AreDigits(ds) && |ds| >= 2
    ensures var (body, last) := (ToAscii(ds[..|ds| - 1]), Overpunch(ds[|ds| - 1]));
      IsDigitText(body) && OverpunchDigit(last).Some? && FromAscii(body) + [OverpunchDigit(last).value] == ds
  {
    AsciiBack(ds[..|ds| - 1]);
  }

  lemma EncodedText(v: Dec, p: Pic)
    requires IsPic(p) && FitToPic(v, p).Some?
    ensures var ds := DigitText(Abs(FitToPic(v, p).value), p);
      && EncodeDisplay(v, p) == Some(if !p.signed || ds == [] then ToAscii(ds)
                                     else ToAscii(ds[..|ds| - 1]) + [Overpunch(ds[|ds| - 1])])
      && |ds| == TextLength(p)
  {
    hide FitToPic, DigitText, DigitsOf, ToAscii, Overpunch, TextLength;
    EncodedDigits(v, p);
  }

  lemma PlainTextDecoded(ds: seq<int>, p: Pic)
    requires !p.signed && ds != [] && AreDigits(ds)
    ensures DecodeDisplay(ToAscii(ds), p) == Some(Dec(ToInt(ds), p.scale))
  {
    hide FromAscii, ToAscii, IsDigitText, ToInt, AreDigits;
    AsciiBack(ds);
  }

  lemma ZonedTextDecoded(ds: seq<int>, p: Pic)
    requires p.signed && ds != [] && AreDigits(ds)
    ensures var raw := ToAscii(ds[..|ds| - 1]) + [Overpunch(ds[|ds| - 1])];
      DecodeDisplay(raw, p) == if |ds| < 2 then None else Some(Dec(ToInt(ds), p.scale))
  {
    hide FromAscii, ToAscii, IsDigitText, ToInt, Overpunch, OverpunchDigit;
    var raw := ToAscii(ds[..|ds| - 1]) + [Overpunch(ds[|ds| - 1])];
    AsciiLength(ds[..|ds| - 1]);
    assert raw[..|raw| - 1] == ToAscii(ds[..|ds| - 1]);
    if |ds| >= 2 {
      OverpunchBack(ds);
    }
  }

  /** A zoned number decodes to the stored magnitude when it has at least two characters or no sign;
      a lone signed character is refused by the decoder. */
  lemma DisplayDecoded(v: Dec, p: Pic)
    requires IsPic(p) && p.kind == Num && FitToPic(v, p).Some?
    ensures EncodeDisplay(v, p).Some? && |EncodeDisplay(v, p).value| == TextLength(p)
    ensures DecodeDisplay(EncodeDisplay(v, p).value, p)
         == if p.signed && TextLength(p) < 2 then None else Some(Dec(Abs(FitToPic(v, p).value), p.scale))
  {
    hide FitToPic, DigitText, EncodeDisplay, DecodeDisplay, ToAscii, Overpunch, ToInt, AreDigits, Pow10;
    var c := FitToPic(v, p).value;
    var ds := DigitText(Abs(c), p);
    EncodedText(v, p);
    FitInRange(v, p);
    DigitTextExact(Abs(c), p);
    if !p.signed {
      PlainTextDecoded(ds, p);
      AsciiLength(ds);
    } else {
      ZonedTextDecoded(ds, p);
      AsciiLength(ds[..|ds| - 1]);
    }
  }

  lemma FitInRange(v: Dec, p: Pic)
    requires FitToPic(v, p).Some?
    ensures Abs(FitToPic(v, p).value) < Pow10(p.digits) && (!p.signed ==> FitToPic(v, p).value >= 0)
  {}

  lemma AsciiLength(ds: seq<int>)
    ensures |ToAscii(ds)| == |ds| && !IsDigitText([])
  {}

  /** A zoned number round-trips exactly when it is unsigned, or is not negative and has at least two
      characters: neither encoder nor decoder keeps a minus sign. */
  lemma DisplayRoundTrip(v: Dec, p: Pic)
    requires IsPic(p) && p.kind == Num && FitToPic(v, p).Some?
    ensures var c := FitToPic(v, p).value;
      DecodeDisplay(EncodeDisplay(v, p).value, p) == Some(Dec(c, p.scale)) <==> !p.signed || (c >= 0 && TextLength(p) >= 2)
    ensures |EncodeDisplay(v, p).value| == Length(p.(usage := Display)) <==> IntegerDigits(p) >= 1
  {
    hide FitToPic, EncodeDisplay, DecodeDisplay;
    DisplayDecoded(v, p);
    FitInRange(v, p);
  }

  // ---------------------------------------------------------------- packed (COMP-3) numbers

  function Pack(nibbles: seq<int>): Bytes
    requires |nibbles| % 2 == 0
  {
    seq(|nibbles| / 2, k requires 0 <= k < |nibbles| / 2 => nibbles[2 * k] * 16 + nibbles[2 * k + 1])
  }

  function Unpack(raw: Bytes): seq<int> {
    seq(2 * |raw|, k requires 0 <= k < 2 * |raw| => if k % 2 == 0 then raw[k / 2] / 16 else raw[k / 2] % 16)
  }

  method ReadNibbles(raw: Bytes) returns (nibbles: seq<int>)
    ensures nibbles == Unpack(raw)
  {
    nibbles := [];
    for i := 0 to |raw|
      invariant nibbles == Unpack(raw[..i])
    {
      nibbles := nibbles + [raw[i] / 16];
      nibbles := nibbles + [raw[i] % 16];
      assert nibbles == Unpack(raw[..i + 1]);
    }
    assert raw[..|raw|] == raw;
  }

  lemma UnpackPack(nibbles: seq<int>)
    requires |nibbles| % 2 == 0 && forall k :: 0 <= k < |nibbles| ==> 0 <= nibbles[k] < 16
    ensures Unpack(Pack(nibbles)) == nibbles
  {
    var raw := Pack(nibbles);
    forall k | 0 <= k < |nibbles|
      ensures Unpack(raw)[k] == nibbles[k]
    {
      var h := k / 2;
      assert raw[h] == nibbles[2 * h] * 16 + nibbles[2 * h + 1];
      assert k == 2 * h || k == 2 * h + 1;
    }
  }

  function SignNibble(c: int, signed: bool): int {
    if c < 0 then 13 else if signed then 12 else 15
  }

  /** Digits and sign nibble, with a zero in front to fill whole bytes. */
  function Nibbles(ds: seq<int>, sign: int): (n: seq<int>)
    ensures |n| % 2 == 0
  {
    var n := ds + [sign];
    if |n| % 2 == 1 then [0] + n else n
  }

  function EncodeComp3(v: Dec, p: Pic): Option<Bytes> {
    match FitToPic(v, p)
    case None => None
    case Some(c) =>
      match DigitsOf(Dec(c, p.scale), p)
      case None => None
      case Some(ds) => Some(Pack(Nibbles(ds, SignNibble(c, p.signed))))
  }

  /** The last `n` elements; all of them when there are fewer, or when n is zero. */
  function LastOf(s: seq<int>, n: nat): seq<int> {
    if n == 0 || |s| <= n then s else s[|s| - n..]
  }

  function DecodeComp3(raw: Bytes, p: Pic): Option<Dec> {
    if raw == [] then None
    else
      var nibbles := Unpack(raw);
      var (sign, ds) := (nibbles[|nibbles| - 1], LastOf(nibbles[..|nibbles| - 1], p.digits));
      if !AreDigits(ds) then None
      else if sign == 13 then Some(Dec(-ToInt(ds), p.scale))
      else if sign == 12 || sign == 15 then Some(PlacePoint(ds, p.scale))
      else None
  }

  /** Padding zeros and a leading zero beyond the field's digits do not change the decoded number. */
  lemma LastDigits(ds: seq<int>, m: nat, p: Pic, padded: seq<int>)
    requires IsPic(p) && m < Pow10(p.digits) && ds == DigitText(m, p)
    requires padded == ds || padded == [0] + ds
    ensures AreDigits(LastOf(padded, p.digits)) && ToInt(LastOf(padded, p.digits)) == m
  {
    hide DigitText;
    DigitTextExact(m, p);
    assert Zeros(1) == [0];
    ToIntPrepend(1, ds);
    FixedDigitsValue(m, p.digits);
    LowFits(m, p.digits);
    if p.digits > 0 && |padded| > p.digits {
      assert LastOf(padded, p.digits) == FixedDigits(m, p.digits);
    }
  }

  /** A packed number always decodes to the stored number, sign included; it fills its field exactly
      when the PIC has an integer digit or an even number of digits. */
  lemma Comp3RoundTrip(v: Dec, p: Pic)
    requires IsPic(p) && p.kind == Num && p.usage == Comp3 && FitToPic(v, p).Some?
    ensures EncodeComp3(v, p).Some?
    ensures DecodeComp3(EncodeComp3(v, p).value, p) == Some(Dec(FitToPic(v, p).value, p.scale))
    ensures |EncodeComp3(v, p).value| == Length(p) <==> IntegerDigits(p) >= 1 || p.digits % 2 == 0
  {
    hide FitToPic, DigitText, EncodeComp3, DecodeComp3, Pack, AreDigits, ToInt, Pow10, Nibbles;
    var c := FitToPic(v, p).value;
    var ds, sign := DigitText(Abs(c), p), SignNibble(c, p.signed);
    EncodedNibbles(v, p);
    FitInRange(v, p);
    DigitTextExact(Abs(c), p);
    NibblesDecoded(ds, c, p);
    NibblesInRange(ds, sign);
    PackLength(Nibbles(ds, sign));
  }

  lemma EncodedNibbles(v: Dec, p: Pic)
    requires IsPic(p) && FitToPic(v, p).Some?
    ensures var c := FitToPic(v, p).value; var ds := DigitText(Abs(c), p);
      EncodeComp3(v, p) == Some(Pack(Nibbles(ds, SignNibble(c, p.signed)))) && |ds| == TextLength(p)
  {
    hide FitToPic, DigitText, DigitsOf, Pack, Nibbles, SignNibble, TextLength;
    EncodedDigits(v, p);
  }

  lemma NibblesDecoded(ds: seq<int>, c: int, p: Pic)
    requires IsPic(p) && Abs(c) < Pow10(p.digits) && ds == DigitText(Abs(c), p)
    requires !p.signed ==> c >= 0
    ensures DecodeComp3(Pack(Nibbles(ds, SignNibble(c, p.signed))), p) == Some(Dec(c, p.scale))
  {
    hide DigitText, Unpack, Pack, AreDigits, ToInt, LastOf, Pow10, Nibbles;
    var nibbles := Nibbles(ds, SignNibble(c, p.signed));
    DigitTextExact(Abs(c), p);
    NibblesInRange(ds, SignNibble(c, p.signed));
    UnpackPack(nibbles);
    PackLength(nibbles);
    LastDigits(ds, Abs(c), p, nibbles[..|nibbles| - 1]);
  }

  lemma NibblesInRange(ds: seq<int>, sign: int)
    requires AreDigits(ds) && 0 <= sign < 16
    ensures var n := Nibbles(ds, sign);
      && (forall k :: 0 <= k < |n| ==> 0 <= n[k] < 16)
      && |n| == 2 * ((|ds| + 2) / 2)
      && n[|n| - 1] == sign && (n[..|n| - 1] == ds || n[..|n| - 1] == [0] + ds)
  {}

  lemma PackLength(nibbles: seq<int>)
    requires |nibbles| % 2 == 0
    ensures 2 * |Pack(nibbles)| == |nibbles|
  {}
}
