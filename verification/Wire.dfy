/** Little-endian integers, type-length-value sections and the fixed header of FWB v2 bundles. */
module Wire {
  import opened Common

  type Byte = b: int | 0 <= b < 256

  type Bytes = seq<Byte>

  datatype BundleError =
    | ParseError | ManifestError | PathError | ConsistencyError | SignatureError | IdentityError | VersionError

  datatype Result<+T> = Ok(value: T) | Err(error: BundleError)

  // ---------------------------------------------------------------- integers

  function Pow256(k: nat): (p: nat)
    ensures p > 0
  {
    if k == 0 then 1 else 256 * Pow256(k - 1)
  }

  function LE(n: nat, k: nat): (b: Bytes)
    ensures |b| == k
  {
    if k == 0 then [] else [n % 256] + LE(n / 256, k - 1)
  }

  function UnLE(b: Bytes): (n: nat)
    ensures n < Pow256(|b|)
  {
    if b == [] then 0 else b[0] + 256 * UnLE(b[1..])
  }

  lemma {:induction false} LEBack(n: nat, k: nat)
    requires n < Pow256(k)
    ensures UnLE(LE(n, k)) == n
  {
    if k > 0 {
      LEBack(n / 256, k - 1);
      assert LE(n, k)[1..] == LE(n / 256, k - 1);
    }
  }

  lemma {:induction false} UnLEBack(b: Bytes)
    ensures LE(UnLE(b), |b|) == b
  {
    hide Pow256;
    if b != [] {
      UnLEBack(b[1..]);
      ByteStep(b[0], UnLE(b[1..]));
      assert b == [b[0]] + b[1..];
    }
  }

  lemma ByteStep(d: Byte, rest: nat)
    ensures (d + 256 * rest) % 256 == d && (d + 256 * rest) / 256 == rest
  {}

  lemma Widths()
    ensures Pow256(1) == 0x100 && Pow256(2) == 0x1_0000 && Pow256(4) == 0x1_0000_0000
  {
    assert Pow256(2) == 256 * Pow256(1);
    assert Pow256(3) == 256 * Pow256(2);
  }

  // ---------------------------------------------------------------- sections

  const TLV_HEADER_LEN: nat := 8

  datatype Section = Section(sectionType: nat, data: Bytes, offset: nat, end: nat)

  /** One section as it is written; None when the data is too long for its length field. */
  function Tlv(sectionType: nat, data: Bytes): Option<Bytes>
    requires sectionType < 0x1_0000
  {
    if |data| < Pow256(4) then Some(LE(sectionType, 2) + LE(0, 2) + LE(|data|, 4) + data) else None
  }

  function TypeAt(blob: Bytes, pos: nat): nat
    requires pos + TLV_HEADER_LEN <= |blob|
  {
    UnLE(blob[pos..pos + 2])
  }

  function EndAt(blob: Bytes, pos: nat): nat
    requires pos + TLV_HEADER_LEN <= |blob|
  {
    pos + TLV_HEADER_LEN + UnLE(blob[pos + 4..pos + 8])
  }

  predicate HasSection(blob: Bytes, pos: nat) {
    pos + TLV_HEADER_LEN <= |blob| && EndAt(blob, pos) <= |blob|
  }

  function SectionAt(blob: Bytes, pos: nat): Section
    requires HasSection(blob, pos)
  {
    Section(TypeAt(blob, pos), blob[pos + TLV_HEADER_LEN..EndAt(blob, pos)], pos, EndAt(blob, pos))
  }

  /** Sections from `pos` on; scanning stops at the first one that is not complete. */
  function Sections(blob: Bytes, pos: nat): seq<Section>
    decreases if pos <= |blob| then |blob| - pos else 0
  {
    if HasSection(blob, pos) then [SectionAt(blob, pos)] + Sections(blob, EndAt(blob, pos)) else []
  }

  method ParseSections(blob: Bytes, headerLen: nat) returns (sections: seq<Section>)
    ensures sections == Sections(blob, headerLen)
  {
    sections := [];
    var pos := headerLen;
    var total := |blob|;
    while pos + TLV_HEADER_LEN <= total
      invariant sections + Sections(blob, pos) == Sections(blob, headerLen)
      decreases total - pos
    {
      var sectionType, length := UnLE(blob[pos..pos + 2]), UnLE(blob[pos + 4..pos + 8]);
      var dataStart := pos + TLV_HEADER_LEN;
      var dataEnd := dataStart + length;
      if dataEnd > total {
        break;
      }
      SectionsStep(blob, pos);
      sections := sections + [Section(sectionType, blob[dataStart..dataEnd], pos, dataEnd)];
      pos := dataEnd;
    }
  }

  lemma SectionsStep(blob: Bytes, pos: nat)
    requires HasSection(blob, pos)
    ensures Sections(blob, pos) == [SectionAt(blob, pos)] + Sections(blob, EndAt(blob, pos))
  {}

  /** Where scanning stops. */
  function StopAt(sections: seq<Section>, pos: nat): nat {
    if sections == [] then pos else sections[|sections| - 1].end
  }

  /** Scanned sections lie end to end from the start, hold exactly the bytes between their offset and end,
      and leave no complete section behind them. */
  lemma {:induction false} SectionsTile(blob: Bytes, pos: nat)
    ensures var s := Sections(blob, pos);
      && (s != [] ==> s[0].offset == pos)
      && (forall k :: 0 <= k < |s| ==> HasSection(blob, s[k].offset) && s[k] == SectionAt(blob, s[k].offset))
      && (forall k :: 0 < k < |s| ==> s[k].offset == s[k - 1].end)
      && !HasSection(blob, StopAt(s, pos))
    decreases if pos <= |blob| then |blob| - pos else 0
  {
    hide SectionAt, TypeAt;
    if HasSection(blob, pos) {
      var next := EndAt(blob, pos);
      SectionsTile(blob, next);
      var (s, rest) := (Sections(blob, pos), Sections(blob, next));
      assert s == [SectionAt(blob, pos)] + rest;
      SectionEnds(blob, pos);
      forall k | 0 <= k < |s|
        ensures HasSection(blob, s[k].offset) && s[k] == SectionAt(blob, s[k].offset)
        ensures k > 0 ==> s[k].offset == s[k - 1].end
      {
        if k > 0 {
          assert s[k] == rest[k - 1];
          if k > 1 {
            assert s[k - 1] == rest[k - 2];
          }
        }
      }
    }
  }

  lemma SectionEnds(blob: Bytes, pos: nat)
    requires HasSection(blob, pos)
    ensures SectionAt(blob, pos).offset == pos && SectionAt(blob, pos).end == EndAt(blob, pos)
  {}

  /** Type and data of a section before it is written. */
  datatype Part = Part(sectionType: nat, data: Bytes)

  predicate PartFits(p: Part) {
    p.sectionType < 0x1_0000 && |p.data| < Pow256(4)
  }

  predicate PartsFit(parts: seq<Part>) {
    forall k :: 0 <= k < |parts| ==> PartFits(parts[k])
  }

  function Written(p: Part): Bytes
    requires PartFits(p)
  {
    Tlv(p.sectionType, p.data).value
  }

  function Body(parts: seq<Part>): Bytes
    requires PartsFit(parts)
  {
    if parts == [] then [] else Written(parts[0]) + Body(parts[1..])
  }

  function Located(parts: seq<Part>, pos: nat): seq<Section> {
    if parts == [] then []
    else
      var (p, end) := (parts[0], pos + TLV_HEADER_LEN + |parts[0].data|);
      [Section(p.sectionType, p.data, pos, end)] + Located(parts[1..], end)
  }

  lemma WrittenScanned(before: Bytes, p: Part, after: Bytes)
    requires PartFits(p)
    ensures var blob := before + Written(p) + after; var pos := |before|;
      && HasSection(blob, pos) && EndAt(blob, pos) == pos + |Written(p)| == pos + TLV_HEADER_LEN + |p.data|
      && SectionAt(blob, pos) == Section(p.sectionType, p.data, pos, EndAt(blob, pos))
  {
    hide LE, UnLE, Pow256;
    Widths();
    var blob, pos := before + Written(p) + after, |before|;
    LEBack(p.sectionType, 2);
    LEBack(|p.data|, 4);
    assert blob[pos..pos + 2] == LE(p.sectionType, 2);
    assert blob[pos + 4..pos + 8] == LE(|p.data|, 4);
    assert blob[pos + 8..pos + 8 + |p.data|] == p.data;
  }

  lemma FirstWritten(before: Bytes, p: Part, rest: Bytes)
    requires PartFits(p)
    ensures var (blob, end) := (before + Written(p) + rest, |before| + TLV_HEADER_LEN + |p.data|);
      && |Written(p)| == TLV_HEADER_LEN + |p.data|
      && Sections(blob, |before|) == [Section(p.sectionType, p.data, |before|, end)] + Sections(blob, end)
  {
    hide PartFits, Written, SectionAt, HasSection, EndAt, Sections;
    WrittenScanned(before, p, rest);
    SectionsStep(before + Written(p) + rest, |before|);
  }

  lemma PartsStep(parts: seq<Part>, pos: nat)
    requires PartsFit(parts)
    ensures parts == [] ==> Body(parts) == [] && Located(parts, pos) == []
    ensures parts != [] ==>
      var end := pos + TLV_HEADER_LEN + |parts[0].data|;
      && PartFits(parts[0]) && PartsFit(parts[1..]) && Body(parts) == Written(parts[0]) + Body(parts[1..])
      && Located(parts, pos) == [Section(parts[0].sectionType, parts[0].data, pos, end)] + Located(parts[1..], end)
  {
    hide PartFits, Written;
  }

  /** Scanning what was written gives every part back, at its place. */
  lemma {:induction false} WrittenBack(before: Bytes, parts: seq<Part>)
    requires PartsFit(parts)
    ensures Sections(before + Body(parts), |before|) == Located(parts, |before|)
    decreases |parts|
  {
    hide *;
    PartsStep(parts, |before|);
    if parts == [] {
      NothingLeft(before + Body(parts), |before|);
    } else {
      var (w, rest) := (Written(parts[0]), Body(parts[1..]));
      FirstWritten(before, parts[0], rest);
      WrittenBack(before + w, parts[1..]);
      assert before + (w + rest) == before + w + rest;
    }
  }

  lemma NothingLeft(blob: Bytes, pos: nat)
    requires pos == |blob|
    ensures Sections(blob, pos) == []
  {}

  /** A scanned section written again is the same bytes exactly when its reserved field is zero. */
  lemma SectionRewritten(blob: Bytes, pos: nat)
    requires HasSection(blob, pos)
    ensures var p := Part(SectionAt(blob, pos).sectionType, SectionAt(blob, pos).data);
      PartFits(p) && (Written(p) == blob[pos..EndAt(blob, pos)] <==> blob[pos + 2..pos + 4] == [0, 0])
  {
    hide LE, UnLE, Pow256;
    Widths();
    var p := Part(TypeAt(blob, pos), SectionAt(blob, pos).data);
    UnLEBack(blob[pos..pos + 2]);
    UnLEBack(blob[pos + 4..pos + 8]);
    ZeroLE();
    var (w, was) := (Written(p), blob[pos..EndAt(blob, pos)]);
    assert was == blob[pos..pos + 2] + blob[pos + 2..pos + 4] + blob[pos + 4..pos + 8] + p.data;
    assert w == blob[pos..pos + 2] + [0, 0] + blob[pos + 4..pos + 8] + p.data;
    assert w[2..4] == [0, 0] && was[2..4] == blob[pos + 2..pos + 4];
  }

  lemma ZeroLE()
    ensures LE(0, 2) == [0, 0]
  {
    assert LE(0, 1) == [0] + LE(0, 0);
  }

  // ---------------------------------------------------------------- header

  const HEADER_LEN: nat := 24
  const VERSION: nat := 2
  const MAGIC: Bytes := [70, 87, 66, 50]

  datatype Header = Header(version: nat, flags: nat, sectionCount: nat, headerLen: nat, payloadLen: nat, reserved: nat)

  predicate HeaderFits(h: Header) {
    h.version < 0x100 && h.flags < 0x100 && h.sectionCount < 0x1_0000 && h.headerLen < 0x1_0000_0000
    && h.payloadLen < 0x1_0000_0000 && h.reserved < 0x1_0000_0000
  }

  function Prefix(h: Header): (b: Bytes)
    ensures |b| == 20
  {
    MAGIC + LE(h.version, 1) + LE(h.flags, 1) + LE(h.sectionCount, 2)
    + LE(h.headerLen, 4) + LE(h.payloadLen, 4) + LE(h.reserved, 4)
  }

  /** The packed header; None when a field is too large for its width. */
  function PackHeader(h: Header, crc32: Bytes -> nat): Option<Bytes> {
    if HeaderFits(h) then Some(Prefix(h) + LE(crc32(Prefix(h)) % 0x1_0000_0000, 4)) else None
  }

  function ParseHeader(blob: Bytes, crc32: Bytes -> nat): Result<Header> {
    if |blob| < HEADER_LEN then Err(ParseError)
    else
      var (version, flags, count) := (UnLE(blob[4..5]), UnLE(blob[5..6]), UnLE(blob[6..8]));
      var (headerLen, payloadLen, reserved) := (UnLE(blob[8..12]), UnLE(blob[12..16]), UnLE(blob[16..20]));
      if blob[..4] != MAGIC then Err(ParseError)
      else if version != VERSION then Err(ParseError)
      else if headerLen != HEADER_LEN then Err(ParseError)
      else if UnLE(blob[20..24]) != crc32(blob[..20]) % 0x1_0000_0000 then Err(ParseError)
      else Ok(Header(version, flags, count, headerLen, payloadLen, reserved))
  }

  /** A packed header is read back whatever follows it, exactly when it states the supported version and
      header length. */
  lemma HeaderBack(h: Header, crc32: Bytes -> nat, rest: Bytes)
    requires HeaderFits(h)
    ensures var back := ParseHeader(PackHeader(h, crc32).value + rest, crc32);
      if h.version == VERSION && h.headerLen == HEADER_LEN then back == Ok(h) else back == Err(ParseError)
  {
    hide LE, UnLE, Pow256;
    Widths();
    var blob := PackHeader(h, crc32).value + rest;
    LEBack(h.version, 1);
    LEBack(h.flags, 1);
    LEBack(h.sectionCount, 2);
    LEBack(h.headerLen, 4);
    LEBack(h.payloadLen, 4);
    LEBack(h.reserved, 4);
    LEBack(crc32(Prefix(h)) % 0x1_0000_0000, 4);
    HeaderSlices(h, crc32(Prefix(h)) % 0x1_0000_0000, rest);
  }

  lemma HeaderSlices(h: Header, crc: nat, rest: Bytes)
    ensures var b := Prefix(h) + LE(crc, 4) + rest;
      && b[..4] == MAGIC && b[4..5] == LE(h.version, 1) && b[5..6] == LE(h.flags, 1) && b[6..8] == LE(h.sectionCount, 2)
      && b[8..12] == LE(h.headerLen, 4) && b[12..16] == LE(h.payloadLen, 4) && b[16..20] == LE(h.reserved, 4)
      && b[20..24] == LE(crc, 4) && b[..20] == Prefix(h)
  {
    hide LE;
  }
}
