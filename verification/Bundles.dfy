/** Building signed bundles: file sections, signature sections and the whole file. */
module Bundles {
  import opened Common
  import opened Wire
  import opened Manifests

  const TYPE_MANIFEST: nat := 1
  const TYPE_FILE: nat := 2
  const TYPE_SIGNATURE: nat := 3
  const TYPE_PADDING: nat := 4

  datatype BundleFile = BundleFile(path: string, content: Bytes)

  datatype Bundle = Bundle(
    header: Header, manifest: Manifest, files: seq<BundleFile>, keyId: string, mac: Bytes,
    raw: Bytes, sigOffset: nat, sigEnd: nat, payloadEnd: nat)

  // ---------------------------------------------------------------- file sections

  function FileData(path: string, content: Bytes, lib: Library): Option<Bytes> {
    match lib.utf8(path)
    case None => None
    case Some(p) => if |p| < Pow256(2) then Some(LE(|p|, 2) + p + content) else None
  }

  function DecodeFileSection(data: Bytes, lib: Library): Result<BundleFile> {
    if |data| < 2 then Err(ParseError)
    else
      var end := 2 + UnLE(data[..2]);
      if end > |data| then Err(ParseError)
      else
        match lib.text(data[2..end])
        case None => Err(ParseError)
        case Some(path) => if path == "" then Err(PathError) else Ok(BundleFile(path, data[end..]))
  }

  lemma FileBack(path: string, content: Bytes, lib: Library)
    requires Lawful(lib) && FileData(path, content, lib).Some?
    ensures DecodeFileSection(FileData(path, content, lib).value, lib)
         == if path == "" then Err(PathError) else Ok(BundleFile(path, content))
  {
    hide LE, UnLE, Pow256;
    var p := lib.utf8(path).value;
    var data := FileData(path, content, lib).value;
    LEBack(|p|, 2);
    assert data[..2] == LE(|p|, 2) && data[2..2 + |p|] == p && data[2 + |p|..] == content;
  }

  // ---------------------------------------------------------------- signatures

  function Find(data: Bytes, b: Byte): (r: Option<nat>)
    ensures r.Some? ==> r.value < |data|
  {
    if data == [] then None
    else if data[0] == b then Some(0)
    else match Find(data[1..], b) case None => None case Some(k) => Some(k + 1)
  }

  lemma {:induction false} FindFirst(front: Bytes, b: Byte, back: Bytes)
    requires b !in front
    ensures Find(front + [b] + back, b) == Some(|front|)
  {
    var all := front + [b] + back;
    if front != [] {
      assert all[1..] == front[1..] + [b] + back;
      assert front[0] in front && forall x :: x in front[1..] ==> x in front;
      FindFirst(front[1..], b, back);
    }
  }

  lemma {:induction false} FindSplits(data: Bytes, b: Byte)
    requires b in data
    ensures exists k: nat :: k < |data| && data[k] == b && b !in data[..k] && Find(data, b) == Some(k)
  {
    if data[0] == b {
      assert b !in data[..0];
    } else {
      assert data == [data[0]] + data[1..];
      FindSplits(data[1..], b);
      var k: nat :| k < |data[1..]| && data[1..][k] == b && b !in data[1..][..k] && Find(data[1..], b) == Some(k);
      assert data[..k + 1] == [data[0]] + data[1..][..k];
      assert data[k + 1] == b && Find(data, b) == Some(k + 1);
    }
  }

  function EncodeSignature(keyId: string, mac: Bytes, lib: Library): Option<Bytes> {
    match lib.utf8(keyId)
    case None => None
    case Some(id) => Some(id + [0] + mac)
  }

  function DecodeSignature(data: Bytes, lib: Library): Result<(string, Bytes)> {
    match Find(data, 0)
    case None => Err(SignatureError)
    case Some(nul) =>
      if |data[nul + 1..]| != MAC_LEN then Err(SignatureError)
      else
        match lib.text(data[..nul])
        case None => Err(SignatureError)
        case Some(keyId) => if keyId == "" then Err(SignatureError) else Ok((keyId, data[nul + 1..]))
  }

  /** A signature section is read back exactly when the key id is not empty and has no NUL in it. */
  lemma SignatureBack(keyId: string, mac: Bytes, lib: Library)
    requires Lawful(lib) && |mac| == MAC_LEN && EncodeSignature(keyId, mac, lib).Some?
    ensures DecodeSignature(EncodeSignature(keyId, mac, lib).value, lib)
         == if keyId == "" || '\0' in keyId then Err(SignatureError) else Ok((keyId, mac))
  {
    hide Find;
    var id := lib.utf8(keyId).value;
    var data := id + [0] + mac;
    assert 0 in id <==> '\0' in keyId;
    if 0 in id {
      FindSplits(id, 0);
      var k: nat :| k < |id| && id[k] == 0 && 0 !in id[..k];
      assert data == id[..k] + [0] + (id[k + 1..] + [0] + mac);
      FindFirst(id[..k], 0, id[k + 1..] + [0] + mac);
      assert |data[k + 1..]| > MAC_LEN;
    } else {
      FindFirst(id, 0, mac);
      assert data[..|id|] == id && data[|id| + 1..] == mac;
    }
  }

  function SignedBytes(blob: Bytes, sigOffset: nat, sigEnd: nat, payloadEnd: nat): Bytes {
    var (n, lo, hi) := (|blob|, Cut(sigEnd, |blob|), Cut(payloadEnd, |blob|));
    blob[..Cut(sigOffset, n)] + if lo <= hi then blob[lo..hi] else []
  }

  function Cut(i: nat, n: nat): (c: nat)
    ensures c <= n
  {
    if i <= n then i else n
  }

  // ---------------------------------------------------------------- building

  /** One part per entry of the manifest's file list; None when an entry has no path, names no content,
      or does not fit. */
  function FileParts(entries: seq<Option<RawEntry>>, files: map<string, Bytes>, lib: Library): Option<seq<Part>> {
    if entries == [] then Some([])
    else
      match FileParts(entries[..|entries| - 1], files, lib)
      case None => None
      case Some(parts) =>
        match FilePart(entries[|entries| - 1], files, lib)
        case None => None
        case Some(p) => Some(parts + [p])
  }

  function FilePart(entry: Option<RawEntry>, files: map<string, Bytes>, lib: Library): Option<Part> {
    if entry.None? || entry.value.path.None? || entry.value.path.value !in files then None
    else
      var path := entry.value.path.value;
      match FileData(path, files[path], lib)
      case None => None
      case Some(data) => if |data| < Pow256(4) then Some(Part(TYPE_FILE, data)) else None
  }

  function LeadingParts(raw: RawManifest, padding: Option<Bytes>, lib: Library): seq<Part> {
    (match padding case None => [] case Some(data) => [Part(TYPE_PADDING, data)]) + [Part(TYPE_MANIFEST, lib.dumps(raw))]
  }

  /** Every section but the signature. */
  function BodyParts(raw: RawManifest, files: map<string, Bytes>, padding: Option<Bytes>, lib: Library): Option<seq<Part>> {
    var leading := LeadingParts(raw, padding, lib);
    if !PartsFit(leading) || raw.files.None? then None
    else
      match FileParts(raw.files.value, files, lib)
      case None => None
      case Some(parts) => Some(leading + parts)
  }

  function HeaderFor(parts: seq<Part>, signature: Bytes, flags: nat): Header
    requires PartsFit(parts)
  {
    Header(VERSION, flags, |parts| + 1, HEADER_LEN, |Body(parts)| + TLV_HEADER_LEN + |signature|, 0)
  }

  /** The bundle made of the given parts. */
  function Assemble(parts: seq<Part>, keyId: string, secret: Bytes, flags: nat, lib: Library): Option<Bytes>
    requires PartsFit(parts)
  {
    match EncodeSignature(keyId, seq(MAC_LEN, _ => 0), lib)
    case None => None
    case Some(placeholder) =>
      if |placeholder| >= Pow256(4) then None
      else
        match PackHeader(HeaderFor(parts, placeholder, flags), lib.crc32)
        case None => None
        case Some(header) =>
          match EncodeSignature(keyId, lib.mac(secret, header + Body(parts)), lib)
          case None => None
          case Some(signature) =>
            match Tlv(TYPE_SIGNATURE, signature)
            case None => None
            case Some(tlv) => Some(header + Body(parts) + tlv)
  }

  lemma {:induction false} FilePartsFit(entries: seq<Option<RawEntry>>, files: map<string, Bytes>, lib: Library)
    ensures FileParts(entries, files, lib).Some? ==> PartsFit(FileParts(entries, files, lib).value)
    ensures FileParts(entries, files, lib).Some? ==> |FileParts(entries, files, lib).value| == |entries|
  {
    if entries != [] {
      FilePartsFit(entries[..|entries| - 1], files, lib);
    }
  }

  lemma BodyPartsFit(raw: RawManifest, files: map<string, Bytes>, padding: Option<Bytes>, lib: Library)
    ensures BodyParts(raw, files, padding, lib).Some? ==> PartsFit(BodyParts(raw, files, padding, lib).value)
  {
    hide PartFits;
    if raw.files.Some? {
      FilePartsFit(raw.files.value, files, lib);
    }
  }

  function Built(raw: RawManifest, files: map<string, Bytes>, keyId: string, secret: Bytes, flags: nat,
                 padding: Option<Bytes>, lib: Library): Option<Bytes> {
    BodyPartsFit(raw, files, padding, lib);
    match BodyParts(raw, files, padding, lib)
    case None => None
    case Some(parts) => Assemble(parts, keyId, secret, flags, lib)
  }

  lemma {:induction false} BodyAppend(parts: seq<Part>, p: Part)
    requires PartsFit(parts) && PartFits(p)
    ensures PartsFit(parts + [p]) && Body(parts + [p]) == Body(parts) + Written(p)
  {
    hide PartFits, Written;
    if parts == [] {
      assert [p][1..] == [];
    } else {
      assert (parts + [p])[1..] == parts[1..] + [p];
      BodyAppend(parts[1..], p);
    }
  }

  lemma BodyOfNothing()
    ensures PartsFit([]) && Body([]) == []
  {}

  lemma TlvWrites(p: Part)
    requires p.sectionType < 0x1_0000
    ensures Tlv(p.sectionType, p.data).Some? <==> PartFits(p)
    ensures PartFits(p) ==> Tlv(p.sectionType, p.data).value == Written(p)
  {}

  lemma LeadingFits(raw: RawManifest, padding: Option<Bytes>, lib: Library)
    ensures var leading := LeadingParts(raw, padding, lib);
      PartsFit(leading) ==> PartFits(leading[|leading| - 1]) && (padding.Some? ==> PartFits(leading[0]))
  {
    hide PartFits;
  }

  lemma NoFileParts(files: map<string, Bytes>, lib: Library)
    ensures FileParts([], files, lib) == Some([])
  {}

  lemma FilePartsStep(entries: seq<Option<RawEntry>>, i: nat, files: map<string, Bytes>, lib: Library)
    requires i < |entries|
    ensures FileParts(entries[..i + 1], files, lib) ==
      match FileParts(entries[..i], files, lib)
      case None => None
      case Some(parts) => (match FilePart(entries[i], files, lib) case None => None case Some(p) => Some(parts + [p]))
  {
    hide FilePart;
    assert entries[..i + 1][..i] == entries[..i];
  }

  lemma {:induction false} FilePartsStuck(entries: seq<Option<RawEntry>>, i: nat, files: map<string, Bytes>, lib: Library)
    requires i <= |entries| && FileParts(entries[..i], files, lib).None?
    ensures FileParts(entries, files, lib).None?
    decreases |entries| - i
  {
    hide FilePart;
    if i < |entries| {
      FilePartsStep(entries, i, files, lib);
      FilePartsStuck(entries, i + 1, files, lib);
    } else {
      assert entries[..i] == entries;
    }
  }

  lemma FilePartWrites(entry: Option<RawEntry>, files: map<string, Bytes>, lib: Library)
    requires FilePart(entry, files, lib).Some?
    ensures var p := FilePart(entry, files, lib).value;
      p.sectionType == TYPE_FILE && PartFits(p) && Tlv(p.sectionType, p.data) == Some(Written(p))
  {
    hide FileData;
  }

  /** Bytes of a signed bundle; None for the exceptions that stop the builder. */
  method BuildBundle(raw: RawManifest, files: map<string, Bytes>, keyId: string, secret: Bytes, flags: nat,
                     padding: Option<Bytes>, lib: Library) returns (blob: Option<Bytes>)
    ensures blob == Built(raw, files, keyId, secret, flags, padding, lib)
  {
    hide Assemble, FilePart, FileParts, PackHeader, EncodeSignature, Written, Body, PartFits, Pow256, Tlv;
    ghost var parts: seq<Part> := [];
    var body: Bytes := [];
    var sectionCount := 0;
    BodyOfNothing();
    LeadingFits(raw, padding, lib);
    if padding.Some? {
      var tlv := Tlv(TYPE_PADDING, padding.value);
      TlvWrites(Part(TYPE_PADDING, padding.value));
      if tlv.None? {
        return None;
      }
      BodyAppend(parts, Part(TYPE_PADDING, padding.value));
      body, parts, sectionCount := body + tlv.value, parts + [Part(TYPE_PADDING, padding.value)], sectionCount + 1;
    }
    var manifestJson := lib.dumps(raw);
    var tlv := Tlv(TYPE_MANIFEST, manifestJson);
    TlvWrites(Part(TYPE_MANIFEST, manifestJson));
    if tlv.None? {
      return None;
    }
    BodyAppend(parts, Part(TYPE_MANIFEST, manifestJson));
    body, parts, sectionCount := body + tlv.value, parts + [Part(TYPE_MANIFEST, manifestJson)], sectionCount + 1;
    ghost var leading := LeadingParts(raw, padding, lib);
    assert parts == leading;
    if raw.files.None? {
      return None;
    }
    var entries := raw.files.value;
    NoFileParts(files, lib);
    for i := 0 to |entries|
      invariant FileParts(entries[..i], files, lib).Some?
      invariant parts == leading + FileParts(entries[..i], files, lib).value
      invariant PartsFit(parts) && body == Body(parts) && sectionCount == |parts|
    {
      FilePartsStep(entries, i, files, lib);
      var p := FilePart(entries[i], files, lib);
      if p.None? {
        FilePartsStuck(entries, i + 1, files, lib);
        return None;
      }
      FilePartWrites(entries[i], files, lib);
      BodyAppend(parts, p.value);
      body, parts := body + Tlv(p.value.sectionType, p.value.data).value, parts + [p.value];
      sectionCount := sectionCount + 1;
    }
    assert entries[..|entries|] == entries;
    blob := Sign(parts, body, sectionCount, keyId, secret, flags, lib);
  }

  /** The last part of the builder: header, MAC and signature section. */
  method Sign(ghost parts: seq<Part>, body: Bytes, sectionCount: nat, keyId: string, secret: Bytes, flags: nat, lib: Library)
    returns (blob: Option<Bytes>)
    requires PartsFit(parts) && body == Body(parts) && sectionCount == |parts|
    ensures blob == Assemble(parts, keyId, secret, flags, lib)
  {
    hide PackHeader, EncodeSignature, Body, PartFits, Pow256;
    var placeholder := EncodeSignature(keyId, seq(MAC_LEN, _ => 0), lib);
    if placeholder.None? || |placeholder.value| >= Pow256(4) {
      return None;
    }
    var payloadLen := |body| + TLV_HEADER_LEN + |placeholder.value|;
    var header := PackHeader(Header(VERSION, flags, sectionCount + 1, HEADER_LEN, payloadLen, 0), lib.crc32);
    if header.None? {
      return None;
    }
    var mac := lib.mac(secret, header.value + body);
    var signature := EncodeSignature(keyId, mac, lib);
    if signature.None? {
      return None;
    }
    var tlv := Tlv(TYPE_SIGNATURE, signature.value);
    if tlv.None? {
      return None;
    }
    blob := Some(header.value + body + tlv.value);
  }
}
