/** What loading and verifying give for a bundle that was built. */
module BundleRoundTrip {
  import opened Common
  import opened Wire
  import opened Manifests
  import opened Bundles
  import opened BundleReader

  // ---------------------------------------------------------------- the parts of a built bundle

  lemma {:induction false} FilePartsAt(entries: seq<Option<RawEntry>>, files: map<string, Bytes>, lib: Library, k: nat)
    requires FileParts(entries, files, lib).Some? && k < |entries|
    ensures |FileParts(entries, files, lib).value| == |entries|
    ensures FilePart(entries[k], files, lib) == Some(FileParts(entries, files, lib).value[k])
  {
    hide FilePart;
    FilePartsFit(entries, files, lib);
    FilePartsFit(entries[..|entries| - 1], files, lib);
    if k < |entries| - 1 {
      FilePartsAt(entries[..|entries| - 1], files, lib, k);
    }
  }

  lemma FilePartIs(entry: Option<RawEntry>, files: map<string, Bytes>, lib: Library)
    requires FilePart(entry, files, lib).Some?
    ensures entry.Some? && entry.value.path.Some? && entry.value.path.value in files
    ensures var path := entry.value.path.value;
      FileData(path, files[path], lib) == Some(FilePart(entry, files, lib).value.data)
    ensures FilePart(entry, files, lib).value.sectionType == TYPE_FILE
  {
    hide FileData;
  }

  lemma {:induction false} AllOfType(parts: seq<Part>, t: nat)
    requires forall k :: 0 <= k < |parts| ==> parts[k].sectionType == t
    ensures |DatasOf(parts, t)| == |parts| && forall k :: 0 <= k < |parts| ==> DatasOf(parts, t)[k] == parts[k].data
  {
    if parts != [] {
      AllOfType(parts[1..], t);
    }
  }

  lemma {:induction false} NoneOfType(parts: seq<Part>, t: nat)
    requires forall k :: 0 <= k < |parts| ==> parts[k].sectionType != t
    ensures DatasOf(parts, t) == []
  {
    if parts != [] {
      NoneOfType(parts[1..], t);
    }
  }

  /** Sections of each type in a built bundle's body. */
  lemma BodyByType(raw: RawManifest, files: map<string, Bytes>, padding: Option<Bytes>, lib: Library)
    requires BodyParts(raw, files, padding, lib).Some?
    ensures raw.files.Some? && FileParts(raw.files.value, files, lib).Some?
    ensures var (parts, fileParts) := (BodyParts(raw, files, padding, lib).value, FileParts(raw.files.value, files, lib).value);
      && DatasOf(parts, TYPE_MANIFEST) == [lib.dumps(raw)] && DatasOf(parts, TYPE_FILE) == DatasOf(fileParts, TYPE_FILE)
      && (forall k :: 0 <= k < |parts| ==> parts[k].sectionType != TYPE_SIGNATURE)
      && |DatasOf(fileParts, TYPE_FILE)| == |fileParts| == |raw.files.value|
      && forall k :: 0 <= k < |fileParts| ==> DatasOf(fileParts, TYPE_FILE)[k] == fileParts[k].data
  {
    hide FilePart, FileParts, PartFits, DatasOf;
    var (leading, fileParts) := (LeadingParts(raw, padding, lib), FileParts(raw.files.value, files, lib).value);
    FilePartsFit(raw.files.value, files, lib);
    forall k | 0 <= k < |fileParts|
      ensures fileParts[k].sectionType == TYPE_FILE
    {
      FilePartsAt(raw.files.value, files, lib, k);
      FilePartIs(raw.files.value[k], files, lib);
    }
    AllOfType(fileParts, TYPE_FILE);
    NoneOfType(fileParts, TYPE_MANIFEST);
    LeadingByType(raw, padding, lib);
    DatasAppend(leading, fileParts, TYPE_MANIFEST);
    DatasAppend(leading, fileParts, TYPE_FILE);
  }

  lemma LeadingByType(raw: RawManifest, padding: Option<Bytes>, lib: Library)
    ensures DatasOf(LeadingParts(raw, padding, lib), TYPE_MANIFEST) == [lib.dumps(raw)]
    ensures DatasOf(LeadingParts(raw, padding, lib), TYPE_FILE) == []
  {
    var manifest := [Part(TYPE_MANIFEST, lib.dumps(raw))];
    match padding {
      case None =>
        assert LeadingParts(raw, padding, lib) == manifest;
      case Some(data) =>
        DatasAppend([Part(TYPE_PADDING, data)], manifest, TYPE_MANIFEST);
        DatasAppend([Part(TYPE_PADDING, data)], manifest, TYPE_FILE);
    }
  }

  /** A built bundle is a header, the body and one signature section over both. */
  lemma AssembledShape(parts: seq<Part>, keyId: string, secret: Bytes, flags: nat, lib: Library)
      returns (header: Bytes, signature: Bytes)
    requires Lawful(lib) && PartsFit(parts) && Assemble(parts, keyId, secret, flags, lib).Some?
    ensures EncodeSignature(keyId, lib.mac(secret, header + Body(parts)), lib) == Some(signature)
    ensures PartFits(Part(TYPE_SIGNATURE, signature)) && PartsFit(parts + [Part(TYPE_SIGNATURE, signature)])
    ensures PackHeader(HeaderFor(parts, signature, flags), lib.crc32) == Some(header)
    ensures Assemble(parts, keyId, secret, flags, lib).value == header + Body(parts + [Part(TYPE_SIGNATURE, signature)])
  {
    hide Body, Pow256, LE, PackHeader;
    var placeholder := EncodeSignature(keyId, seq(MAC_LEN, _ => 0), lib).value;
    header := PackHeader(HeaderFor(parts, placeholder, flags), lib.crc32).value;
    signature := EncodeSignature(keyId, lib.mac(secret, header + Body(parts)), lib).value;
    assert |signature| == |placeholder|;
    BodyAppend(parts, Part(TYPE_SIGNATURE, signature));
    assert header + Body(parts) + Written(Part(TYPE_SIGNATURE, signature))
        == header + (Body(parts) + Written(Part(TYPE_SIGNATURE, signature)));
  }

  lemma PackedFits(h: Header, crc32: Bytes -> nat)
    ensures PackHeader(h, crc32).Some? ==> HeaderFits(h) && |PackHeader(h, crc32).value| == HEADER_LEN
  {}

  /** Sections found when a built bundle is scanned. */
  lemma SectionsOfBuilt(header: Bytes, parts: seq<Part>, signature: Bytes)
    requires PartsFit(parts) && PartFits(Part(TYPE_SIGNATURE, signature)) && PartsFit(parts + [Part(TYPE_SIGNATURE, signature)])
    requires forall k :: 0 <= k < |parts| ==> parts[k].sectionType != TYPE_SIGNATURE
    ensures var blob := header + Body(parts + [Part(TYPE_SIGNATURE, signature)]);
      var sections := Sections(blob, |header|);
      var at := |header| + |Body(parts)|;
      && Datas(OfType(sections, TYPE_MANIFEST)) == DatasOf(parts, TYPE_MANIFEST)
      && Datas(OfType(sections, TYPE_FILE)) == DatasOf(parts, TYPE_FILE)
      && OfType(sections, TYPE_SIGNATURE) == [Section(TYPE_SIGNATURE, signature, at, |blob|)]
      && |blob| == at + TLV_HEADER_LEN + |signature| && blob[..at] == header + Body(parts)
  {
    hide PartFits, DatasOf, OfType, Sections, Located, Body;
    var last := Part(TYPE_SIGNATURE, signature);
    var all := parts + [last];
    WrittenBack(header, all);
    BodyAppend(parts, last);
    WrittenLength(last);
    LocatedOfType(all, |header|, TYPE_MANIFEST);
    LocatedOfType(all, |header|, TYPE_FILE);
    DatasAppend(parts, [last], TYPE_MANIFEST);
    DatasAppend(parts, [last], TYPE_FILE);
    NoneOfType([last], TYPE_MANIFEST);
    NoneOfType([last], TYPE_FILE);
    LastOfType(parts, last, |header|);
  }

  lemma WrittenLength(p: Part)
    requires PartFits(p)
    ensures |Written(p)| == TLV_HEADER_LEN + |p.data|
  {}

  // ---------------------------------------------------------------- files

  function FilesOf(entries: seq<FileEntry>, files: map<string, Bytes>): seq<BundleFile>
    requires forall k :: 0 <= k < |entries| ==> entries[k].path in files
  {
    seq(|entries|, k requires 0 <= k < |entries| => BundleFile(entries[k].path, files[entries[k].path]))
  }

  lemma {:induction false} AllDecoded(sections: seq<Section>, fs: seq<BundleFile>, lib: Library)
    requires |sections| == |fs|
    requires forall k :: 0 <= k < |fs| ==> DecodeFileSection(sections[k].data, lib) == Ok(fs[k])
    ensures DecodeFiles(sections, lib) == Ok(fs)
  {
    hide DecodeFileSection;
    if sections == [] {
      assert fs == [];
    } else {
      assert DecodeFileSection(sections[0].data, lib) == Ok(fs[0]) && fs == [fs[0]] + fs[1..];
      AllDecoded(sections[1..], fs[1..], lib);
    }
  }

  lemma {:induction false} ByPathOf(entries: seq<FileEntry>, files: map<string, Bytes>, n: nat)
    requires n <= |entries| && forall k :: 0 <= k < |entries| ==> entries[k].path in files
    ensures var m := ByPath(FilesOf(entries, files)[..n]);
      && (forall k :: 0 <= k < n ==> entries[k].path in m)
      && (forall p :: p in m ==> p in files && m[p] == files[p])
  {
    if n > 0 {
      ByPathOf(entries, files, n - 1);
      assert FilesOf(entries, files)[..n][..n - 1] == FilesOf(entries, files)[..n - 1];
    }
  }

  lemma SameCheck(entries: seq<FileEntry>, files: map<string, Bytes>, lib: Library)
    requires forall k :: 0 <= k < |entries| ==> entries[k].path in files
    ensures Consistent(entries, ByPath(FilesOf(entries, files)), lib) <==> Consistent(entries, files, lib)
  {
    hide ByPath, FilesOf;
    ByPathOf(entries, files, |entries|);
    assert FilesOf(entries, files)[..|entries|] == FilesOf(entries, files) by { FilesLength(entries, files); }
    var m := ByPath(FilesOf(entries, files));
    forall k | 0 <= k < |entries|
      ensures EntryMatches(entries[k], m, lib) <==> EntryMatches(entries[k], files, lib)
    {}
  }

  lemma FilesLength(entries: seq<FileEntry>, files: map<string, Bytes>)
    requires forall k :: 0 <= k < |entries| ==> entries[k].path in files
    ensures |FilesOf(entries, files)| == |entries|
  {}

  /** Every file section of a built bundle decodes to the manifest's path and the given content. */
  lemma FilesBack(raw: seq<Option<RawEntry>>, entries: seq<FileEntry>, files: map<string, Bytes>, sections: seq<Section>, lib: Library)
    requires Lawful(lib) && FileParts(raw, files, lib).Some? && ParseEntries(raw) == Ok(entries)
    requires |Datas(sections)| == |raw| == |FileParts(raw, files, lib).value|
    requires forall k :: 0 <= k < |raw| ==> Datas(sections)[k] == FileParts(raw, files, lib).value[k].data
    ensures forall k :: 0 <= k < |entries| ==> entries[k].path in files
    ensures DecodeFiles(sections, lib) == Ok(FilesOf(entries, files))
  {
    hide FileParts, FilePart, FileData, DecodeFileSection, ParseEntries, DecodeFiles, Lawful;
    EntriesKept(raw);
    forall k | 0 <= k < |entries|
      ensures entries[k].path in files
      ensures DecodeFileSection(sections[k].data, lib) == Ok(BundleFile(entries[k].path, files[entries[k].path]))
    {
      FilePartsAt(raw, files, lib, k);
      FilePartIs(raw[k], files, lib);
      assert Datas(sections)[k] == sections[k].data;
      FileBack(entries[k].path, files[entries[k].path], lib);
    }
    AllDecoded(sections, FilesOf(entries, files), lib);
  }

  // ---------------------------------------------------------------- main results

  lemma DatasShape(sections: seq<Section>, d: Bytes)
    requires Datas(sections) == [d]
    ensures |sections| == 1 && sections[0].data == d
  {
    assert |Datas(sections)| == |sections|;
    assert Datas(sections)[0] == sections[0].data;
  }

  /** Loading a built bundle, up to the checks on digests and signature. */
  lemma LoadReaches(raw: RawManifest, files: map<string, Bytes>, keyId: string, secret: Bytes, flags: nat,
                    padding: Option<Bytes>, lib: Library)
      returns (header: Bytes, body: Bytes, signature: Bytes, h: Header)
    requires Lawful(lib) && ReadsBack(lib, raw) && Built(raw, files, keyId, secret, flags, padding, lib).Some?
    ensures EncodeSignature(keyId, lib.mac(secret, header + body), lib) == Some(signature)
    ensures h.headerLen + h.payloadLen == |Built(raw, files, keyId, secret, flags, padding, lib).value| && h.flags == flags
    ensures var blob := Built(raw, files, keyId, secret, flags, padding, lib).value;
      var at := |header + body|;
      && |blob| == at + TLV_HEADER_LEN + |signature| && blob[..at] == header + body
      && match ParseManifest(lib.dumps(raw), lib)
         case Err(e) => Loaded(blob, lib) == Err(e)
         case Ok(m) =>
           && (forall k :: 0 <= k < |m.files| ==> m.files[k].path in files)
           && Loaded(blob, lib)
           == Checked(h, m, FilesOf(m.files, files), Section(TYPE_SIGNATURE, signature, at, |blob|), blob, lib)
  {
    hide BodyParts, Assemble, Lawful, ParseHeader, PackHeader, OfType, Sections, ParseManifest, DecodeFiles, Checked, EncodeSignature, Body, PartFits, FileParts, DatasOf, FilesOf, Datas;
    BodyPartsFit(raw, files, padding, lib);
    var parts := BodyParts(raw, files, padding, lib).value;
    header, signature := AssembledShape(parts, keyId, secret, flags, lib);
    body, h := Body(parts), HeaderFor(parts, signature, flags);
    var blob := Built(raw, files, keyId, secret, flags, padding, lib).value;
    PackedFits(h, lib.crc32);
    HeaderBack(h, lib.crc32, Body(parts + [Part(TYPE_SIGNATURE, signature)]));
    BodyByType(raw, files, padding, lib);
    SectionsOfBuilt(header, parts, signature);
    var sections := Sections(blob, HEADER_LEN);
    DatasShape(OfType(sections, TYPE_MANIFEST), lib.dumps(raw));
    if ParseManifest(lib.dumps(raw), lib).Ok? {
      var m := ParseManifest(lib.dumps(raw), lib).value;
      ManifestEntries(raw, m, lib);
      FilesBack(raw.files.value, m.files, files, OfType(sections, TYPE_FILE), lib);
    }
  }

  lemma ManifestEntries(raw: RawManifest, m: Manifest, lib: Library)
    requires Lawful(lib) && ReadsBack(lib, raw) && ParseManifest(lib.dumps(raw), lib) == Ok(m)
    ensures raw.files.Some? && ParseEntries(raw.files.value) == Ok(m.files)
    ensures IsText(raw.name) && IsText(raw.version) && IsText(raw.vendorId)
    ensures m.name == raw.name.value && m.version == raw.version.value && m.vendorId == raw.vendorId.value
    ensures raw.targetModels == Some(m.targetModels) && m.postInstall == raw.postInstall
  {
    hide ParseEntries;
  }

  /** The loaded bundle is the one that was built: same manifest, files, key id and MAC, and the signed
      range is everything before the signature section, which ends the file. */
  ghost predicate Carries(b: Bundle, m: Manifest, files: map<string, Bytes>, keyId: string, secret: Bytes, flags: nat,
                          blob: Bytes, lib: Library) {
    && b.manifest == m && b.keyId == keyId && b.raw == blob && b.header.flags == flags
    && (forall k :: 0 <= k < |m.files| ==> m.files[k].path in files) && b.files == FilesOf(m.files, files)
    && b.sigOffset <= |blob| && b.sigEnd == b.payloadEnd == |blob|
    && SignedBytes(b.raw, b.sigOffset, b.sigEnd, b.payloadEnd) == blob[..b.sigOffset]
    && b.mac == lib.mac(secret, blob[..b.sigOffset])
  }

  /** Loading a built bundle fails exactly for an invalid manifest, a wrong digest, or a key id that is
      empty or holds a NUL; otherwise it gives back what was built. */
  lemma LoadBuilt(raw: RawManifest, files: map<string, Bytes>, keyId: string, secret: Bytes, flags: nat,
                  padding: Option<Bytes>, lib: Library, blob: Bytes)
    requires Lawful(lib) && ReadsBack(lib, raw) && Built(raw, files, keyId, secret, flags, padding, lib) == Some(blob)
    ensures match ParseManifest(lib.dumps(raw), lib)
      case Err(e) => Loaded(blob, lib) == Err(e)
      case Ok(m) =>
        if !Consistent(m.files, files, lib) then Loaded(blob, lib) == Err(ConsistencyError)
        else if keyId == "" || '\0' in keyId then Loaded(blob, lib) == Err(SignatureError)
        else Loaded(blob, lib).Ok? && Carries(Loaded(blob, lib).value, m, files, keyId, secret, flags, blob, lib)
  {
    hide Built, Loaded, ParseManifest, EncodeSignature, DecodeSignature, Consistent, FilesOf, ByPath, Lawful;
    var header, body, signature, h := LoadReaches(raw, files, keyId, secret, flags, padding, lib);
    MacLength(lib, secret, header + body);
    SignatureBack(keyId, lib.mac(secret, header + body), lib);
    if ParseManifest(lib.dumps(raw), lib).Ok? {
      var m := ParseManifest(lib.dumps(raw), lib).value;
      SameCheck(m.files, files, lib);
      assert SignedBytes(blob, |header + body|, |blob|, |blob|) == header + body;
    }
  }

  lemma MacLength(lib: Library, secret: Bytes, message: Bytes)
    requires Lawful(lib)
    ensures |lib.mac(secret, message)| == MAC_LEN
  {}

  /** A built bundle that loads is accepted exactly with a key whose MAC over the signed range is the one
      written; so it is accepted with the key it was signed with. */
  lemma VerifyBuilt(raw: RawManifest, files: map<string, Bytes>, keyId: string, secret: Bytes, flags: nat,
                    padding: Option<Bytes>, lib: Library, blob: Bytes, b: Bundle, keyring: map<string, Bytes>)
    requires Lawful(lib) && ReadsBack(lib, raw) && Built(raw, files, keyId, secret, flags, padding, lib) == Some(blob)
    requires Loaded(blob, lib) == Ok(b)
    ensures b.sigOffset <= |blob|
    ensures VerifyBundle(b, keyring, lib).Ok? <==>
      keyId in keyring && lib.mac(keyring[keyId], blob[..b.sigOffset]) == lib.mac(secret, blob[..b.sigOffset])
    ensures keyId in keyring && keyring[keyId] == secret ==> VerifyBundle(b, keyring, lib) == Ok(true)
  {
    hide Built, Loaded, ParseManifest, Consistent, FilesOf, SignedBytes, Lawful;
    LoadBuilt(raw, files, keyId, secret, flags, padding, lib, blob);
  }

  // ---------------------------------------------------------------- structure of a built bundle

  lemma {:induction false} LocatedShape(parts: seq<Part>, pos: nat)
    requires PartsFit(parts)
    ensures |Located(parts, pos)| == |parts| && StopAt(Located(parts, pos), pos) == pos + |Body(parts)|
  {
    hide Pow256, LE;
    if parts != [] {
      var end := pos + TLV_HEADER_LEN + |parts[0].data|;
      LocatedShape(parts[1..], end);
      WrittenLength(parts[0]);
      var rest := Located(parts[1..], end);
      assert Located(parts, pos) == [Section(parts[0].sectionType, parts[0].data, pos, end)] + rest;
    }
  }

  /** A built bundle has the documented structure: the header counts its sections and its payload exactly,
      sections fill the payload, and there is one manifest and one signature. */
  lemma BuiltConforms(raw: RawManifest, files: map<string, Bytes>, keyId: string, secret: Bytes, flags: nat,
                      padding: Option<Bytes>, lib: Library, blob: Bytes)
    requires Lawful(lib) && Built(raw, files, keyId, secret, flags, padding, lib) == Some(blob)
    ensures ParseHeader(blob, lib.crc32).Ok?
    ensures var h := ParseHeader(blob, lib.crc32).value;
      var sections := Sections(blob, h.headerLen);
      && h.headerLen + h.payloadLen == |blob| && h.sectionCount == |sections| && h.reserved == 0
      && StopAt(sections, h.headerLen) == |blob|
      && |OfType(sections, TYPE_MANIFEST)| == 1 == |OfType(sections, TYPE_SIGNATURE)|
  {
    hide BodyParts, Assemble, Lawful, ParseHeader, PackHeader, OfType, Sections, EncodeSignature, Body, PartFits, FileParts, DatasOf, Datas, Located, StopAt;
    BodyPartsFit(raw, files, padding, lib);
    var parts := BodyParts(raw, files, padding, lib).value;
    var header, signature := AssembledShape(parts, keyId, secret, flags, lib);
    var all := parts + [Part(TYPE_SIGNATURE, signature)];
    var h := HeaderFor(parts, signature, flags);
    PackedFits(h, lib.crc32);
    HeaderBack(h, lib.crc32, Body(all));
    BodyByType(raw, files, padding, lib);
    SectionsOfBuilt(header, parts, signature);
    DatasShape(OfType(Sections(blob, HEADER_LEN), TYPE_MANIFEST), lib.dumps(raw));
    WrittenBack(header, all);
    LocatedShape(all, HEADER_LEN);
  }
}
