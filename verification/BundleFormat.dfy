/** What the reader accepts, over every byte sequence: the bytes of a header, and the bundles that load. */
module BundleFormat {
  import opened Common
  import opened Wire
  import opened Manifests
  import opened Bundles
  import opened BundleReader

  // ---------------------------------------------------------------- the header

  lemma Number1(b: Bytes)
    requires |b| == 1
    ensures UnLE(b) == b[0]
  {
    assert UnLE(b[1..]) == 0;
  }

  lemma Number2(b: Bytes)
    requires |b| == 2
    ensures UnLE(b) == b[0] as int + 0x100 * b[1] as int
  {
    Number1(b[1..]);
  }

  lemma Number4(b: Bytes)
    requires |b| == 4
    ensures UnLE(b) == Number(b, 0)
  {
    Number2(b[2..]);
    assert b[1..][1..] == b[2..];
    assert UnLE(b[1..]) == b[1] as int + 0x100 * UnLE(b[1..][1..]);
  }

  function Number(b: Bytes, at: nat): int
    requires at + 4 <= |b|
  {
    b[at] as int + 0x100 * b[at + 1] as int + 0x1_0000 * b[at + 2] as int + 0x100_0000 * b[at + 3] as int
  }

  /** The 24 bytes of a header: the magic FWB2, then its fields in order, little-endian, then the checksum of
      the 20 bytes before it. */
  predicate IsHeader(b: Bytes, h: Header, crc32: Bytes -> nat)
    requires |b| >= 24
  {
    && b[..4] == [70, 87, 66, 50] && b[4] == h.version && b[5] == h.flags && b[6] as int + 0x100 * b[7] as int == h.sectionCount
    && Number(b, 8) == h.headerLen && Number(b, 12) == h.payloadLen && Number(b, 16) == h.reserved
    && Number(b, 20) == crc32(b[..20]) % 0x1_0000_0000
  }

  /** A header is parsed exactly from those bytes, and only of version 2 and length 24; anything else is a
      ParseError. */
  lemma HeaderExact(blob: Bytes, crc32: Bytes -> nat, h: Header)
    ensures ParseHeader(blob, crc32) == Ok(h) <==> |blob| >= 24 && IsHeader(blob, h, crc32) && h.version == 2 && h.headerLen == 24
    ensures ParseHeader(blob, crc32).Err? ==> ParseHeader(blob, crc32).error == ParseError
  {
    hide UnLE;
    if |blob| >= 24 {
      Fields(blob);
    }
  }

  /** The fields that stand in the first 24 bytes. */
  lemma Fields(b: Bytes)
    requires |b| >= 24
    ensures UnLE(b[4..5]) == b[4] && UnLE(b[5..6]) == b[5] && UnLE(b[6..8]) == b[6] as int + 0x100 * b[7] as int
    ensures UnLE(b[8..12]) == Number(b, 8) && UnLE(b[12..16]) == Number(b, 12)
    ensures UnLE(b[16..20]) == Number(b, 16) && UnLE(b[20..24]) == Number(b, 20)
  {
    hide UnLE;
    Number1(b[4..5]);
    Number1(b[5..6]);
    Number2(b[6..8]);
    Number4(b[8..12]);
    Number4(b[12..16]);
    Number4(b[16..20]);
    Number4(b[20..24]);
  }

  lemma FieldsBack(b: Bytes)
    requires |b| >= 24
    ensures b[4..5] == LE(UnLE(b[4..5]), 1) && b[5..6] == LE(UnLE(b[5..6]), 1) && b[6..8] == LE(UnLE(b[6..8]), 2)
    ensures b[8..12] == LE(UnLE(b[8..12]), 4) && b[12..16] == LE(UnLE(b[12..16]), 4)
    ensures b[16..20] == LE(UnLE(b[16..20]), 4) && b[20..24] == LE(UnLE(b[20..24]), 4)
  {
    UnLEBack(b[4..5]);
    UnLEBack(b[5..6]);
    UnLEBack(b[6..8]);
    UnLEBack(b[8..12]);
    UnLEBack(b[12..16]);
    UnLEBack(b[16..20]);
    UnLEBack(b[20..24]);
  }

  lemma PackedIsHeader(h: Header, crc32: Bytes -> nat, blob: Bytes)
    requires HeaderFits(h) && PackHeader(h, crc32).value <= blob
    ensures |blob| >= 24 && IsHeader(blob, h, crc32)
  {
    hide UnLE, LE, Pow256, Number;
    Widths();
    var crc := crc32(Prefix(h)) % 0x1_0000_0000;
    assert blob == Prefix(h) + LE(crc, 4) + blob[24..];
    HeaderSlices(h, crc, blob[24..]);
    Fields(blob);
    LEBack(h.version, 1);
    LEBack(h.flags, 1);
    LEBack(h.sectionCount, 2);
    LEBack(h.headerLen, 4);
    LEBack(h.payloadLen, 4);
    LEBack(h.reserved, 4);
    LEBack(crc, 4);
  }

  lemma HeaderIsPacked(h: Header, crc32: Bytes -> nat, blob: Bytes)
    requires |blob| >= 24 && IsHeader(blob, h, crc32)
    ensures HeaderFits(h) && PackHeader(h, crc32).value <= blob
  {
    hide UnLE, LE, Pow256, Number;
    Widths();
    Fields(blob);
    FieldsBack(blob);
    assert blob[..20] == blob[..4] + blob[4..5] + blob[5..6] + blob[6..8] + blob[8..12] + blob[12..16] + blob[16..20];
    assert blob[..24] == blob[..20] + blob[20..24];
  }

  /** Packing writes those 24 bytes, and nothing else is a header. */
  lemma PackedExact(h: Header, crc32: Bytes -> nat, blob: Bytes)
    ensures PackHeader(h, crc32).Some? <==> HeaderFits(h)
    ensures HeaderFits(h) && PackHeader(h, crc32).value <= blob <==> |blob| >= 24 && IsHeader(blob, h, crc32)
  {
    hide PackHeader, IsHeader;
    PackedWhenFits(h, crc32);
    if HeaderFits(h) && PackHeader(h, crc32).value <= blob {
      PackedIsHeader(h, crc32, blob);
    }
    if |blob| >= 24 && IsHeader(blob, h, crc32) {
      HeaderIsPacked(h, crc32, blob);
    }
  }

  lemma PackedWhenFits(h: Header, crc32: Bytes -> nat)
    ensures PackHeader(h, crc32).Some? <==> HeaderFits(h)
  {}

  // ---------------------------------------------------------------- sections

  /** A section states its type in two bytes and the length of its data in the last four of its first eight;
      there is one at a position exactly when all of its data is there. */
  lemma SectionBytes(blob: Bytes, pos: nat)
    ensures HasSection(blob, pos) <==> pos + 8 <= |blob| && pos + 8 + Number(blob, pos + 4) <= |blob|
    ensures HasSection(blob, pos) ==>
      var (s, end) := (SectionAt(blob, pos), pos + 8 + Number(blob, pos + 4));
      && s.sectionType == blob[pos] as int + 0x100 * blob[pos + 1] as int
      && s.data == blob[pos + 8..end] && s.offset == pos && s.end == end
  {
    hide UnLE;
    if pos + 8 <= |blob| {
      Number2(blob[pos..pos + 2]);
      Number4(blob[pos + 4..pos + 8]);
    }
  }

  predicate IsFirst(sections: seq<Section>, t: nat, k: nat) {
    k < |sections| && sections[k].sectionType == t && forall j :: 0 <= j < k ==> sections[j].sectionType != t
  }

  predicate IsLast(sections: seq<Section>, t: nat, k: nat) {
    k < |sections| && sections[k].sectionType == t && forall j :: k < j < |sections| ==> sections[j].sectionType != t
  }

  lemma {:induction false} FirstOf(sections: seq<Section>, t: nat, k: nat)
    ensures IsFirst(sections, t, k) ==> OfType(sections, t) != [] && OfType(sections, t)[0] == sections[k]
    ensures OfType(sections, t) == [] <==> forall j :: 0 <= j < |sections| ==> sections[j].sectionType != t
  {
    if sections != [] {
      FirstOf(sections[1..], t, if k > 0 then k - 1 else 0);
      assert sections == [sections[0]] + sections[1..];
    }
  }

  lemma {:induction false} LastOfSections(sections: seq<Section>, t: nat, k: nat)
    requires IsLast(sections, t, k)
    ensures OfType(sections, t) != [] && OfType(sections, t)[|OfType(sections, t)| - 1] == sections[k]
  {
    if k > 0 {
      LastOfSections(sections[1..], t, k - 1);
    } else {
      FirstOf(sections[1..], t, 0);
    }
  }

  lemma {:induction false} HasFirst(sections: seq<Section>, t: nat) returns (k: nat)
    requires OfType(sections, t) != []
    ensures IsFirst(sections, t, k)
  {
    if sections[0].sectionType == t {
      k := 0;
    } else {
      k := HasFirst(sections[1..], t);
      k := k + 1;
    }
  }

  lemma {:induction false} HasLast(sections: seq<Section>, t: nat) returns (k: nat)
    requires OfType(sections, t) != []
    ensures IsLast(sections, t, k)
  {
    FirstOf(sections[1..], t, 0);
    if OfType(sections[1..], t) == [] {
      k := 0;
      assert sections == [sections[0]] + sections[1..];
    } else {
      k := HasLast(sections[1..], t);
      k := k + 1;
    }
  }

  // ---------------------------------------------------------------- files

  /** The file sections decode one by one. */
  lemma {:induction false} FilesExact(sections: seq<Section>, lib: Library, files: seq<BundleFile>)
    ensures DecodeFiles(sections, lib) == Ok(files) <==>
      |files| == |sections| && forall k :: 0 <= k < |files| ==> DecodeFileSection(sections[k].data, lib) == Ok(files[k])
  {
    hide DecodeFileSection;
    if sections != [] {
      if files == [] {
        assert DecodeFiles(sections, lib) != Ok([]);
      } else {
        FilesExact(sections[1..], lib, files[1..]);
        assert files == [files[0]] + files[1..];
        if DecodeFiles(sections[1..], lib).Ok? {
          assert ([files[0]] + DecodeFiles(sections[1..], lib).value)[1..] == DecodeFiles(sections[1..], lib).value;
        }
      }
    }
  }

  /** Content is looked up in the last file of a path. */
  lemma {:induction false} ContentOf(files: seq<BundleFile>, path: string, k: nat)
    ensures path in ByPath(files) <==> exists f :: f in files && f.path == path
    ensures k < |files| && files[k].path == path && (forall j :: k < j < |files| ==> files[j].path != path) ==>
      path in ByPath(files) && ByPath(files)[path] == files[k].content
  {
    if files != [] {
      var n := |files| - 1;
      ContentOf(files[..n], path, k);
      assert files == files[..n] + [files[n]];
    }
  }

  /** A file section is the length of the path, the path and the content; the path must not be empty. */
  lemma FileSectionExact(data: Bytes, lib: Library, file: BundleFile)
    ensures DecodeFileSection(data, lib) == Ok(file) <==>
      && |data| >= 2 && file.path != ""
      && var end := 2 + data[0] as int + 0x100 * data[1] as int;
         end <= |data| && lib.text(data[2..end]) == Some(file.path) && file.content == data[end..]
  {
    hide UnLE;
    if |data| >= 2 {
      Number2(data[..2]);
    }
  }

  /** A signature section is a key id that is not empty, the first NUL, and 32 bytes of MAC. */
  lemma SignatureExact(data: Bytes, lib: Library, keyId: string, mac: Bytes)
    ensures DecodeSignature(data, lib) == Ok((keyId, mac)) <==>
      && |data| >= 33 && data[|data| - 33] == 0 && 0 !in data[..|data| - 33]
      && lib.text(data[..|data| - 33]) == Some(keyId) && keyId != "" && mac == data[|data| - 32..]
  {
    hide Find;
    if 0 in data {
      FindSplits(data, 0);
      var k: nat :| k < |data| && data[k] == 0 && 0 !in data[..k] && Find(data, 0) == Some(k);
      if |data| >= 33 && data[|data| - 33] == 0 && 0 !in data[..|data| - 33] {
        assert k == |data| - 33;
      }
    } else {
      NotFound(data);
    }
  }

  lemma {:induction false} NotFound(data: Bytes)
    requires 0 !in data
    ensures Find(data, 0) == None
  {
    if data != [] {
      assert data == [data[0]] + data[1..];
      NotFound(data[1..]);
    }
  }

  /** A manifest parses exactly when name, version and vendor are texts that are not empty, there is at least one
      target model, and every listed file is usable. */
  lemma ManifestExact(data: Bytes, lib: Library, m: Manifest)
    ensures ParseManifest(data, lib) == Ok(m) <==>
      && lib.loads(data).Some?
      && var raw := lib.loads(data).value;
      && raw.name == Some(m.name) && m.name != "" && raw.version == Some(m.version) && m.version != ""
      && raw.vendorId == Some(m.vendorId) && m.vendorId != "" && raw.targetModels == Some(m.targetModels) && m.targetModels != []
      && raw.postInstall == m.postInstall
      && raw.files.Some? && |raw.files.value| == |m.files|
      && forall k :: 0 <= k < |m.files| ==>
           raw.files.value[k] == Some(RawEntry(Some(m.files[k].path), m.files[k].sha256, m.files[k].size)) && m.files[k].path != ""
  {
    hide ParseEntries;
    if lib.loads(data).Some? && lib.loads(data).value.files.Some? {
      var files := lib.loads(data).value.files.value;
      EntriesKept(files);
      if ParseEntries(files).Ok? && |files| == |m.files|
        && forall k :: 0 <= k < |m.files| ==> files[k] == Some(RawEntry(Some(m.files[k].path), m.files[k].sha256, m.files[k].size))
      {
        assert forall k :: 0 <= k < |files| ==> ParseEntries(files).value[k] == m.files[k];
        assert ParseEntries(files).value == m.files;
      }
    }
  }

  // ---------------------------------------------------------------- loading

  /** The listed digest is the one of the last file of its path. */
  ghost predicate DigestMet(entry: FileEntry, files: seq<BundleFile>, lib: Library) {
    exists k: nat :: IsContent(files, entry.path, k) && Some(lib.sha256(files[k].content)) == entry.sha256
  }

  predicate IsContent(files: seq<BundleFile>, path: string, k: nat) {
    k < |files| && files[k].path == path && forall j :: k < j < |files| ==> files[j].path != path
  }

  lemma DigestExact(entry: FileEntry, files: seq<BundleFile>, lib: Library)
    ensures EntryMatches(entry, ByPath(files), lib) <==> DigestMet(entry, files, lib)
  {
    hide ByPath;
    if entry.path in ByPath(files) {
      var k := LastWithPath(files, entry.path);
      ContentOf(files, entry.path, k);
    }
    if DigestMet(entry, files, lib) {
      var k: nat :| IsContent(files, entry.path, k) && Some(lib.sha256(files[k].content)) == entry.sha256;
      ContentOf(files, entry.path, k);
    }
  }

  ghost predicate DigestsMet(entries: seq<FileEntry>, files: seq<BundleFile>, lib: Library) {
    forall i :: 0 <= i < |entries| ==> DigestMet(entries[i], files, lib)
  }

  lemma DigestsExact(entries: seq<FileEntry>, files: seq<BundleFile>, lib: Library)
    ensures Consistent(entries, ByPath(files), lib) <==> DigestsMet(entries, files, lib)
  {
    hide ByPath, EntryMatches, DigestMet;
    forall i | 0 <= i < |entries|
      ensures EntryMatches(entries[i], ByPath(files), lib) <==> DigestMet(entries[i], files, lib)
    {
      DigestExact(entries[i], files, lib);
    }
  }

  lemma {:induction false} LastWithPath(files: seq<BundleFile>, path: string) returns (k: nat)
    requires path in ByPath(files)
    ensures IsContent(files, path, k)
  {
    var n := |files| - 1;
    if files[n].path == path {
      k := n;
    } else {
      k := LastWithPath(files[..n], path);
    }
  }

  /** What the reader makes of a byte sequence: the header in front, the last manifest section, every file
      section in order with the listed digests met, and the first signature section. */
  ghost predicate IsLoaded(blob: Bytes, lib: Library, b: Bundle) {
    && |blob| >= 24 && IsHeader(blob, b.header, lib.crc32) && b.header.version == 2 && b.header.headerLen == 24
    && b.raw == blob && b.payloadEnd == 24 + b.header.payloadLen
    && var sections := Sections(blob, 24);
    && (exists m: nat :: IsLast(sections, 1, m) && ParseManifest(sections[m].data, lib) == Ok(b.manifest))
    && DecodeFiles(OfType(sections, 2), lib) == Ok(b.files) && DigestsMet(b.manifest.files, b.files, lib)
    && (exists g: nat :: IsFirst(sections, 3, g) && b.sigOffset == sections[g].offset && b.sigEnd == sections[g].end
          && DecodeSignature(sections[g].data, lib) == Ok((b.keyId, b.mac)))
  }

  lemma LoadsWhat(blob: Bytes, lib: Library, b: Bundle)
    requires Loaded(blob, lib) == Ok(b)
    ensures IsLoaded(blob, lib, b)
  {
    hide ParseHeader, IsHeader, OfType, ParseManifest, DecodeFiles, DecodeSignature, Sections, Consistent, DigestsMet, ByPath;
    HeaderExact(blob, lib.crc32, b.header);
    DigestsExact(b.manifest.files, b.files, lib);
    var sections := Sections(blob, 24);
    var m := HasLast(sections, 1);
    var g := HasFirst(sections, 3);
    LastOfSections(sections, 1, m);
    FirstOf(sections, 3, g);
  }

  lemma LoadsAll(blob: Bytes, lib: Library, b: Bundle)
    requires IsLoaded(blob, lib, b)
    ensures Loaded(blob, lib) == Ok(b)
  {
    hide ParseHeader, IsHeader, OfType, ParseManifest, DecodeFiles, DecodeSignature, Sections, Consistent, DigestsMet, ByPath;
    HeaderExact(blob, lib.crc32, b.header);
    DigestsExact(b.manifest.files, b.files, lib);
    var sections := Sections(blob, 24);
    var m: nat :| IsLast(sections, 1, m) && ParseManifest(sections[m].data, lib) == Ok(b.manifest);
    var g: nat :| IsFirst(sections, 3, g) && b.sigOffset == sections[g].offset && b.sigEnd == sections[g].end
      && DecodeSignature(sections[g].data, lib) == Ok((b.keyId, b.mac));
    LastOfSections(sections, 1, m);
    FirstOf(sections, 3, g);
  }

  /** Over every byte sequence: exactly those load, as that bundle. */
  lemma LoadedExact(blob: Bytes, lib: Library, b: Bundle)
    ensures Loaded(blob, lib) == Ok(b) <==> IsLoaded(blob, lib, b)
  {
    hide Loaded, IsLoaded;
    if Loaded(blob, lib) == Ok(b) {
      LoadsWhat(blob, lib, b);
    }
    if IsLoaded(blob, lib, b) {
      LoadsAll(blob, lib, b);
    }
  }

  lemma SignatureInside(blob: Bytes, lib: Library, b: Bundle)
    requires Loaded(blob, lib) == Ok(b)
    ensures b.raw == blob && b.sigOffset <= b.sigEnd <= |blob|
  {
    hide ParseHeader, IsHeader, OfType, ParseManifest, DecodeFiles, DecodeSignature, Sections, DigestsMet, Loaded;
    LoadedExact(blob, lib, b);
    var sections := Sections(blob, 24);
    var g: nat :| IsFirst(sections, 3, g) && b.sigOffset == sections[g].offset && b.sigEnd == sections[g].end
      && DecodeSignature(sections[g].data, lib) == Ok((b.keyId, b.mac));
    SectionsTile(blob, 24);
    SectionBytes(blob, sections[g].offset);
  }

  /** A loaded bundle verifies exactly when its key id names a key whose MAC of the signed bytes is the stated
      one: everything before the signature section, and what the payload length leaves behind it. */
  lemma VerifyExact(blob: Bytes, lib: Library, b: Bundle, keyring: map<string, Bytes>)
    requires Loaded(blob, lib) == Ok(b)
    ensures b.sigOffset <= b.sigEnd <= |blob|
    ensures var end := 24 + b.header.payloadLen;
      var rest := if end <= b.sigEnd then [] else if end <= |blob| then blob[b.sigEnd..end] else blob[b.sigEnd..];
      VerifyBundle(b, keyring, lib) ==
        if b.keyId !in keyring then Err(IdentityError)
        else if lib.mac(keyring[b.keyId], blob[..b.sigOffset] + rest) == b.mac then Ok(true)
        else Err(SignatureError)
  {
    hide Loaded, IsHeader, OfType, ParseManifest, DecodeFiles, DecodeSignature, Sections, DigestsMet;
    LoadedExact(blob, lib, b);
    SignatureInside(blob, lib, b);
    var end := 24 + b.header.payloadLen;
    assert SignedBytes(blob, b.sigOffset, b.sigEnd, end)
        == blob[..b.sigOffset] + if end <= b.sigEnd then [] else if end <= |blob| then blob[b.sigEnd..end] else blob[b.sigEnd..];
  }

  // ---------------------------------------------------------------- which error

  /** An empty path is a PathError, everything else wrong with a file section a ParseError. */
  lemma FileSectionError(data: Bytes, lib: Library)
    requires DecodeFileSection(data, lib).Err?
    ensures DecodeFileSection(data, lib).error == if HasEmptyPath(data, lib) then PathError else ParseError
  {
    hide UnLE;
    if |data| >= 2 {
      Number2(data[..2]);
    }
  }

  predicate HasEmptyPath(data: Bytes, lib: Library) {
    |data| >= 2 && var end := 2 + data[0] as int + 0x100 * data[1] as int; end <= |data| && lib.text(data[2..end]) == Some("")
  }

  /** The first section that does not decode gives the error. */
  lemma {:induction false} FilesError(sections: seq<Section>, lib: Library, k: nat)
    requires k < |sections| && DecodeFileSection(sections[k].data, lib).Err?
    requires forall j :: 0 <= j < k ==> DecodeFileSection(sections[j].data, lib).Ok?
    ensures DecodeFiles(sections, lib) == Err(DecodeFileSection(sections[k].data, lib).error)
  {
    hide DecodeFileSection;
    if k > 0 {
      FilesError(sections[1..], lib, k - 1);
    }
  }

  predicate IsUsable(entry: Option<RawEntry>) {
    entry.Some? && entry.value.path.Some? && entry.value.path.value != ""
  }

  /** The first entry that is not usable gives the error: ManifestError when it is not an object, PathError when
      its path is missing or empty. */
  lemma {:induction false} EntriesError(raw: seq<Option<RawEntry>>, k: nat)
    requires k < |raw| && !IsUsable(raw[k]) && forall j :: 0 <= j < k ==> IsUsable(raw[j])
    ensures ParseEntries(raw) == Err(if raw[k].None? then ManifestError else PathError)
  {
    if k < |raw| - 1 {
      EntriesError(raw[..|raw| - 1], k);
    } else {
      EntriesKept(raw[..k]);
    }
  }

  /** Whatever else is wrong with a manifest is a ManifestError. */
  lemma ManifestFault(data: Bytes, lib: Library)
    requires ParseManifest(data, lib).Err?
    ensures ParseManifest(data, lib).error == ManifestError || ParseManifest(data, lib).error == PathError
    ensures ParseManifest(data, lib).error == PathError ==>
      lib.loads(data).Some? && lib.loads(data).value.files.Some? && ParseEntries(lib.loads(data).value.files.value) == Err(PathError)
  {
    if lib.loads(data).Some? && lib.loads(data).value.files.Some? {
      EntriesFault(lib.loads(data).value.files.value);
    }
  }

  lemma {:induction false} EntriesFault(raw: seq<Option<RawEntry>>)
    ensures ParseEntries(raw).Err? ==> ParseEntries(raw).error in {ManifestError, PathError}
  {
    if raw != [] {
      EntriesFault(raw[..|raw| - 1]);
    }
  }

  lemma SignatureFault(data: Bytes, lib: Library)
    ensures DecodeSignature(data, lib).Err? ==> DecodeSignature(data, lib).error == SignatureError
  {
    hide Find;
  }

  /** A byte sequence that does not load is refused for the first thing that is wrong with it: the header, a
      missing manifest, a missing signature, the manifest, a file section, a digest, the signature. */
  lemma LoadError(blob: Bytes, lib: Library, m: nat, g: nat)
    requires Loaded(blob, lib).Err?
    ensures var (e, sections) := (Loaded(blob, lib).error, Sections(blob, 24));
      if ParseHeader(blob, lib.crc32).Err? then e == ParseError
      else if forall k :: 0 <= k < |sections| ==> sections[k].sectionType != 1 then e == ParseError
      else if forall k :: 0 <= k < |sections| ==> sections[k].sectionType != 3 then e == SignatureError
      else IsLast(sections, 1, m) && IsFirst(sections, 3, g) ==>
        var (manifest, files) := (ParseManifest(sections[m].data, lib), DecodeFiles(OfType(sections, 2), lib));
        e == if manifest.Err? then manifest.error
             else if files.Err? then files.error
             else if DigestsMet(manifest.value.files, files.value, lib) then SignatureError
             else ConsistencyError
  {
    hide ParseHeader, OfType, ParseManifest, DecodeFiles, DecodeSignature, Sections, Consistent, DigestsMet, ByPath;
    var sections := Sections(blob, 24);
    HeaderIs24(blob, lib);
    FirstOf(sections, 1, 0);
    FirstOf(sections, 3, g);
    if IsLast(sections, 1, m) {
      LastOfSections(sections, 1, m);
      if IsFirst(sections, 3, g) && ParseManifest(sections[m].data, lib).Ok? && DecodeFiles(OfType(sections, 2), lib).Ok? {
        DigestsExact(ParseManifest(sections[m].data, lib).value.files, DecodeFiles(OfType(sections, 2), lib).value, lib);
        SignatureFault(sections[g].data, lib);
      }
    }
  }

  lemma HeaderIs24(blob: Bytes, lib: Library)
    ensures ParseHeader(blob, lib.crc32).Err? ==> ParseHeader(blob, lib.crc32).error == ParseError
    ensures ParseHeader(blob, lib.crc32).Ok? ==> ParseHeader(blob, lib.crc32).value.headerLen == 24
  {
    hide UnLE;
  }
}
