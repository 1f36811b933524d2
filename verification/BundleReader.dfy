/** Loading and verifying a bundle, and the sections of a given type. */
module BundleReader {
  import opened Common
  import opened Wire
  import opened Manifests
  import opened Bundles

  function OfType(sections: seq<Section>, t: nat): seq<Section> {
    if sections == [] then []
    else (if sections[0].sectionType == t then [sections[0]] else []) + OfType(sections[1..], t)
  }

  /** Decoded files in order, or the first error. */
  function DecodeFiles(sections: seq<Section>, lib: Library): Result<seq<BundleFile>> {
    if sections == [] then Ok([])
    else
      match DecodeFileSection(sections[0].data, lib)
      case Err(e) => Err(e)
      case Ok(file) =>
        match DecodeFiles(sections[1..], lib)
        case Err(e) => Err(e)
        case Ok(rest) => Ok([file] + rest)
  }

  /** Content under each path; a later file replaces an earlier one. */
  function ByPath(files: seq<BundleFile>): map<string, Bytes> {
    if files == [] then map[]
    else ByPath(files[..|files| - 1])[files[|files| - 1].path := files[|files| - 1].content]
  }

  predicate EntryMatches(entry: FileEntry, byPath: map<string, Bytes>, lib: Library) {
    entry.path in byPath && Some(lib.sha256(byPath[entry.path])) == entry.sha256
  }

  predicate Consistent(entries: seq<FileEntry>, byPath: map<string, Bytes>, lib: Library) {
    forall k :: 0 <= k < |entries| ==> EntryMatches(entries[k], byPath, lib)
  }

  function Checked(header: Header, manifest: Manifest, files: seq<BundleFile>, signature: Section, blob: Bytes, lib: Library): Result<Bundle> {
    if !Consistent(manifest.files, ByPath(files), lib) then Err(ConsistencyError)
    else
      match DecodeSignature(signature.data, lib)
      case Err(e) => Err(e)
      case Ok((keyId, mac)) =>
        Ok(Bundle(header, manifest, files, keyId, mac, blob, signature.offset, signature.end, header.headerLen + header.payloadLen))
  }

  function Loaded(blob: Bytes, lib: Library): Result<Bundle> {
    match ParseHeader(blob, lib.crc32)
    case Err(e) => Err(e)
    case Ok(header) =>
      var sections := Sections(blob, header.headerLen);
      var (manifests, signatures) := (OfType(sections, TYPE_MANIFEST), OfType(sections, TYPE_SIGNATURE));
      if manifests == [] then Err(ParseError)
      else if signatures == [] then Err(SignatureError)
      else
        match ParseManifest(manifests[|manifests| - 1].data, lib)
        case Err(e) => Err(e)
        case Ok(manifest) =>
          match DecodeFiles(OfType(sections, TYPE_FILE), lib)
          case Err(e) => Err(e)
          case Ok(files) => Checked(header, manifest, files, signatures[0], blob, lib)
  }

  method LoadBundle(blob: Bytes, lib: Library) returns (r: Result<Bundle>)
    ensures r == Loaded(blob, lib)
  {
    hide ParseHeader, OfType, ParseManifest, DecodeFiles, DecodeSignature, EntryMatches, ByPath, Sections;
    var header := ParseHeader(blob, lib.crc32);
    if header.Err? {
      return Err(header.error);
    }
    var sections := ParseSections(blob, header.value.headerLen);
    var manifests, signatures := OfType(sections, TYPE_MANIFEST), OfType(sections, TYPE_SIGNATURE);
    if manifests == [] {
      return Err(ParseError);
    }
    if signatures == [] {
      return Err(SignatureError);
    }
    var manifest := ParseManifest(manifests[|manifests| - 1].data, lib);
    if manifest.Err? {
      return Err(manifest.error);
    }
    var files := DecodeFiles(OfType(sections, TYPE_FILE), lib);
    if files.Err? {
      return Err(files.error);
    }
    var byPath := ByPath(files.value);
    var entries := manifest.value.files;
    for i := 0 to |entries|
      invariant forall k :: 0 <= k < i ==> EntryMatches(entries[k], byPath, lib)
    {
      if !EntryMatches(entries[i], byPath, lib) {
        return Err(ConsistencyError);
      }
    }
    var sig := signatures[0];
    var signature := DecodeSignature(sig.data, lib);
    if signature.Err? {
      return Err(signature.error);
    }
    r := Ok(Bundle(header.value, manifest.value, files.value, signature.value.0, signature.value.1, blob, sig.offset, sig.end,
                   header.value.headerLen + header.value.payloadLen));
  }

  /** Ok(true) stands for a verified bundle. */
  function VerifyBundle(bundle: Bundle, keyring: map<string, Bytes>, lib: Library): Result<bool> {
    if bundle.keyId !in keyring then Err(IdentityError)
    else
      var message := SignedBytes(bundle.raw, bundle.sigOffset, bundle.sigEnd, bundle.payloadEnd);
      if lib.mac(keyring[bundle.keyId], message) != bundle.mac then Err(SignatureError) else Ok(true)
  }

  // ---------------------------------------------------------------- sections of a built bundle

  function DatasOf(parts: seq<Part>, t: nat): seq<Bytes> {
    if parts == [] then [] else (if parts[0].sectionType == t then [parts[0].data] else []) + DatasOf(parts[1..], t)
  }

  function Datas(sections: seq<Section>): seq<Bytes> {
    seq(|sections|, k requires 0 <= k < |sections| => sections[k].data)
  }

  lemma {:induction false} LocatedOfType(parts: seq<Part>, pos: nat, t: nat)
    ensures Datas(OfType(Located(parts, pos), t)) == DatasOf(parts, t)
  {
    if parts != [] {
      var end := pos + TLV_HEADER_LEN + |parts[0].data|;
      LocatedOfType(parts[1..], end, t);
      var rest := Located(parts[1..], end);
      assert Located(parts, pos)[1..] == rest;
    }
  }

  lemma {:induction false} DatasAppend(a: seq<Part>, b: seq<Part>, t: nat)
    ensures DatasOf(a + b, t) == DatasOf(a, t) + DatasOf(b, t)
  {
    if a == [] {
      assert a + b == b;
    } else {
      assert (a + b)[1..] == a[1..] + b;
      DatasAppend(a[1..], b, t);
    }
  }

  /** The only section of its type, written last, is found where the body ends. */
  lemma {:induction false} LastOfType(parts: seq<Part>, p: Part, pos: nat)
    requires PartsFit(parts) && forall k :: 0 <= k < |parts| ==> parts[k].sectionType != p.sectionType
    ensures var at := pos + |Body(parts)|;
      OfType(Located(parts + [p], pos), p.sectionType) == [Section(p.sectionType, p.data, at, at + TLV_HEADER_LEN + |p.data|)]
  {
    hide Pow256, LE;
    if parts == [] {
      assert [p][1..] == [];
    } else {
      var end := pos + TLV_HEADER_LEN + |parts[0].data|;
      assert (parts + [p])[1..] == parts[1..] + [p];
      assert parts[0].sectionType != p.sectionType;
      LastOfType(parts[1..], p, end);
      assert Located(parts + [p], pos)[1..] == Located(parts[1..] + [p], end);
    }
  }
}
