/** Library functions a bundle relies on, taken as given, and the bundle manifest. */
module Manifests {
  import opened Common
  import opened Wire

  datatype RawEntry = RawEntry(path: Option<string>, sha256: Option<string>, size: Option<int>)

  /** A manifest object as JSON holds it; None stands for an absent field or one of another type. */
  datatype RawManifest = RawManifest(
    name: Option<string>, version: Option<string>, vendorId: Option<string>, targetModels: Option<seq<string>>,
    files: Option<seq<Option<RawEntry>>>, postInstall: Option<string>)

  datatype FileEntry = FileEntry(path: string, sha256: Option<string>, size: Option<int>)

  datatype Manifest = Manifest(
    name: string, version: string, vendorId: string, targetModels: seq<string>, files: seq<FileEntry>, postInstall: Option<string>)

  datatype Library = Library(
    crc32: Bytes -> nat, sha256: Bytes -> string, mac: (Bytes, Bytes) -> Bytes,
    utf8: string -> Option<Bytes>, text: Bytes -> Option<string>,
    dumps: RawManifest -> Bytes, loads: Bytes -> Option<RawManifest>)

  const MAC_LEN: nat := 32

  /** What is assumed of the library: decoding undoes encoding, UTF-8 has a zero byte only for NUL, and a
      MAC has 32 bytes. Results that read a manifest back also assume that JSON reads it back. */
  ghost predicate Lawful(lib: Library) {
    && (forall s :: lib.utf8(s).Some? ==> lib.text(lib.utf8(s).value) == Some(s))
    && (forall s :: lib.utf8(s).Some? ==> (0 in lib.utf8(s).value <==> '\0' in s))
    && (forall k, m :: |lib.mac(k, m)| == MAC_LEN)
  }

  predicate ReadsBack(lib: Library, raw: RawManifest) {
    lib.loads(lib.dumps(raw)) == Some(raw)
  }

  function AsciiBytes(s: string): Option<Bytes> {
    if forall k :: 0 <= k < |s| ==> s[k] < 128 as char then Some(seq(|s|, k requires 0 <= k < |s| => s[k] as int % 256)) else None
  }

  function AsciiText(b: Bytes): Option<string> {
    if forall k :: 0 <= k < |b| ==> b[k] < 128 then Some(seq(|b|, k requires 0 <= k < |b| => (b[k] % 128) as char)) else None
  }

  lemma AsciiBack(s: string)
    ensures AsciiBytes(s).Some? ==> AsciiText(AsciiBytes(s).value) == Some(s) && (0 in AsciiBytes(s).value <==> '\0' in s)
  {
    if AsciiBytes(s).Some? {
      var b := AsciiBytes(s).value;
      forall k | 0 <= k < |s|
        ensures b[k] == s[k] as int && b[k] < 128 && b[k] as char == s[k]
      {}
      assert AsciiText(b).value == s;
      if '\0' in s {
        var k :| 0 <= k < |s| && s[k] == '\0';
        assert b[k] == 0;
      }
    }
  }

  /** The assumptions can be met, for every manifest. */
  lemma LawfulExists(raw: RawManifest)
    ensures exists lib :: Lawful(lib) && ReadsBack(lib, raw)
  {
    hide AsciiBytes, AsciiText;
    var lib := Library(_ => 0, _ => "", (_, _) => seq(MAC_LEN, _ => 0), AsciiBytes, AsciiText, _ => [], _ => Some(raw));
    forall s
      ensures lib.utf8(s).Some? ==> lib.text(lib.utf8(s).value) == Some(s) && (0 in lib.utf8(s).value <==> '\0' in s)
    {
      AsciiBack(s);
    }
    assert Lawful(lib) && ReadsBack(lib, raw);
  }

  predicate IsText(s: Option<string>) {
    s.Some? && s.value != ""
  }

  /** File entries up to the first one that is not an object or has no usable path. */
  function ParseEntries(raw: seq<Option<RawEntry>>): Result<seq<FileEntry>> {
    if raw == [] then Ok([])
    else
      match ParseEntries(raw[..|raw| - 1])
      case Err(e) => Err(e)
      case Ok(entries) =>
        match raw[|raw| - 1]
        case None => Err(ManifestError)
        case Some(entry) =>
          if IsText(entry.path) then Ok(entries + [FileEntry(entry.path.value, entry.sha256, entry.size)]) else Err(PathError)
  }

  function ParseManifest(data: Bytes, lib: Library): Result<Manifest> {
    match lib.loads(data)
    case None => Err(ManifestError)
    case Some(raw) =>
      if !IsText(raw.name) || !IsText(raw.version) || !IsText(raw.vendorId) then Err(ManifestError)
      else if raw.targetModels.None? || raw.targetModels.value == [] then Err(ManifestError)
      else if raw.files.None? then Err(ManifestError)
      else
        match ParseEntries(raw.files.value)
        case Err(e) => Err(e)
        case Ok(files) =>
          Ok(Manifest(raw.name.value, raw.version.value, raw.vendorId.value, raw.targetModels.value, files, raw.postInstall))
  }

  /** A parsed manifest lists exactly the paths of the raw one, in order. */
  lemma {:induction false} EntriesKept(raw: seq<Option<RawEntry>>)
    ensures ParseEntries(raw).Ok? <==> forall k :: 0 <= k < |raw| ==> raw[k].Some? && IsText(raw[k].value.path)
    ensures ParseEntries(raw).Ok? ==>
      var es := ParseEntries(raw).value;
      |es| == |raw| && forall k :: 0 <= k < |raw| ==>
        raw[k] == Some(RawEntry(Some(es[k].path), es[k].sha256, es[k].size)) && es[k].path != ""
  {
    if raw != [] {
      var n := |raw| - 1;
      EntriesKept(raw[..n]);
      assert raw == raw[..n] + [raw[n]];
    }
  }
}
