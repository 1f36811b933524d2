/** What the builder writes, part by part, and exactly when it stops. */
module BundleContents {
  import opened Common
  import opened Wire
  import opened Manifests
  import opened Bundles

  /** A file part is the length of the path, the path and the content; there is none when the entry has no
      path, names no content, or the path or the part is too long for its length field. */
  lemma FilePartExact(entry: Option<RawEntry>, files: map<string, Bytes>, lib: Library, p: Part)
    ensures FilePart(entry, files, lib) == Some(p) <==>
      && entry.Some? && entry.value.path.Some? && entry.value.path.value in files
      && lib.utf8(entry.value.path.value).Some?
      && var (path, content) := (lib.utf8(entry.value.path.value).value, files[entry.value.path.value]);
         |path| < 0x1_0000 && 2 + |path| + |content| < 0x1_0000_0000 && p == Part(2, LE(|path|, 2) + path + content)
  {
    hide LE, Pow256;
    Widths();
  }

  lemma {:induction false} FilePartsExact(entries: seq<Option<RawEntry>>, files: map<string, Bytes>, lib: Library, parts: seq<Part>)
    ensures FileParts(entries, files, lib) == Some(parts) <==>
      |parts| == |entries| && forall k :: 0 <= k < |entries| ==> FilePart(entries[k], files, lib) == Some(parts[k])
  {
    hide FilePart;
    if entries != [] {
      var n := |entries| - 1;
      if parts != [] {
        FilePartsExact(entries[..n], files, lib, parts[..|parts| - 1]);
        assert parts == parts[..|parts| - 1] + [parts[|parts| - 1]];
      } else {
        assert FileParts(entries, files, lib) != Some([]);
      }
      if FileParts(entries[..n], files, lib).Some? && FilePart(entries[n], files, lib).Some? {
        var (front, p) := (FileParts(entries[..n], files, lib).value, FilePart(entries[n], files, lib).value);
        assert (front + [p])[..|front|] == front;
      }
    }
  }

  /** The sections of a bundle in order: padding of type 4 if there is any, the manifest of type 1, and one
      file of type 2 per listed entry. The builder has them exactly when each one fits. */
  lemma BodyPartsExact(raw: RawManifest, files: map<string, Bytes>, padding: Option<Bytes>, lib: Library, parts: seq<Part>)
    ensures var pad := if padding.Some? then 1 else 0;
      BodyParts(raw, files, padding, lib) == Some(parts) <==>
      && raw.files.Some? && |parts| == pad + 1 + |raw.files.value|
      && (padding.Some? ==> |padding.value| < 0x1_0000_0000 && parts[0] == Part(4, padding.value))
      && |lib.dumps(raw)| < 0x1_0000_0000 && parts[pad] == Part(1, lib.dumps(raw))
      && forall k :: 0 <= k < |raw.files.value| ==> FilePart(raw.files.value[k], files, lib) == Some(parts[pad + 1 + k])
  {
    hide FilePart, FileParts, Pow256;
    Widths();
    var (pad, leading) := (if padding.Some? then 1 else 0, LeadingParts(raw, padding, lib));
    assert PartsFit(leading) <==> |lib.dumps(raw)| < 0x1_0000_0000 && (padding.Some? ==> |padding.value| < 0x1_0000_0000) by {
      LeadingPartsFit(raw, padding, lib);
    }
    if raw.files.Some? && |parts| == pad + 1 + |raw.files.value| {
      FilePartsExact(raw.files.value, files, lib, parts[pad + 1..]);
      assert parts == parts[..pad + 1] + parts[pad + 1..];
      if parts[..pad + 1] == leading {
        assert parts[0] == leading[0] && parts[pad] == leading[pad];
      }
    }
    if BodyParts(raw, files, padding, lib).Some? {
      var fileParts := FileParts(raw.files.value, files, lib).value;
      FilePartsExact(raw.files.value, files, lib, fileParts);
      assert (leading + fileParts)[pad + 1..] == fileParts && (leading + fileParts)[..pad + 1] == leading;
    }
  }

  lemma LeadingPartsFit(raw: RawManifest, padding: Option<Bytes>, lib: Library)
    ensures PartsFit(LeadingParts(raw, padding, lib)) <==>
      |lib.dumps(raw)| < 0x1_0000_0000 && (padding.Some? ==> |padding.value| < 0x1_0000_0000)
  {
    hide Pow256;
    Widths();
    var (pad, leading) := (if padding.Some? then 1 else 0, LeadingParts(raw, padding, lib));
    assert leading[pad] == Part(TYPE_MANIFEST, lib.dumps(raw));
    if padding.Some? {
      assert leading[0] == Part(TYPE_PADDING, padding.value);
    }
    if |lib.dumps(raw)| < 0x1_0000_0000 && (padding.Some? ==> |padding.value| < 0x1_0000_0000) {
      assert forall k :: 0 <= k < |leading| ==> PartFits(leading[k]);
    }
  }

  /** A bundle is a version 2 header that counts the sections and their bytes, the sections, and a signature
      section of type 3 whose MAC is over header and sections. It exists exactly when every count and length
      has room and the key id can be encoded. */
  lemma AssembledExact(parts: seq<Part>, keyId: string, secret: Bytes, flags: nat, lib: Library, blob: Bytes)
    requires PartsFit(parts) && Lawful(lib)
    ensures Assemble(parts, keyId, secret, flags, lib) == Some(blob) <==>
      && lib.utf8(keyId).Some?
      && var id := lib.utf8(keyId).value;
      var h := Header(2, flags, |parts| + 1, 24, |Body(parts)| + 8 + |id| + 33, 0);
      && flags < 0x100 && |parts| + 1 < 0x1_0000 && |Body(parts)| + 8 + |id| + 33 < 0x1_0000_0000
      && PackHeader(h, lib.crc32).Some?
      && var signed := PackHeader(h, lib.crc32).value + Body(parts);
      var signature := id + [0] + lib.mac(secret, signed);
      blob == signed + (LE(3, 2) + LE(0, 2) + LE(|signature|, 4) + signature)
  {
    hide LE, Pow256, Body, Prefix, PartsFit;
    Widths();
    if lib.utf8(keyId).Some? {
      var id := lib.utf8(keyId).value;
      var h := Header(2, flags, |parts| + 1, 24, |Body(parts)| + 8 + |id| + 33, 0);
      assert forall m: Bytes :: |m| == 32 ==> |id + [0] + m| == |id| + 33;
      assert HeaderFor(parts, id + [0] + seq(MAC_LEN, _ => 0), flags) == h;
    }
  }
}
