/** The encrypted header package: its schema, its canonical bytes and its two decoders. */

module Package {
  import opened Outcomes
  import opened Text
  import opened Json
  import opened JsonProofs
  import opened JsonExact

  /** SHA-256 as a hexadecimal string. Nothing is assumed of it here. */
  type Digest = Bytes -> Text

  const MAX_CIPHER := 128 * 1024 * 1024
  const MAX_PACKAGE := MAX_CIPHER + 4 * 1024 * 1024

  predicate LowerHex(c: CodePoint) { 48 <= c <= 57 || 97 <= c <= 102 }

  predicate Hex(t: Text, length: nat) {
    |t| == length && forall i :: 0 <= i < |t| ==> LowerHex(t[i])
  }

  predicate Alphanumeric(c: CodePoint) { 48 <= c <= 57 || 65 <= c <= 90 || 97 <= c <= 122 }

  /** `[A-Za-z0-9][A-Za-z0-9._-]{0,252}` */
  predicate SubjectName(t: Text) {
    && 1 <= |t| <= 253 && Alphanumeric(t[0])
    && forall i :: 0 <= i < |t| ==> Alphanumeric(t[i]) || t[i] == 46 || t[i] == 95 || t[i] == 45
  }

  /** The texts that `str(uuid.UUID(t)) == t` holds for. */
  predicate CanonicalUuid(t: Text) {
    && |t| == 36
    && forall i :: 0 <= i < 36 ==> if i == 8 || i == 13 || i == 18 || i == 23 then t[i] == 45 else LowerHex(t[i])
  }

  /** What `str.strip` removes. */
  predicate Whitespace(c: CodePoint) {
    || 9 <= c <= 13 || 28 <= c <= 32 || c == 0x85 || c == 0xA0 || c == 0x1680 || 0x2000 <= c <= 0x200A
    || c == 0x2028 || c == 0x2029 || c == 0x202F || c == 0x205F || c == 0x3000
  }

  /** Bounded custody metadata: not blank, at most 2048 code points, no control characters. */
  predicate Metadata(t: Text) {
    && |t| <= 2048
    && (exists i :: 0 <= i < |t| && !Whitespace(t[i]))
    && forall i :: 0 <= i < |t| ==> t[i] >= 32
  }

  predicate IsText(v: Json, holds: Text -> bool) { v.JString? && holds(v.s) }

  const MANIFEST_FIELDS: set<Text> := {
    S("schema_version"), S("subject"), S("source_machine_id"), S("luks_uuid"), S("luks_header_sha256_raw"),
    S("luks_header_raw_size_bytes"), S("ciphertext_sha256"), S("owner"), S("retention"),
    S("key_retrieval_reference")
  }

  /** Schema version and the source the header was taken from. */
  predicate ValidIdentity(m: Json)
    requires m.JObject? && m.fields.Keys == MANIFEST_FIELDS
  {
    && m.fields[S("schema_version")] == JInt(1)
    && IsText(m.fields[S("subject")], SubjectName)
    && IsText(m.fields[S("source_machine_id")], t => Hex(t, 32))
    && IsText(m.fields[S("luks_uuid")], CanonicalUuid)
  }

  predicate ValidHeader(m: Json)
    requires m.JObject? && m.fields.Keys == MANIFEST_FIELDS
  {
    && IsText(m.fields[S("ciphertext_sha256")], t => Hex(t, 64))
    && IsText(m.fields[S("luks_header_sha256_raw")], t => Hex(t, 64))
    && m.fields[S("luks_header_raw_size_bytes")].JInt?
    && 0 < m.fields[S("luks_header_raw_size_bytes")].n <= 20 * 1024 * 1024
  }

  predicate ValidCustody(m: Json)
    requires m.JObject? && m.fields.Keys == MANIFEST_FIELDS
  {
    && IsText(m.fields[S("owner")], Metadata)
    && IsText(m.fields[S("retention")], Metadata)
    && IsText(m.fields[S("key_retrieval_reference")], Metadata)
  }

  predicate ValidManifest(m: Json) {
    m.JObject? && m.fields.Keys == MANIFEST_FIELDS && ValidIdentity(m) && ValidHeader(m) && ValidCustody(m)
  }

  predicate ValidCiphertext(hash: Digest, c: Json, checksum: Json) {
    && c.JString? && S("$ANSIBLE_VAULT;1.") <= c.s
    && AllAscii(c.s) && |c.s| <= MAX_CIPHER
    && checksum == JString(hash(Encoded(c.s)))
  }

  predicate ValidPackage(hash: Digest, p: Json) {
    && p.JObject? && p.fields.Keys == {S("manifest"), S("ciphertext")}
    && ValidManifest(p.fields[S("manifest")])
    && ValidCiphertext(hash, p.fields[S("ciphertext")], p.fields[S("manifest")].fields[S("ciphertext_sha256")])
    && |Canonical(p)| <= MAX_PACKAGE
  }

  /** `validate_package`: the canonical bytes of a valid package. */
  function ValidatePackage(hash: Digest, p: Json): Result<Bytes> {
    if ValidPackage(hash, p) then Ok(Canonical(p)) else Raised
  }

  /** `decode_package`: what data holds, if it is exactly the expected package. */
  function DecodePackage(hash: Digest, data: Bytes, expected: Bytes): Result<Json> {
    if !(0 < |data| <= MAX_PACKAGE) then Raised else
      match Parse(data)
      case None => Raised
      case Some(p) => if ValidatePackage(hash, p) == Ok(data) && data == expected then Ok(p) else Raised
  }

  /** An independent retrieval receipt. */
  datatype Pins = Pins(packageSha256: Text, subject: Text, sourceMachineId: Text, luksUuid: Text)

  predicate ValidPins(pins: Pins) {
    && Hex(pins.packageSha256, 64) && SubjectName(pins.subject)
    && Hex(pins.sourceMachineId, 32) && CanonicalUuid(pins.luksUuid)
  }

  /** `v.get(name)` */
  function Field(v: Json, name: string): Option<Json> {
    if v.JObject? && S(name) in v.fields then Some(v.fields[S(name)]) else None
  }

  /** The source a package's manifest names is the one the receipt names. */
  predicate SameSource(p: Json, pins: Pins) {
    match Field(p, "manifest")
    case None => false
    case Some(m) =>
      && Field(m, "subject") == Some(JString(pins.subject))
      && Field(m, "source_machine_id") == Some(JString(pins.sourceMachineId))
      && Field(m, "luks_uuid") == Some(JString(pins.luksUuid))
  }

  /** `verify_download`: what data holds, if it is the package the receipt pins. */
  function VerifyDownload(hash: Digest, data: Bytes, pins: Pins): Result<Json> {
    if !ValidPins(pins) || !(0 < |data| <= MAX_PACKAGE) || hash(data) != pins.packageSha256 then Raised else
      match Parse(data)
      case None => Raised
      case Some(p) =>
        if ValidatePackage(hash, p) == Ok(data) && SameSource(p, pins) then Ok(p) else Raised
  }

  // ------------------------------------------------------ shape of a package

  lemma AsciiIsWhole(t: Text)
    requires AllAscii(t)
    ensures Whole(t)
  {
  }

  lemma ManifestShape(m: Json)
    requires ValidManifest(m)
    ensures Printable(m) && WholeKeys(m)
    ensures forall key :: key in m.fields ==> m.fields[key].JInt? || m.fields[key].JString?
  {
    forall key | key in m.fields ensures Whole(key) && (m.fields[key].JInt? || m.fields[key].JString?) {
      AsciiIsWhole(key);
    }
  }

  lemma ObjectPrintsSomething(v: Json, k: Bytes)
    requires v.JObject?
    ensures Emit(v, k) != []
  {
  }

  lemma PackageShape(hash: Digest, p: Json)
    requires ValidPackage(hash, p)
    ensures Printable(p) && WholeKeys(p) && Canonical(p) != []
  {
    ObjectPrintsSomething(p, []);
    ManifestShape(p.fields[S("manifest")]);
    PairShape(p, S("manifest"), S("ciphertext"));
  }

  /** An object of two plain members is plain. */
  lemma PairShape(p: Json, a: Text, b: Text)
    requires p.JObject? && p.fields.Keys == {a, b} && AllAscii(a) && AllAscii(b)
    requires Printable(p.fields[a]) && WholeKeys(p.fields[a]) && Printable(p.fields[b]) && WholeKeys(p.fields[b])
    ensures Printable(p) && WholeKeys(p)
  {
    AsciiIsWhole(a);
    AsciiIsWhole(b);
  }

  // ----------------------------------------- what joining does to a package

  lemma {:induction false} JoinedMetadata(t: Text)
    ensures (forall i :: 0 <= i < |t| ==> t[i] >= 32) ==> forall i :: 0 <= i < |Joined(t)| ==> Joined(t)[i] >= 32
    ensures (exists i :: 0 <= i < |t| && !Whitespace(t[i]))
        ==> exists i :: 0 <= i < |Joined(t)| && !Whitespace(Joined(t)[i])
    decreases |t|
  {
    if t != [] {
      var j := Joined(t);
      var rest := if SplitAt(t, 0) then t[2..] else t[1..];
      JoinedMetadata(rest);
      assert j[1..] == Joined(rest);
      assert forall i :: 1 <= i < |j| ==> j[i] == Joined(rest)[i - 1];
      if Whitespace(t[0]) && exists i :: 0 <= i < |t| && !Whitespace(t[i]) {
        var i :| 0 <= i < |t| && !Whitespace(t[i]);
        assert rest == t[1..] && rest[i - 1] == t[i];
        var n :| 0 <= n < |Joined(rest)| && !Whitespace(Joined(rest)[n]);
        assert !Whitespace(j[n + 1]);
      } else {
        assert !Whitespace(t[0]) ==> !Whitespace(j[0]);
      }
    }
  }

  lemma JoinedAsciiText(v: Json)
    requires v.JString? && AllAscii(v.s)
    ensures JoinedValue(v) == v
  {
    AsciiIsWhole(v.s);
    WholeIsJoined(v.s);
  }

  lemma JoinedIdentity(m: Json)
    requires m.JObject? && m.fields.Keys == MANIFEST_FIELDS && ValidIdentity(m)
    ensures JoinedValue(m).JObject? && JoinedValue(m).fields.Keys == MANIFEST_FIELDS
    ensures ValidIdentity(JoinedValue(m))
    ensures JoinedValue(m).fields[S("subject")] == m.fields[S("subject")]
    ensures JoinedValue(m).fields[S("source_machine_id")] == m.fields[S("source_machine_id")]
    ensures JoinedValue(m).fields[S("luks_uuid")] == m.fields[S("luks_uuid")]
  {
    assert JoinedValue(m).fields.Keys == m.fields.Keys;
    JoinedAsciiText(m.fields[S("subject")]);
    JoinedAsciiText(m.fields[S("source_machine_id")]);
    JoinedAsciiText(m.fields[S("luks_uuid")]);
  }

  lemma JoinedHeader(m: Json)
    requires m.JObject? && m.fields.Keys == MANIFEST_FIELDS && ValidHeader(m)
    ensures JoinedValue(m).JObject? && JoinedValue(m).fields.Keys == MANIFEST_FIELDS
    ensures ValidHeader(JoinedValue(m))
    ensures JoinedValue(m).fields[S("ciphertext_sha256")] == m.fields[S("ciphertext_sha256")]
  {
    assert JoinedValue(m).fields.Keys == m.fields.Keys;
    JoinedAsciiText(m.fields[S("ciphertext_sha256")]);
    JoinedAsciiText(m.fields[S("luks_header_sha256_raw")]);
  }

  lemma JoinedCustody(m: Json)
    requires m.JObject? && m.fields.Keys == MANIFEST_FIELDS && ValidCustody(m)
    ensures JoinedValue(m).JObject? && JoinedValue(m).fields.Keys == MANIFEST_FIELDS
    ensures ValidCustody(JoinedValue(m))
  {
    assert JoinedValue(m).fields.Keys == m.fields.Keys;
    JoinedMetadata(m.fields[S("owner")].s);
    JoinedMetadata(m.fields[S("retention")].s);
    JoinedMetadata(m.fields[S("key_retrieval_reference")].s);
  }

  lemma JoinedManifest(m: Json)
    requires ValidManifest(m)
    ensures ValidManifest(JoinedValue(m))
    ensures JoinedValue(m).fields[S("ciphertext_sha256")] == m.fields[S("ciphertext_sha256")]
    ensures JoinedValue(m).fields[S("subject")] == m.fields[S("subject")]
    ensures JoinedValue(m).fields[S("source_machine_id")] == m.fields[S("source_machine_id")]
    ensures JoinedValue(m).fields[S("luks_uuid")] == m.fields[S("luks_uuid")]
  {
    JoinedIdentity(m);
    JoinedHeader(m);
    JoinedCustody(m);
  }

  /** The JSON image of a valid package is valid and has the same canonical bytes. */
  lemma JoinedPackage(hash: Digest, p: Json)
    requires ValidPackage(hash, p)
    ensures ValidPackage(hash, JoinedValue(p)) && Canonical(JoinedValue(p)) == Canonical(p)
    ensures JoinedValue(p).fields[S("manifest")] == JoinedValue(p.fields[S("manifest")])
  {
    JoinedManifest(p.fields[S("manifest")]);
    JoinedAsciiText(p.fields[S("ciphertext")]);
    JoinedValuePrintsAlike(p, []);
    assert JoinedValue(p).fields.Keys == p.fields.Keys;
  }

  lemma JoinedSource(hash: Digest, p: Json, pins: Pins)
    requires ValidPackage(hash, p)
    ensures SameSource(JoinedValue(p), pins) <==> SameSource(p, pins)
  {
    var m := p.fields[S("manifest")];
    JoinedManifest(m);
    assert Field(p, "manifest") == Some(m) && Field(JoinedValue(p), "manifest") == Some(JoinedValue(m));
  }

  // ------------------------------------------------------------ main results

  /** Every valid package decodes from its own bytes, as its JSON image. */
  lemma DecodeUndoesValidate(hash: Digest, p: Json)
    requires ValidPackage(hash, p)
    ensures DecodePackage(hash, Canonical(p), Canonical(p)) == Ok(JoinedValue(p))
  {
    PackageShape(hash, p);
    ParseCanonical(p);
    JoinedPackage(hash, p);
  }

  /** Only the expected bytes decode, and only if they are the canonical bytes of a valid package. */
  lemma DecodesExactly(hash: Digest, data: Bytes, expected: Bytes)
    ensures DecodePackage(hash, data, expected).Ok? <==>
            data == expected && exists p :: ValidPackage(hash, p) && Canonical(p) == data
    ensures DecodePackage(hash, data, expected).Ok? ==>
            var p := DecodePackage(hash, data, expected).value;
            ValidPackage(hash, p) && Canonical(p) == data && WholeValue(p)
  {
    if DecodePackage(hash, data, expected).Ok? { ParsedIsWhole(data); }
    if data == expected && exists p :: ValidPackage(hash, p) && Canonical(p) == data {
      var p :| ValidPackage(hash, p) && Canonical(p) == data;
      DecodeUndoesValidate(hash, p);
    }
  }

  /** A package is retrieved under a receipt exactly when the receipt pins its digest and its source. */
  lemma DownloadsExactly(hash: Digest, p: Json, pins: Pins)
    requires ValidPackage(hash, p) && ValidPins(pins)
    ensures VerifyDownload(hash, Canonical(p), pins)
         == if hash(Canonical(p)) == pins.packageSha256 && SameSource(p, pins)
            then Ok(JoinedValue(p)) else Raised
  {
    PackageShape(hash, p);
    ParseCanonical(p);
    JoinedPackage(hash, p);
    JoinedSource(hash, p, pins);
  }

  /** Whatever a provider returns: an accepted download is a valid package with the pinned digest and source. */
  lemma DownloadIsPinned(hash: Digest, data: Bytes, pins: Pins)
    requires VerifyDownload(hash, data, pins).Ok?
    ensures var p := VerifyDownload(hash, data, pins).value;
            && ValidPackage(hash, p) && hash(Canonical(p)) == pins.packageSha256
            && SameSource(p, pins) && Canonical(p) == data && WholeValue(p)
  {
    ParsedIsWhole(data);
  }
}
