/** What a valid package is made of, and what is stored for it, field by field. */

module PackageForms {
  import opened Outcomes
  import opened Text
  import opened Json
  import opened JsonGrammar
  import opened JsonPrints
  import opened Package
  import opened Objects
  import opened Spelling
  import Base64

  // ---------------------------------------------------------------- packages

  /** What is said of an encrypted LUKS header, but for the checksum of the ciphertext. */
  datatype Header = Header(subject: Text, machine: Text, uuid: Text, sha256: Text, size: int,
                           owner: Text, retention: Text, reference: Text)

  /** At most 2048 characters, none of them a control character, and not only white space. */
  predicate Remark(t: Text) {
    |t| <= 2048 && (forall i :: 0 <= i < |t| ==> t[i] >= ' ' as int) && exists i :: 0 <= i < |t| && !Whitespace(t[i])
  }

  predicate IsChecksum(t: Text) { |t| == 64 && Over(t, HEX) }

  predicate Lawful(h: Header) {
    && Word(h.subject, "._-", 253)
    && |h.machine| == 32 && Over(h.machine, HEX) && Grouped(h.uuid) && IsChecksum(h.sha256)
    && 0 < h.size <= 20_971_520
    && Remark(h.owner) && Remark(h.retention) && Remark(h.reference)
  }

  predicate Holds(v: Option<Json>, t: Text) { v == Some(JString(t)) }

  /** A manifest with exactly these fields. */
  predicate Describes(m: Json, h: Header, checksum: Text) {
    && m.JObject? && m.fields.Keys == {
         S("schema_version"), S("subject"), S("source_machine_id"), S("luks_uuid"), S("luks_header_sha256_raw"),
         S("luks_header_raw_size_bytes"), S("ciphertext_sha256"), S("owner"), S("retention"), S("key_retrieval_reference")}
    && IsChecksum(checksum) && Field(m, "schema_version") == Some(JInt(1))
    && Holds(Field(m, "subject"), h.subject) && Holds(Field(m, "source_machine_id"), h.machine)
    && Holds(Field(m, "luks_uuid"), h.uuid) && Holds(Field(m, "luks_header_sha256_raw"), h.sha256)
    && Field(m, "luks_header_raw_size_bytes") == Some(JInt(h.size)) && Holds(Field(m, "ciphertext_sha256"), checksum)
    && Holds(Field(m, "owner"), h.owner) && Holds(Field(m, "retention"), h.retention)
    && Holds(Field(m, "key_retrieval_reference"), h.reference)
  }

  /** A Vault envelope of at most 128 MiB. */
  predicate Envelope(t: Text) {
    S("$ANSIBLE_VAULT;1.") <= t && |t| <= 134_217_728 && forall i :: 0 <= i < |t| ==> t[i] < 128
  }

  /** The package of this header and envelope: a manifest with the envelope's digest, and the envelope. */
  predicate Seals(hash: Digest, p: Json, h: Header, envelope: Text) {
    && p.JObject? && p.fields.Keys == {S("manifest"), S("ciphertext")} && Envelope(envelope) && Holds(Field(p, "ciphertext"), envelope)
    && Field(p, "manifest").Some? && Describes(Field(p, "manifest").value, h, hash(Encoded(envelope)))
  }

  function HeaderOf(m: Json): Header
    requires ValidManifest(m)
  {
    Header(m.fields[S("subject")].s, m.fields[S("source_machine_id")].s, m.fields[S("luks_uuid")].s,
           m.fields[S("luks_header_sha256_raw")].s, m.fields[S("luks_header_raw_size_bytes")].n,
           m.fields[S("owner")].s, m.fields[S("retention")].s, m.fields[S("key_retrieval_reference")].s)
  }

  lemma HeaderIsLawful(m: Json)
    requires ValidManifest(m)
    ensures Lawful(HeaderOf(m))
  {
    var h := HeaderOf(m);
    NamesExactly(h.subject);
    HexExactly(h.machine, 32);
    UuidExactly(h.uuid);
    HexExactly(h.sha256, 64);
  }

  lemma ManifestDescribes(m: Json)
    requires ValidManifest(m)
    ensures Describes(m, HeaderOf(m), m.fields[S("ciphertext_sha256")].s) && Lawful(HeaderOf(m))
  {
    HeaderIsLawful(m);
    HexExactly(m.fields[S("ciphertext_sha256")].s, 64);
  }

  lemma LawfulIsValid(m: Json, h: Header, checksum: Text)
    requires Describes(m, h, checksum) && Lawful(h)
    ensures ValidManifest(m) && m.fields[S("ciphertext_sha256")] == JString(checksum)
  {
    NamesExactly(h.subject);
    HexExactly(h.machine, 32);
    UuidExactly(h.uuid);
    HexExactly(h.sha256, 64);
    HexExactly(checksum, 64);
  }

  lemma SealedWhenValid(hash: Digest, p: Json) returns (h: Header, envelope: Text)
    requires ValidPackage(hash, p)
    ensures Seals(hash, p, h, envelope) && Lawful(h)
  {
    var m := p.fields[S("manifest")];
    h, envelope := HeaderOf(m), p.fields[S("ciphertext")].s;
    ManifestDescribes(m);
    assert Field(p, "manifest") == Some(m) && Field(p, "ciphertext") == Some(JString(envelope));
  }

  lemma ValidWhenSealed(hash: Digest, p: Json, h: Header, envelope: Text)
    requires Seals(hash, p, h, envelope) && Lawful(h) && |Canonical(p)| <= 138_412_032
    ensures ValidPackage(hash, p)
  {
    var m := p.fields[S("manifest")];
    assert Field(p, "manifest") == Some(m) && p.fields[S("ciphertext")] == JString(envelope);
    LawfulIsValid(m, h, hash(Encoded(envelope)));
    EnvelopeIsValid(hash, p.fields[S("ciphertext")], envelope);
  }

  lemma EnvelopeIsValid(hash: Digest, c: Json, envelope: Text)
    requires c == JString(envelope) && Envelope(envelope)
    ensures ValidCiphertext(hash, c, JString(hash(Encoded(envelope))))
  {
  }

  /** The valid packages: the sealed lawful headers of at most 132 MiB. */
  lemma PackagesExactly(hash: Digest, p: Json)
    ensures ValidatePackage(hash, p).Ok? <==>
            |Canonical(p)| <= 138_412_032 && exists h, envelope :: Seals(hash, p, h, envelope) && Lawful(h)
  {
    if ValidPackage(hash, p) {
      var h, envelope := SealedWhenValid(hash, p);
      assert Seals(hash, p, h, envelope) && Lawful(h);
    } else if |Canonical(p)| <= 138_412_032 {
      forall h, envelope ensures !(Seals(hash, p, h, envelope) && Lawful(h)) {
        if Seals(hash, p, h, envelope) && Lawful(h) { ValidWhenSealed(hash, p, h, envelope); }
      }
    }
  }

  // ----------------------------------------------------------------- objects

  /** The decimal digits of a number, as text. */
  predicate IsNumber(t: Text, n: nat) { AllAscii(t) && NaturalIs(Encoded(t), n) }

  /** Piece i of raw, counted from 0: at most 262144 bytes from there on. */
  predicate IsPiece(raw: Bytes, i: nat, piece: Bytes) {
    var start := i * 262_144;
    && start < |raw| && |piece| == (if |raw| - start < 262_144 then |raw| - start else 262_144)
    && forall j :: 0 <= j < |piece| ==> piece[j] == raw[start + j]
  }

  /** The stored value of a piece: its number, its digest, and its bytes in Base64. */
  predicate HoldsPiece(hash: Digest, v: Json, i: nat, piece: Bytes) {
    && v.JObject? && v.fields.Keys == {S("index"), S("sha256"), S("payload_b64")}
    && Field(v, "index") == Some(JInt(i)) && Holds(Field(v, "sha256"), hash(piece))
    && Holds(Field(v, "payload_b64"), Base64.Encode(piece))
  }

  predicate Commits(hash: Digest, v: Json, raw: Bytes, count: nat, manifest: Json) {
    && v.JObject? && v.fields.Keys == {S("format"), S("package_sha256"), S("package_size_bytes"), S("chunk_count"), S("manifest")}
    && Holds(Field(v, "format"), S("luks-header-custody-v1")) && Holds(Field(v, "package_sha256"), hash(raw))
    && Field(v, "package_size_bytes") == Some(JInt(|raw|)) && Field(v, "chunk_count") == Some(JInt(count))
    && Field(v, "manifest") == Some(manifest)
  }

  /** Under the prefix and the digest. */
  predicate Under(path: Text, prefix: Text, sha: Text, name: Text) { path == prefix + S("/") + sha + S("/") + name }

  lemma PieceExactly(raw: Bytes, i: nat)
    requires i < ChunkCount(|raw|)
    ensures IsPiece(raw, i, Chunks(raw)[i])
  {
    ChunkSize(raw, i);
  }

  lemma NumberExactly(n: nat)
    ensures IsNumber(Decoded(EmitNat(n, [])), n)
  {
    var s := IntPrints(n, []);
    assert s + [] == s == EmitNat(n, []);
    assert Encoded(Decoded(s)) == s;
  }

  lemma PieceValue(hash: Digest, i: nat, piece: Bytes)
    ensures HoldsPiece(hash, ChunkValue(hash, i, piece), i, piece)
  {
    assert S("index")[0] == 105 && S("sha256")[0] == 115;
  }

  lemma CommitValue(hash: Digest, raw: Bytes, manifest: Json)
    ensures Commits(hash, CommitRecord(hash, raw, manifest), raw, |Chunks(raw)|, manifest)
  {
    assert S("format")[0] == 102 && S("manifest")[0] == 109;
  }

  /** What is stored for a package: its pieces under their numbers, in order, then the commit record. */
  lemma ObjectsExactly(hash: Digest, prefix: Text, p: Json, i: nat)
    requires ValidPackage(hash, p) && i < |ObjectsOf(hash, prefix, p)|
    ensures var raw, objects := Canonical(p), ObjectsOf(hash, prefix, p);
            var count := |objects| - 1;
            && (count - 1) * 262_144 < |raw| <= count * 262_144
            && if i < count then
                 && IsPiece(raw, i, Chunks(raw)[i]) && HoldsPiece(hash, objects[i].value, i, Chunks(raw)[i])
                 && exists number :: IsNumber(number, i) && Under(objects[i].path, prefix, hash(raw), S("chunk-") + number)
               else
                 && Commits(hash, objects[i].value, raw, count, p.fields[S("manifest")])
                 && Under(objects[i].path, prefix, hash(raw), S("manifest"))
  {
    var raw, objects := Canonical(p), ObjectsOf(hash, prefix, p);
    var count := |objects| - 1;
    assert objects[i] == ObjectAt(hash, prefix, p, i);
    if i < count {
      PieceExactly(raw, i);
      PieceValue(hash, i, Chunks(raw)[i]);
      NumberExactly(i);
      assert S("/") == [47];
      assert Under(objects[i].path, prefix, hash(raw), S("chunk-") + Decoded(EmitNat(i, [])));
    } else {
      CommitValue(hash, raw, p.fields[S("manifest")]);
      assert S("/") == [47];
    }
  }
}
