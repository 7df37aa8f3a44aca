/** What a reader of the shared store gets, and the invariants of whole runs. */

module CustodyReaders {
  import opened Outcomes
  import opened Text
  import opened Json
  import opened JsonProofs
  import opened Package
  import opened Objects
  import opened Custody
  import opened CustodyRuns
  import Base64

  // ------------------------------------------- what is read from an own object

  lemma AsciiStringsTravel(t: Text)
    requires AllAscii(t)
    ensures JoinedValue(JString(t)) == JString(t)
  {
    AsciiIsWhole(t);
    WholeIsJoined(t);
  }

  lemma HexTravels(t: Text)
    requires Hex(t, 64)
    ensures JoinedValue(JString(t)) == JString(t)
  {
    AsciiStringsTravel(t);
  }

  /** Chunk objects hold nothing but ASCII, so JSON delivers them unchanged. */
  lemma ChunkValueTravels(hash: Digest, i: nat, chunk: Bytes)
    requires Hex(hash(chunk), 64)
    ensures JoinedValue(ChunkValue(hash, i, chunk)) == ChunkValue(hash, i, chunk)
  {
    var v := ChunkValue(hash, i, chunk);
    HexTravels(hash(chunk));
    Base64.EncodedLength(chunk);
    AsciiStringsTravel(Base64.Encode(chunk));
    assert JoinedValue(v).fields == v.fields;
  }

  /** A chunk object read back passes every check of the reader and yields its chunk. */
  lemma ChunkValueIsRead(hash: Digest, i: nat, chunk: Bytes, version: int)
    requires |chunk| <= CHUNK_SIZE
    ensures ChunkContent(hash, Some(Row(ChunkValue(hash, i, chunk), version)), i) == Ok(chunk)
  {
    Base64.EncodedLength(chunk);
    Base64.RoundTrip(chunk);
    var c := ChunkValue(hash, i, chunk);
    assert c.fields.Keys == {S("index"), S("payload_b64"), S("sha256")};
  }

  lemma CommitFields(hash: Digest, raw: Bytes, m: Json)
    ensures var fields := CommitRecord(hash, raw, m).fields;
            && fields.Keys == {S("format"), S("package_sha256"), S("package_size_bytes"), S("chunk_count"), S("manifest")}
            && fields[S("format")] == FORMAT && fields[S("package_sha256")] == JString(hash(raw))
            && fields[S("package_size_bytes")] == JInt(|raw|) && fields[S("chunk_count")] == JInt(|Chunks(raw)|)
            && fields[S("manifest")] == m
  {
  }

  lemma FieldsTravel(v: map<Text, Json>, w: map<Text, Json>, a: Text, b: Text, c: Text, d: Text, e: Text)
    requires v.Keys == w.Keys == {a, b, c, d, e}
    requires JoinedValue(v[a]) == w[a] && JoinedValue(v[b]) == w[b] && JoinedValue(v[c]) == w[c]
    requires JoinedValue(v[d]) == w[d] && JoinedValue(v[e]) == w[e]
    ensures JoinedValue(JObject(v)) == JObject(w)
  {
    assert JoinedValue(JObject(v)).fields == w;
  }

  lemma CommitRecordTravels(hash: Digest, raw: Bytes, m: Json)
    requires Hex(hash(raw), 64)
    ensures JoinedValue(CommitRecord(hash, raw, m)) == CommitRecord(hash, raw, JoinedValue(m))
  {
    HexTravels(hash(raw));
    AsciiStringsTravel(FORMAT.s);
    CommitFields(hash, raw, m);
    CommitFields(hash, raw, JoinedValue(m));
    FieldsTravel(CommitRecord(hash, raw, m).fields, CommitRecord(hash, raw, JoinedValue(m)).fields,
                 S("format"), S("package_sha256"), S("package_size_bytes"), S("chunk_count"), S("manifest"));
  }

  /** A commit record read back is within bounds and carries its manifest. */
  lemma CommitRecordIsRead(hash: Digest, raw: Bytes, m: Json, pins: Pins)
    requires 0 < |raw| <= MAX_PACKAGE && hash(raw) == pins.packageSha256
    ensures Bounds(CommitRecord(hash, raw, m), pins) == Some((|raw|, ChunkCount(|raw|)))
    ensures Field(CommitRecord(hash, raw, m), "manifest") == Some(m)
  {
  }

  /** A reader's first read, where raw was committed. */
  lemma FirstStep(hash: Digest, r: Reader, raw: Bytes, m: Json)
    requires ReaderWellFormed(r) && r.phase.AwaitManifest?
    requires 0 < |raw| <= MAX_PACKAGE && hash(raw) == r.pins.packageSha256
    ensures ReaderStep(hash, r, Some(Row(CommitRecord(hash, raw, m), 1)))
         == r.(committed := Some(Row(CommitRecord(hash, raw, m), 1)), phase := Fetching([]))
  {
    CommitRecordIsRead(hash, raw, m, r.pins);
  }

  /** A reader's read of the next chunk of raw. */
  lemma ChunkStep(hash: Digest, r: Reader, raw: Bytes, m: Json, i: nat)
    requires ReaderWellFormed(r) && r.committed == Some(Row(CommitRecord(hash, raw, m), 1))
    requires 0 < |raw| <= MAX_PACKAGE && hash(raw) == r.pins.packageSha256
    requires i < ChunkCount(|raw|) && r.phase == Fetching(Chunks(raw)[..i]) && Hex(hash(Chunks(raw)[i]), 64)
    ensures ReaderStep(hash, r, Some(Row(JoinedValue(ChunkValue(hash, i, Chunks(raw)[i])), 1)))
         == r.(phase := Fetching(Chunks(raw)[..i + 1]))
  {
    CommitRecordIsRead(hash, raw, m, r.pins);
    ChunkBound(raw, i);
    ChunkValueTravels(hash, i, Chunks(raw)[i]);
    ChunkValueIsRead(hash, i, Chunks(raw)[i], 1);
    StepTakesChunk(hash, r, Some(Row(ChunkValue(hash, i, Chunks(raw)[i]), 1)), Chunks(raw)[i]);
    assert Chunks(raw)[..i] + [Chunks(raw)[i]] == Chunks(raw)[..i + 1];
  }

  lemma StepTakesChunk(hash: Digest, r: Reader, answer: Option<Row>, chunk: Bytes)
    requires ReaderWellFormed(r) && r.phase.Fetching?
    requires |r.phase.chunks| < Bounds(r.committed.value.data, r.pins).value.1
    requires ChunkContent(hash, answer, |r.phase.chunks|) == Ok(chunk)
    ensures ReaderStep(hash, r, answer) == r.(phase := Fetching(r.phase.chunks + [chunk]))
  {
  }

  // ---------------------------------------------------------- reader invariant

  /** Reader r is reading what publisher id committed, and has got it right so far. */
  predicate ReadsFrom(hash: Digest, s: System, r: Reader, id: nat) {
    && id in s.publishers
    && var p := s.publishers[id];
       && Complete(s.store, p) && p.objects != []
       && p.prefix == r.prefix && hash(Canonical(p.package)) == r.pins.packageSha256
       && r.committed == Some(Row(JoinedValue(p.objects[|p.objects| - 1].value), 1))
       && match r.phase
          case AwaitManifest => false
          case Fetching(chunks) =>
            |chunks| <= ChunkCount(|Canonical(p.package)|) && chunks == Chunks(Canonical(p.package))[..|chunks|]
          case Fetched(package, version) =>
            package == JoinedValue(p.package) && version == 1 && SameSource(p.package, r.pins)
          case ReadFailed => !SameSource(p.package, r.pins)
          case ReadCrashed => true
  }

  ghost predicate ReaderInvariant(hash: Digest, s: System, r: Reader) {
    r.committed.Some? ==> exists id :: ReadsFrom(hash, s, r, id)
  }

  /** The bounds a reader works with are those of the committed package. */
  lemma CommittedBounds(hash: Digest, s: System, r: Reader, id: nat)
    requires HexDigest(hash) && id in s.publishers && LaidOut(hash, s.publishers[id])
    requires ReadsFrom(hash, s, r, id)
    ensures var p := s.publishers[id];
            && r.committed.value.data
               == CommitRecord(hash, Canonical(p.package), JoinedValue(p.package.fields[S("manifest")]))
            && Bounds(r.committed.value.data, r.pins)
               == Some((|Canonical(p.package)|, ChunkCount(|Canonical(p.package)|)))
  {
    var p := s.publishers[id];
    var raw, m := Canonical(p.package), p.package.fields[S("manifest")];
    PackageShape(hash, p.package);
    CommitRecordTravels(hash, raw, m);
    CommitRecordIsRead(hash, raw, JoinedValue(m), r.pins);
  }

  lemma ChunkIsFetched(hash: Digest, s: System, r: Reader, id: nat, answer: Option<Row>)
    requires HexDigest(hash) && id in s.publishers && LaidOut(hash, s.publishers[id])
    requires ReaderWellFormed(r) && ReadsFrom(hash, s, r, id) && r.phase.Fetching?
    requires |r.phase.chunks| < ChunkCount(|Canonical(s.publishers[id].package)|)
    requires answer == Some(Row(JoinedValue(s.publishers[id].objects[|r.phase.chunks|].value), 1))
    ensures ReadsFrom(hash, s, ReaderStep(hash, r, answer), id)
    ensures ReaderStep(hash, r, answer).phase.Fetching?
  {
    var p := s.publishers[id];
    var raw, m, i := Canonical(p.package), JoinedValue(p.package.fields[S("manifest")]), |r.phase.chunks|;
    CommittedBounds(hash, s, r, id);
    assert p.objects[i].value == ChunkValue(hash, i, Chunks(raw)[i]);
    ChunkStep(hash, r, raw, m, i);
  }

  /** With all chunks read and the manifest unchanged, the download decides. */
  lemma ConcludesByDownload(hash: Digest, r: Reader, raw: Bytes, m: Json)
    requires ReaderWellFormed(r) && r.phase == Fetching(Chunks(raw)) && 0 < |raw| <= MAX_PACKAGE
    requires hash(raw) == r.pins.packageSha256 && r.committed == Some(Row(CommitRecord(hash, raw, m), 1))
    ensures ReaderStep(hash, r, r.committed) == r.(phase :=
              match VerifyDownload(hash, raw, r.pins)
              case Raised => ReadFailed
              case Ok(package) => if Field(package, "manifest") == Some(m) then Fetched(package, 1) else ReadFailed)
  {
    CommitRecordIsRead(hash, raw, m, r.pins);
    ChunksRoundTrip(raw);
  }

  /** A reader's last read, with all chunks of a package. */
  lemma LastStep(hash: Digest, r: Reader, package: Json)
    requires ValidPackage(hash, package) && ReaderWellFormed(r) && ValidPins(r.pins)
    requires r.phase == Fetching(Chunks(Canonical(package))) && hash(Canonical(package)) == r.pins.packageSha256
    requires r.committed == Some(Row(CommitRecord(hash, Canonical(package), JoinedValue(package.fields[S("manifest")])), 1))
    ensures ReaderStep(hash, r, r.committed)
         == r.(phase := if SameSource(package, r.pins) then Fetched(JoinedValue(package), 1) else ReadFailed)
  {
    var m := JoinedValue(package.fields[S("manifest")]);
    PackageShape(hash, package);
    ConcludesByDownload(hash, r, Canonical(package), m);
    DownloadsExactly(hash, package, r.pins);
    JoinedPackage(hash, package);
    assert Field(JoinedValue(package), "manifest") == Some(m);
  }

  lemma PackageIsFetched(hash: Digest, s: System, r: Reader, id: nat)
    requires HexDigest(hash) && id in s.publishers && LaidOut(hash, s.publishers[id])
    requires ReaderWellFormed(r) && ReadsFrom(hash, s, r, id) && r.phase.Fetching?
    requires |r.phase.chunks| == ChunkCount(|Canonical(s.publishers[id].package)|)
    ensures ReadsFrom(hash, s, ReaderStep(hash, r, r.committed), id)
    ensures !ReaderStep(hash, r, r.committed).phase.Fetching?
  {
    var p := s.publishers[id];
    var raw := Canonical(p.package);
    CommittedBounds(hash, s, r, id);
    assert Chunks(raw)[..|r.phase.chunks|] == Chunks(raw);
    LastStep(hash, r, p.package);
  }

  /** One more read of a reader that has seen the commit record: it gets the committed package's next part. */
  lemma FetchingContinues(hash: Digest, s: System, r: Reader, id: nat)
    requires HexDigest(hash) && id in s.publishers && LaidOut(hash, s.publishers[id])
    requires ReaderWellFormed(r) && ReadsFrom(hash, s, r, id) && r.phase.Fetching?
    ensures ReadsFrom(hash, s, ReaderStep(hash, r, Lookup(s.store, ReaderPath(r))), id)
    ensures var r' := ReaderStep(hash, r, Lookup(s.store, ReaderPath(r)));
            if ReadsLeft(r) > 1 then r'.phase.Fetching? && r'.committed == r.committed && ReadsLeft(r') == ReadsLeft(r) - 1
            else !r'.phase.Fetching?
  {
    var p, i := s.publishers[id], |r.phase.chunks|;
    CommittedBounds(hash, s, r, id);
    if i < ChunkCount(|Canonical(p.package)|) {
      assert Stored(s.store, p.objects[i]) && p.objects[i].path == ReaderPath(r);
      ChunkIsFetched(hash, s, r, id, Lookup(s.store, ReaderPath(r)));
    } else {
      assert Stored(s.store, p.objects[|p.objects| - 1]) && p.objects[|p.objects| - 1].path == ReaderPath(r);
      PackageIsFetched(hash, s, r, id);
    }
  }

  /** A commit record is found only where some publisher committed. */
  lemma FoundManifest(hash: Digest, s: System, r: Reader)
    requires HexDigest(hash) && AllLaidOut(hash, s) && PublishersInvariant(s)
    requires ReaderWellFormed(r) && r.phase.AwaitManifest? && ReaderPath(r) in s.store
    ensures ReaderStep(hash, r, Lookup(s.store, ReaderPath(r))).phase == Fetching([])
    ensures ReaderInvariant(hash, s, ReaderStep(hash, r, Lookup(s.store, ReaderPath(r))))
  {
    var id, i :| WrittenBy(s, ReaderPath(r), id, i);
    var p := s.publishers[id];
    assert LaidOut(hash, s.publishers[id]);
    ManifestPathNames(hash, p.prefix, p.package, i, r.prefix, r.pins.packageSha256);
    FoundManifestOf(hash, s, r, id);
  }

  lemma FoundManifestOf(hash: Digest, s: System, r: Reader, id: nat)
    requires HexDigest(hash) && id in s.publishers && LaidOut(hash, s.publishers[id])
    requires CommitImpliesComplete(s.store, s.publishers[id])
    requires ReaderWellFormed(r) && r.phase.AwaitManifest? && ReaderPath(r) in s.store
    requires s.publishers[id].prefix == r.prefix && hash(Canonical(s.publishers[id].package)) == r.pins.packageSha256
    ensures ReaderStep(hash, r, Lookup(s.store, ReaderPath(r))).phase == Fetching([])
    ensures ReadsFrom(hash, s, ReaderStep(hash, r, Lookup(s.store, ReaderPath(r))), id)
  {
    var p := s.publishers[id];
    var raw, m := Canonical(p.package), p.package.fields[S("manifest")];
    PackageShape(hash, p.package);
    LastObject(hash, p);
    assert Stored(s.store, p.objects[|p.objects| - 1]);
    FirstStep(hash, r, raw, JoinedValue(m));
    assert Chunks(raw)[..0] == [];
  }

  lemma LastObject(hash: Digest, p: Publisher)
    requires HexDigest(hash) && LaidOut(hash, p)
    ensures p.objects != [] && p.objects[|p.objects| - 1].path == ManifestPath(p.prefix, hash(Canonical(p.package)))
    ensures S("manifest") in p.package.fields
    ensures JoinedValue(p.objects[|p.objects| - 1].value)
         == CommitRecord(hash, Canonical(p.package), JoinedValue(p.package.fields[S("manifest")]))
  {
    PackageShape(hash, p.package);
    CommitRecordTravels(hash, Canonical(p.package), p.package.fields[S("manifest")]);
  }

  lemma ManifestPathNames(hash: Digest, prefix: Text, p: Json, i: nat, prefix': Text, sha: Text)
    requires ValidPackage(hash, p) && i < ObjectCount(p) && Hex(hash(Canonical(p)), 64) && Hex(sha, 64)
    requires ObjectAt(hash, prefix, p, i).path == ManifestPath(prefix', sha)
    ensures prefix == prefix' && hash(Canonical(p)) == sha && i == ObjectCount(p) - 1
  {
    ChunkNames(i, i);
    var name := if i < ObjectCount(p) - 1 then ChunkName(i) else S("manifest");
    assert ObjectAt(hash, prefix, p, i).path == Root(prefix, hash(Canonical(p))) + [SLASH] + name;
    RootsDiffer(prefix, hash(Canonical(p)), prefix', sha, name, S("manifest"));
  }

  lemma ReaderKeepsInvariant(hash: Digest, s: System, r: Reader)
    requires HexDigest(hash) && AllLaidOut(hash, s) && PublishersInvariant(s)
    requires ReaderWellFormed(r) && Reading(r) && ReaderInvariant(hash, s, r)
    ensures ReaderInvariant(hash, s, ReaderStep(hash, r, Lookup(s.store, ReaderPath(r))))
  {
    if r.phase.AwaitManifest? {
      if ReaderPath(r) in s.store { FoundManifest(hash, s, r); }
    } else {
      var id :| ReadsFrom(hash, s, r, id);
      assert LaidOut(hash, s.publishers[id]);
      FetchingContinues(hash, s, r, id);
    }
  }

  /** Publishers coming, going and writing do not disturb a reader. */
  lemma ReaderUndisturbed(hash: Digest, s: System, s': System, r: Reader)
    requires ReaderInvariant(hash, s, r) && OnlyAdds(s, s')
    ensures ReaderInvariant(hash, s', r)
  {
    if r.committed.Some? {
      var id :| ReadsFrom(hash, s, r, id);
      assert ReadsFrom(hash, s', r, id);
    }
  }
}
