/** The store objects of one package: its chunks, its manifest, and the paths they live under. */

module Objects {
  import opened Text
  import opened Json
  import opened JsonProofs
  import opened Package
  import Base64

  const CHUNK_SIZE := 256 * 1024

  // ----------------------------------------------------------------- chunks

  function ChunkCount(size: nat): nat { (size + CHUNK_SIZE - 1) / CHUNK_SIZE }

  function Chunks(raw: Bytes): seq<Bytes> {
    seq(ChunkCount(|raw|), i requires 0 <= i < ChunkCount(|raw|) =>
      if (i + 1) * CHUNK_SIZE <= |raw| then raw[i * CHUNK_SIZE..(i + 1) * CHUNK_SIZE] else raw[i * CHUNK_SIZE..])
  }

  /** `b"".join(chunks)` */
  function Concat(chunks: seq<Bytes>): Bytes {
    if chunks == [] then [] else Concat(chunks[..|chunks| - 1]) + chunks[|chunks| - 1]
  }

  lemma {:induction false} ConcatChunks(raw: Bytes, n: nat)
    requires n <= ChunkCount(|raw|)
    ensures Concat(Chunks(raw)[..n]) == if n * CHUNK_SIZE <= |raw| then raw[..n * CHUNK_SIZE] else raw
  {
    if n > 0 {
      ConcatChunks(raw, n - 1);
      var chunks := Chunks(raw)[..n];
      assert chunks[..n - 1] == Chunks(raw)[..n - 1];
      assert chunks[n - 1] == Chunks(raw)[n - 1];
      NextChunk(raw, n);
    }
  }

  lemma NextChunk(raw: Bytes, n: nat)
    requires 0 < n <= ChunkCount(|raw|)
    ensures (n - 1) * CHUNK_SIZE <= |raw|
    ensures raw[..(n - 1) * CHUNK_SIZE] + Chunks(raw)[n - 1] == if n * CHUNK_SIZE <= |raw| then raw[..n * CHUNK_SIZE] else raw
  {
    var start, end := (n - 1) * CHUNK_SIZE, n * CHUNK_SIZE;
    if end <= |raw| {
      assert raw[..start] + raw[start..end] == raw[..end];
    } else {
      assert raw[..start] + raw[start..] == raw;
    }
  }

  lemma ChunkSize(raw: Bytes, i: nat)
    requires i < ChunkCount(|raw|)
    ensures 0 < |Chunks(raw)[i]| <= CHUNK_SIZE
  {
    assert i * CHUNK_SIZE < |raw|;
  }

  lemma GroupsGrow(m: nat, n: nat)
    requires m <= n
    ensures (m + 2) / 3 * 4 <= (n + 2) / 3 * 4
  {
  }

  /** Every chunk has its share of the bytes, and encodes to no more than the reader allows. */
  lemma {:induction false} ChunkBound(raw: Bytes, i: nat)
    requires i < ChunkCount(|raw|)
    ensures 0 < |Chunks(raw)[i]| <= CHUNK_SIZE
    ensures |Base64.Encode(Chunks(raw)[i])| <= (CHUNK_SIZE + 2) / 3 * 4
  {
    ChunkSize(raw, i);
    Base64.EncodedLength(Chunks(raw)[i]);
    GroupsGrow(|Chunks(raw)[i]|, CHUNK_SIZE);
  }

  /** Cutting and joining undo each other. */
  lemma {:induction false} ChunksRoundTrip(raw: Bytes)
    ensures Concat(Chunks(raw)) == raw
  {
    var n := ChunkCount(|raw|);
    ConcatChunks(raw, n);
    ChunksSuffice(|raw|);
    assert Chunks(raw)[..n] == Chunks(raw);
    assert n * CHUNK_SIZE <= |raw| ==> raw[..n * CHUNK_SIZE] == raw;
  }

  lemma ChunksSuffice(size: nat)
    ensures ChunkCount(size) * CHUNK_SIZE >= size
  {
  }

  // ------------------------------------------------------------------ paths

  const SLASH: CodePoint := 47

  function Root(prefix: Text, sha: Text): Text { prefix + [SLASH] + sha }

  function ChunkName(i: nat): Text { S("chunk-") + Decoded(EmitNat(i, [])) }

  function ChunkPath(prefix: Text, sha: Text, i: nat): Text { Root(prefix, sha) + [SLASH] + ChunkName(i) }

  function ManifestPath(prefix: Text, sha: Text): Text { Root(prefix, sha) + [SLASH] + S("manifest") }

  lemma LastSegment(a: Text, b: Text, c: Text, d: Text)
    requires SLASH !in b && SLASH !in d
    requires a + [SLASH] + b == c + [SLASH] + d
    ensures a == c && b == d
  {
    var p := a + [SLASH] + b;
    assert p == c + [SLASH] + d;
    assert p[|a|] == SLASH && p[|c|] == SLASH;
    assert a == p[..|a|] && c == p[..|c|];
    assert b == p[|a| + 1..] && d == p[|c| + 1..];
  }

  lemma {:induction false} NatHasNoSlash(n: nat, k: Bytes)
    requires SLASH !in k
    ensures SLASH !in EmitNat(n, k)
    decreases n
  {
    if n >= 10 { NatHasNoSlash(n / 10, [48 + n % 10] + k); }
  }

  lemma ChunkNames(i: nat, j: nat)
    ensures SLASH !in ChunkName(i) && SLASH !in S("manifest") && ChunkName(i) != S("manifest")
    ensures ChunkName(i) == ChunkName(j) ==> i == j
  {
    NatHasNoSlash(i, []);
    forall c | c in ChunkName(i) ensures c != SLASH {
      if c !in S("chunk-") { assert c in EmitNat(i, []); }
    }
    assert ChunkName(i)[0] == 99 && S("manifest")[0] == 109;
    if ChunkName(i) == ChunkName(j) {
      assert ChunkName(i)[6..] == Decoded(EmitNat(i, [])) && ChunkName(j)[6..] == Decoded(EmitNat(j, []));
      assert EmitNat(i, []) == EmitNat(j, []);
      DigitsRoundTrip(i, []);
      DigitsRoundTrip(j, []);
    }
  }

  lemma HexHasNoSlash(t: Text)
    requires Hex(t, 64)
    ensures SLASH !in t
  {
  }

  lemma RootsDiffer(prefix: Text, sha: Text, prefix': Text, sha': Text, name: Text, name': Text)
    requires Hex(sha, 64) && Hex(sha', 64) && SLASH !in name && SLASH !in name'
    requires Root(prefix, sha) + [SLASH] + name == Root(prefix', sha') + [SLASH] + name'
    ensures prefix == prefix' && sha == sha' && name == name'
  {
    HexHasNoSlash(sha);
    HexHasNoSlash(sha');
    LastSegment(Root(prefix, sha), name, Root(prefix', sha'), name');
    LastSegment(prefix, sha, prefix', sha');
  }

  // ---------------------------------------------------------------- objects

  function ChunkValue(hash: Digest, i: nat, chunk: Bytes): Json {
    JObject(map[
      S("index") := JInt(i),
      S("sha256") := JString(hash(chunk)),
      S("payload_b64") := JString(Base64.Encode(chunk))])
  }

  const FORMAT: Json := JString(S("luks-header-custody-v1"))

  /** The commit record for raw, carrying the package's own manifest. */
  function CommitRecord(hash: Digest, raw: Bytes, manifest: Json): Json {
    JObject(map[
      S("format") := FORMAT,
      S("package_sha256") := JString(hash(raw)),
      S("package_size_bytes") := JInt(|raw|),
      S("chunk_count") := JInt(|Chunks(raw)|),
      S("manifest") := manifest])
  }

  datatype Object = Object(path: Text, value: Json)

  /** The objects of a package in the order they are written: chunks first, the manifest last. */
  function ObjectAt(hash: Digest, prefix: Text, package: Json, i: nat): Object
    requires ValidPackage(hash, package) && i <= |Chunks(Canonical(package))|
  {
    var raw := Canonical(package);
    if i < |Chunks(raw)|
    then Object(ChunkPath(prefix, hash(raw), i), ChunkValue(hash, i, Chunks(raw)[i]))
    else Object(ManifestPath(prefix, hash(raw)), CommitRecord(hash, raw, package.fields[S("manifest")]))
  }

  function ObjectCount(package: Json): nat { |Chunks(Canonical(package))| + 1 }

  function ObjectsOf(hash: Digest, prefix: Text, package: Json): seq<Object>
    requires ValidPackage(hash, package)
  {
    seq(ObjectCount(package), i requires 0 <= i < ObjectCount(package) => ObjectAt(hash, prefix, package, i))
  }

  /** One path names one object of one package digest under one prefix. */
  lemma PathNamesObject(hash: Digest, prefix: Text, p: Json, i: nat, prefix': Text, p': Json, i': nat)
    requires ValidPackage(hash, p) && i < ObjectCount(p) && ValidPackage(hash, p') && i' < ObjectCount(p')
    requires Hex(hash(Canonical(p)), 64) && Hex(hash(Canonical(p')), 64)
    requires ObjectAt(hash, prefix, p, i).path == ObjectAt(hash, prefix', p', i').path
    ensures prefix == prefix' && hash(Canonical(p)) == hash(Canonical(p'))
    ensures (i == ObjectCount(p) - 1 <==> i' == ObjectCount(p') - 1)
    ensures i < ObjectCount(p) - 1 ==> i == i'
  {
    var sha, sha' := hash(Canonical(p)), hash(Canonical(p'));
    ChunkNames(i, i');
    ChunkNames(i', i);
    var name := if i < ObjectCount(p) - 1 then ChunkName(i) else S("manifest");
    var name' := if i' < ObjectCount(p') - 1 then ChunkName(i') else S("manifest");
    assert ObjectAt(hash, prefix, p, i).path == Root(prefix, sha) + [SLASH] + name;
    assert ObjectAt(hash, prefix', p', i').path == Root(prefix', sha') + [SLASH] + name';
    RootsDiffer(prefix, sha, prefix', sha', name, name');
  }

  /** Packages with the same canonical bytes have the same objects, as a JSON transport delivers them. */
  lemma SameBytesSameObjects(hash: Digest, prefix: Text, p: Json, q: Json, i: nat)
    requires ValidPackage(hash, p) && ValidPackage(hash, q) && Canonical(p) == Canonical(q) && i < ObjectCount(p)
    ensures ObjectAt(hash, prefix, p, i).path == ObjectAt(hash, prefix, q, i).path
    ensures JoinedValue(ObjectAt(hash, prefix, p, i).value) == JoinedValue(ObjectAt(hash, prefix, q, i).value)
  {
    if i == ObjectCount(p) - 1 {
      PackageShape(hash, p);
      PackageShape(hash, q);
      ParseCanonical(p);
      ParseCanonical(q);
      JoinedPackage(hash, p);
      JoinedPackage(hash, q);
      SameCommitRecord(hash, Canonical(p), p.fields[S("manifest")], q.fields[S("manifest")]);
    }
  }

  lemma {:induction false} SameCommitRecord(hash: Digest, raw: Bytes, m: Json, m': Json)
    requires JoinedValue(m) == JoinedValue(m')
    ensures JoinedValue(CommitRecord(hash, raw, m)) == JoinedValue(CommitRecord(hash, raw, m'))
  {
    var a, b := CommitRecord(hash, raw, m).fields, CommitRecord(hash, raw, m').fields;
    assert a[S("manifest")] == m && b == a[S("manifest") := m'];
    OtherField(a, S("manifest"), m');
  }

  lemma OtherField(fields: map<Text, Json>, key: Text, v: Json)
    requires key in fields && JoinedValue(fields[key]) == JoinedValue(v)
    ensures JoinedValue(JObject(fields)) == JoinedValue(JObject(fields[key := v]))
  {
    assert JoinedValue(JObject(fields)).fields == JoinedValue(JObject(fields[key := v])).fields;
  }
}
