/** `vault_custody` and `vault_read_custody` as machines that take one store operation at a time. */

module Custody {
  import opened Outcomes
  import opened Text
  import opened Json
  import opened JsonProofs
  import opened Package
  import opened Objects
  import Base64

  /** A live version of one object. */
  datatype Row = Row(data: Json, version: int)

  type Store = map<Text, Row>

  function Lookup(store: Store, path: Text): Option<Row> {
    if path in store then Some(store[path]) else None
  }

  /** A create-only write (check-and-set 0) of a value as JSON delivers it; None when the path is taken. */
  function Created(store: Store, path: Text, value: Json): Option<Store> {
    if path in store then None else Some(store[path := Row(JoinedValue(value), 1)])
  }

  // -------------------------------------------------------------- publisher

  datatype Operation = Plan | Apply | Verify

  datatype CustodyResult = CustodyResult(
    changed: bool, verified: bool, planned: bool, packageSha256: Text, manifestPath: Text, manifestVersion: Option<int>)

  datatype Phase =
    | Preflight(observed: seq<Option<Row>>)
    | Creating(observed: seq<Option<Row>>, next: nat, changed: bool)
    | Readback(observed: seq<Option<Row>>, changed: bool, verified: seq<Option<Row>>)
    | Returned(result: CustodyResult)
    | Failed
    | Crashed

  /** One call of `vault_custody` past its argument checks, with the objects it has laid out. */
  datatype Publisher = Publisher(
    prefix: Text, package: Json, operation: Operation, checkMode: bool, objects: seq<Object>, phase: Phase)

  /** The call a caller makes: objects laid out, nothing read yet. */
  function Called(hash: Digest, prefix: Text, package: Json, operation: Operation, checkMode: bool): Publisher
    requires ValidPackage(hash, package)
  {
    Publisher(prefix, package, operation, checkMode, ObjectsOf(hash, prefix, package), Preflight([]))
  }

  predicate LaidOut(hash: Digest, p: Publisher) {
    ValidPackage(hash, p.package) && p.objects == ObjectsOf(hash, p.prefix, p.package)
  }

  predicate Absent(rows: seq<Option<Row>>) { exists i :: 0 <= i < |rows| && rows[i].None? }

  /** No row read so far conflicts with the object it was read for. */
  predicate Agrees(objects: seq<Object>, rows: seq<Option<Row>>) {
    && |rows| <= |objects|
    && forall i :: 0 <= i < |rows| && rows[i].Some? ==> rows[i].value.data == objects[i].value
  }

  predicate PhaseWellFormed(p: Publisher) {
    match p.phase
    case Preflight(observed) => Agrees(p.objects, observed)
    case Creating(observed, next, _) =>
      p.operation == Apply && !p.checkMode
      && Agrees(p.objects, observed) && |observed| == |p.objects| && next <= |observed|
    case Readback(observed, _, verified) =>
      p.operation == Apply && !p.checkMode
      && Agrees(p.objects, observed) && |observed| == |p.objects| && |verified| <= |observed|
    case _ => true
  }

  predicate WellFormed(p: Publisher) { p.objects != [] && PhaseWellFormed(p) }

  predicate Running(p: Publisher) { p.phase.Preflight? || p.phase.Creating? || p.phase.Readback? }

  function Payload(row: Option<Row>): Result<Bytes> {
    if row.Some? && row.value.data.JObject? && S("payload_b64") in row.value.data.fields
       && row.value.data.fields[S("payload_b64")].JString?
    then Base64.Decode(row.value.data.fields[S("payload_b64")].s)
    else Raised
  }

  /** The decoded payloads of rows, joined. */
  function Assemble(rows: seq<Option<Row>>): Result<Bytes> {
    if rows == [] then Ok([]) else
      match (Assemble(rows[..|rows| - 1]), Payload(rows[|rows| - 1]))
      case (Ok(head), Ok(last)) => Ok(head + last)
      case _ => Raised
  }

  /** Rows that hold the chunks one by one assemble to all of them. */
  lemma {:induction false} PayloadsAssemble(rows: seq<Option<Row>>, chunks: seq<Bytes>, n: nat)
    requires n <= |rows| && n <= |chunks| && forall i :: 0 <= i < n ==> Payload(rows[i]) == Ok(chunks[i])
    ensures Assemble(rows[..n]) == Ok(Concat(chunks[..n]))
  {
    if n > 0 {
      PayloadsAssemble(rows, chunks, n - 1);
      assert rows[..n][..n - 1] == rows[..n - 1] && chunks[..n][..n - 1] == chunks[..n - 1];
    }
  }

  lemma {:induction false} ChunksAssemble(raw: Bytes, rows: seq<Option<Row>>, n: nat)
    requires n == |Chunks(raw)| <= |rows| && forall i :: 0 <= i < n ==> Payload(rows[i]) == Ok(Chunks(raw)[i])
    ensures Assemble(rows[..n]) == Ok(raw)
  {
    PayloadsAssemble(rows, Chunks(raw), n);
    ChunksRoundTrip(raw);
    assert Chunks(raw)[..n] == Chunks(raw);
  }

  /** The last checks of `vault_custody`, over the rows it verified. */
  function Finish(hash: Digest, p: Publisher, observed: seq<Option<Row>>, changed: bool, verified: seq<Option<Row>>): Phase
    requires |verified| == |p.objects| != 0
  {
    var raw := Canonical(p.package);
    var manifest := verified[|verified| - 1];
    var planned := Absent(observed) && !changed;
    var path := ManifestPath(p.prefix, hash(raw));
    if Absent(verified) then
      Returned(CustodyResult(changed, false, planned, hash(raw), path, None))
    else if !Agrees(p.objects, verified) then Failed
    else
      match Assemble(verified[..|verified| - 1])
      case Raised => Failed
      case Ok(assembled) =>
        if DecodePackage(hash, assembled, raw).Ok?
        then Returned(CustodyResult(changed, true, planned, hash(raw), path, Some(manifest.value.version)))
        else Failed
  }

  /** Read the next object before anything is written, then decide what to do. */
  function PreflightStep(hash: Digest, p: Publisher, store: Store): (next: Phase)
    requires WellFormed(p) && p.phase.Preflight?
    ensures WellFormed(p.(phase := next))
  {
    var observed := p.phase.observed;
    if |observed| < |p.objects| then
      var target := p.objects[|observed|];
      var row := Lookup(store, target.path);
      if row.Some? && row.value.data != target.value then Failed else Preflight(observed + [row])
    else if Absent(observed) && p.operation == Verify then Failed
    else if p.operation == Apply && !p.checkMode then Creating(observed, 0, false)
    else Finish(hash, p, observed, false, observed)
  }

  /** Create the next object if the preflight did not see it; a taken path is an error. */
  function CreatingStep(p: Publisher, store: Store): (r: (Phase, Store))
    requires WellFormed(p) && p.phase.Creating?
    ensures WellFormed(p.(phase := r.0))
  {
    var Creating(observed, next, changed) := p.phase;
    if next == |p.objects| then (Readback(observed, changed, []), store)
    else if observed[next].Some? then (Creating(observed, next + 1, changed), store)
    else
      match Created(store, p.objects[next].path, p.objects[next].value)
      case None => (Failed, store)
      case Some(store') => (Creating(observed, next + 1, true), store')
  }

  /** Read every object again, then check what was read. */
  function ReadbackStep(hash: Digest, p: Publisher, store: Store): (next: Phase)
    requires WellFormed(p) && p.phase.Readback?
    ensures WellFormed(p.(phase := next))
  {
    var Readback(observed, changed, verified) := p.phase;
    if |verified| < |p.objects|
    then Readback(observed, changed, verified + [Lookup(store, p.objects[|verified|].path)])
    else Finish(hash, p, observed, changed, verified)
  }

  /** One store operation, or one local decision, of a running publisher. */
  function PublisherStep(hash: Digest, p: Publisher, store: Store): (r: (Publisher, Store))
    requires WellFormed(p) && Running(p)
    ensures WellFormed(r.0)
  {
    match p.phase
    case Preflight(_) => (p.(phase := PreflightStep(hash, p, store)), store)
    case Creating(_, _, _) => var (next, store') := CreatingStep(p, store); (p.(phase := next), store')
    case Readback(_, _, _) => (p.(phase := ReadbackStep(hash, p, store)), store)
  }

  /** How many steps a running publisher has left at most. */
  function StepsLeft(p: Publisher): int {
    var n := |p.objects|;
    match p.phase
    case Preflight(observed) => 3 * n + 3 - |observed|
    case Creating(_, next, _) => 2 * n + 2 - next
    case Readback(_, _, verified) => n + 1 - |verified|
    case _ => 0
  }

  lemma StepsDecrease(hash: Digest, p: Publisher, store: Store)
    requires WellFormed(p) && Running(p)
    ensures 0 <= StepsLeft(PublisherStep(hash, p, store).0) < StepsLeft(p)
  {
  }

  // ----------------------------------------------------------------- reader

  datatype ReaderPhase =
    | AwaitManifest
    | Fetching(chunks: seq<Bytes>)
    | Fetched(package: Json, version: int)
    | ReadFailed
    | ReadCrashed

  /** One call of `vault_read_custody`; committed is the manifest row it read first. */
  datatype Reader = Reader(prefix: Text, pins: Pins, committed: Option<Row>, phase: ReaderPhase)

  /** Package size and chunk count of an acceptable commit record. */
  function Bounds(m: Json, pins: Pins): (r: Option<(nat, nat)>)
    ensures r.Some? ==> r.value.1 == ChunkCount(r.value.0)
  {
    match (Field(m, "package_size_bytes"), Field(m, "chunk_count"))
    case (Some(JInt(size)), Some(JInt(count))) =>
      if Field(m, "format") == Some(FORMAT) && Field(m, "package_sha256") == Some(JString(pins.packageSha256))
         && 0 < size <= MAX_PACKAGE && count == ChunkCount(size)
      then Some((size, count)) else None
    case _ => None
  }

  /** The checked content of chunk row number i. */
  function ChunkContent(hash: Digest, row: Option<Row>, i: nat): Result<Bytes> {
    if row.None? || !row.value.data.JObject? then Raised else
      var c := row.value.data;
      if c.fields.Keys != {S("index"), S("payload_b64"), S("sha256")} then Raised
      else if c.fields[S("index")] != JInt(i) || !c.fields[S("payload_b64")].JString? then Raised
      else if |c.fields[S("payload_b64")].s| > (CHUNK_SIZE + 2) / 3 * 4 then Raised
      else
        match Base64.Decode(c.fields[S("payload_b64")].s)
        case Raised => Raised
        case Ok(raw) => if JString(hash(raw)) == c.fields[S("sha256")] then Ok(raw) else Raised
  }

  predicate ReaderWellFormed(r: Reader) {
    && ValidPins(r.pins)
    && (r.phase.AwaitManifest? ==> r.committed.None?)
    && (r.phase.Fetching? ==>
          && r.committed.Some? && Bounds(r.committed.value.data, r.pins).Some?
          && |r.phase.chunks| <= Bounds(r.committed.value.data, r.pins).value.1)
  }

  predicate Reading(r: Reader) { r.phase.AwaitManifest? || r.phase.Fetching? }

  /** The path a reader asks for next. */
  function ReaderPath(r: Reader): Text
    requires ReaderWellFormed(r) && Reading(r)
  {
    if r.phase.Fetching? && |r.phase.chunks| < Bounds(r.committed.value.data, r.pins).value.1
    then ChunkPath(r.prefix, r.pins.packageSha256, |r.phase.chunks|)
    else ManifestPath(r.prefix, r.pins.packageSha256)
  }

  /** The closing checks, once the manifest has been read again. */
  function Conclude(hash: Digest, r: Reader, again: Option<Row>): ReaderPhase
    requires r.phase.Fetching? && ReaderWellFormed(r)
  {
    var raw := Concat(r.phase.chunks);
    if |raw| != Bounds(r.committed.value.data, r.pins).value.0 || again != r.committed then ReadFailed else
      match VerifyDownload(hash, raw, r.pins)
      case Raised => ReadFailed
      case Ok(package) =>
        if Field(package, "manifest") == Field(r.committed.value.data, "manifest")
        then Fetched(package, r.committed.value.version) else ReadFailed
  }

  /** A reader's reaction to the answer it gets for its next path. */
  function ReaderStep(hash: Digest, r: Reader, answer: Option<Row>): (r': Reader)
    requires ReaderWellFormed(r) && Reading(r)
    ensures ReaderWellFormed(r') && r'.prefix == r.prefix && r'.pins == r.pins
  {
    if r.phase.AwaitManifest? then
      if answer.None? then r.(phase := ReadFailed)
      else if Bounds(answer.value.data, r.pins).None? then r.(committed := answer, phase := ReadFailed)
      else r.(committed := answer, phase := Fetching([]))
    else if |r.phase.chunks| < Bounds(r.committed.value.data, r.pins).value.1 then
      match ChunkContent(hash, answer, |r.phase.chunks|)
      case Raised => r.(phase := ReadFailed)
      case Ok(raw) => r.(phase := Fetching(r.phase.chunks + [raw]))
    else r.(phase := Conclude(hash, r, answer))
  }

  /** How many reads a reader has left. */
  function ReadsLeft(r: Reader): int
    requires ReaderWellFormed(r) && r.phase.Fetching?
  {
    Bounds(r.committed.value.data, r.pins).value.1 + 1 - |r.phase.chunks|
  }
}
