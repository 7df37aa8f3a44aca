/** `vault_custody` and `vault_read_custody` as the loops they are, against a store client. */

module CustodyClient {
  import opened Outcomes
  import opened Text
  import opened Json
  import opened JsonProofs
  import opened Package
  import opened Objects
  import opened Custody
  import opened CustodyRuns
  import opened CustodyAlone
  import opened CustodyTheorems
  import opened CustodyOutcomes

  /** The create-only store, with a log of the paths created in it. */
  class VaultClient {
    var store: Store
    ghost var created: seq<Text>

    constructor ()
      ensures store == map[] && created == []
    {
      store := map[];
      created := [];
    }

    method Read(path: Text) returns (row: Option<Row>)
      ensures row == Lookup(store, path)
    {
      row := if path in store then Some(store[path]) else None;
    }

    method Create(path: Text, value: Json) returns (r: Result<()>)
      modifies this
      ensures match Created(old(store), path, value)
              case None => r.Raised? && store == old(store) && created == old(created)
              case Some(after) => r == Ok(()) && store == after && created == old(created) + [path]
    {
      if path in store { return Raised; }
      store := store[path := Row(JoinedValue(value), 1)];
      created := created + [path];
      return Ok(());
    }
  }

  /** `[A-Za-z0-9][A-Za-z0-9._/-]{0,511}` without empty, `.` or `..` segments. */
  predicate SafePath(path: Text) {
    && 1 <= |path| <= 512 && Alphanumeric(path[0])
    && (forall i :: 0 <= i < |path| ==>
          Alphanumeric(path[i]) || path[i] == 46 || path[i] == 95 || path[i] == 45 || path[i] == SLASH)
    && SafeSegments(path)
  }

  /** No segment of path between slashes is empty, `.` or `..`. */
  predicate SafeSegments(path: Text) {
    forall i, j :: 0 <= i <= j <= |path| && IsSegment(path, i, j) ==>
      path[i..j] != [] && path[i..j] != [46] && path[i..j] != [46, 46]
  }

  predicate IsSegment(path: Text, i: nat, j: nat)
    requires i <= j <= |path|
  {
    && (i == 0 || path[i - 1] == SLASH) && (j == |path| || path[j] == SLASH)
    && SLASH !in path[i..j]
  }

  /** The list the call builds first: one object per chunk, then the manifest. */
  method LayOut(hash: Digest, prefix: Text, package: Json) returns (objects: seq<Object>)
    requires ValidPackage(hash, package)
    ensures objects == ObjectsOf(hash, prefix, package)
  {
    var raw := Canonical(package);
    var sha := hash(raw);
    var chunks := Chunks(raw);
    objects := [];
    for index := 0 to |chunks|
      invariant |objects| == index && forall i :: 0 <= i < index ==> objects[i] == ObjectAt(hash, prefix, package, i)
    {
      ObjectIs(hash, prefix, package, index);
      objects := objects + [Object(ChunkPath(prefix, sha, index), ChunkValue(hash, index, chunks[index]))];
    }
    ObjectIs(hash, prefix, package, |chunks|);
    objects := objects + [Object(ManifestPath(prefix, sha), CommitRecord(hash, raw, package.fields[S("manifest")]))];
  }

  lemma ObjectIs(hash: Digest, prefix: Text, package: Json, i: nat)
    requires ValidPackage(hash, package) && i < ObjectCount(package)
    ensures S("manifest") in package.fields
    ensures ObjectAt(hash, prefix, package, i) ==
            var raw := Canonical(package);
            if i < |Chunks(raw)| then Object(ChunkPath(prefix, hash(raw), i), ChunkValue(hash, i, Chunks(raw)[i]))
            else Object(ManifestPath(prefix, hash(raw)), CommitRecord(hash, raw, package.fields[S("manifest")]))
  {
    PackageShape(hash, package);
  }

  /** What a finished call hands back. */
  function Outcome(p: Publisher): Result<CustodyResult> {
    if p.phase.Returned? then Ok(p.phase.result) else Raised
  }

  /** The decoded payloads of rows that were just found exact. */
  method Join(rows: seq<Option<Row>>) returns (r: Result<Bytes>)
    ensures r == Assemble(rows)
  {
    var assembled: Bytes := [];
    for i := 0 to |rows|
      invariant Assemble(rows[..i]) == Ok(assembled)
    {
      assert rows[..i + 1][..i] == rows[..i];
      match Payload(rows[i])
      case Raised =>
        RaisedStays(rows, i + 1);
        return Raised;
      case Ok(payload) => assembled := assembled + payload;
    }
    assert rows[..|rows|] == rows;
    return Ok(assembled);
  }

  lemma {:induction false} RaisedStays(rows: seq<Option<Row>>, n: nat)
    requires n <= |rows| && Assemble(rows[..n]).Raised?
    ensures Assemble(rows).Raised?
    decreases |rows| - n
  {
    if n < |rows| {
      assert rows[..n + 1][..n] == rows[..n];
      RaisedStays(rows, n + 1);
    } else {
      assert rows[..n] == rows;
    }
  }

  /** The closing checks over the rows that were verified, and the result they allow. */
  method Concluded(hash: Digest, p: Publisher, observed: seq<Option<Row>>, changed: bool, verified: seq<Option<Row>>)
    returns (r: Result<CustodyResult>)
    requires |verified| == |p.objects| != 0
    ensures r == Outcome(p.(phase := Finish(hash, p, observed, changed, verified)))
  {
    var raw := Canonical(p.package);
    var complete := !Absent(verified);
    if complete {
      if !Agrees(p.objects, verified) { return Raised; }
      var assembled := Join(verified[..|verified| - 1]);
      if assembled.Raised? || DecodePackage(hash, assembled.value, raw).Raised? { return Raised; }
    }
    return Ok(CustodyResult(changed, complete, Absent(observed) && !changed, hash(raw), ManifestPath(p.prefix, hash(raw)),
                            if complete then Some(verified[|verified| - 1].value.version) else None));
  }

  /** Read every object before anything is written; a conflicting row ends the call. */
  method Observed(client: VaultClient, objects: seq<Object>) returns (r: Result<seq<Option<Row>>>)
    ensures r == if PartOf(client.store, objects) then Ok(Lookups(client.store, objects, |objects|)) else Raised
  {
    var observed: seq<Option<Row>> := [];
    for i := 0 to |objects|
      invariant observed == Lookups(client.store, objects, i)
      invariant forall k :: 0 <= k < i && objects[k].path in client.store ==>
                  client.store[objects[k].path].data == objects[k].value
    {
      var current := client.Read(objects[i].path);
      if current.Some? && current.value.data != objects[i].value { return Raised; }
      observed := observed + [current];
    }
    return Ok(observed);
  }

  /**
   * Creating, from object i on, what was not observed: whether anything was created, unless a path was taken, and the
   * store in either case.
   */
  function Creations(objects: seq<Object>, observed: seq<Option<Row>>, i: nat, changed: bool, store: Store)
    : (Option<bool>, Store)
    requires i <= |objects| == |observed|
    decreases |objects| - i
  {
    if i == |objects| then (Some(changed), store)
    else if observed[i].Some? then Creations(objects, observed, i + 1, changed, store)
    else
      match Created(store, objects[i].path, objects[i].value)
      case None => (None, store)
      case Some(store') => Creations(objects, observed, i + 1, true, store')
  }

  /** A call that creates ends as its creations do. */
  lemma {:induction false} CreationsAlone(hash: Digest, call: Publisher, observed: seq<Option<Row>>, i: nat, changed: bool, store: Store)
    requires i <= |call.objects| == |observed| && call.objects != [] && Agrees(call.objects, observed)
    requires call.operation == Apply && !call.checkMode
    ensures var (made, store') := Creations(call.objects, observed, i, changed, store);
            Alone(hash, call.(phase := Creating(observed, i, changed)), store) ==
              if made.None? then (call.(phase := Failed), store')
              else Alone(hash, call.(phase := Readback(observed, made.value, [])), store')
    decreases |call.objects| - i
  {
    var c := call.(phase := Creating(observed, i, changed));
    CreatingContinues(hash, c, store);
    if i < |call.objects| {
      var store' := CreatingStep(c, store).1;
      if observed[i].Some? {
        CreationsAlone(hash, call, observed, i + 1, changed, store);
      } else if call.objects[i].path !in store {
        CreationsAlone(hash, call, observed, i + 1, true, store');
      }
    }
  }

  lemma MissingNext(store: Store, objects: seq<Object>, i: nat)
    requires i < |objects|
    ensures Missing(store, objects, i + 1)
         == Missing(store, objects, i) + if objects[i].path in store then [] else [objects[i].path]
  {
  }

  /** Create what the preflight did not see, the manifest last; a lost race ends the call. */
  method CreateMissing(client: VaultClient, objects: seq<Object>, observed: seq<Option<Row>>) returns (r: Option<bool>)
    requires observed == Lookups(client.store, objects, |objects|)
    modifies client
    ensures (r, client.store) == Creations(objects, observed, 0, false, old(client.store))
    ensures r.Some? ==> client.created == old(client.created) + Missing(old(client.store), objects, |objects|)
  {
    var changed := false;
    ghost var before := client.store;
    for i := 0 to |objects|
      invariant client.created == old(client.created) + Missing(before, objects, i)
      invariant Creations(objects, observed, 0, false, before) == Creations(objects, observed, i, changed, client.store)
    {
      MissingNext(before, objects, i);
      if observed[i].None? {
        var made := client.Create(objects[i].path, objects[i].value);
        if made.Raised? { return None; }
        changed := true;
      }
    }
    r := Some(changed);
  }

  /** Read every object again. */
  method ReadBack(client: VaultClient, objects: seq<Object>) returns (verified: seq<Option<Row>>)
    ensures verified == Lookups(client.store, objects, |objects|)
  {
    verified := [];
    for i := 0 to |objects|
      invariant verified == Lookups(client.store, objects, i)
    {
      var row := client.Read(objects[i].path);
      verified := verified + [row];
    }
  }

  /** What a call that succeeds writes to store, in order. */
  function Written(call: Publisher, store: Store): seq<Text> {
    if call.operation == Apply && !call.checkMode then Missing(store, call.objects, |call.objects|) else []
  }

  /** Preflight every object; create only what is missing, the manifest last; read everything back. */
  method VaultCustody(client: VaultClient, hash: Digest, prefix: Text, package: Json, operation: Operation,
                      checkMode: bool)
    returns (r: Result<CustodyResult>)
    modifies client
    ensures !SafePath(prefix) || !ValidPackage(hash, package) ==>
              r.Raised? && client.store == old(client.store) && client.created == old(client.created)
    ensures SafePath(prefix) && ValidPackage(hash, package) ==>
              var call := Called(hash, prefix, package, operation, checkMode);
              var (p, store) := Alone(hash, call, old(client.store));
              && r == Outcome(p) && client.store == store
              && (r.Ok? ==> client.created == old(client.created) + Written(call, old(client.store)))
    ensures SafePath(prefix) && ValidPackage(hash, package) && operation == Verify ==>
              var call := Called(hash, prefix, package, operation, checkMode);
              r == if AllThere(old(client.store), call.objects) && PartOf(old(client.store), call.objects)
                   then Ok(ResultOn(hash, call, old(client.store), false)) else Raised
    ensures SafePath(prefix) && ValidPackage(hash, package) && (operation == Plan || (operation == Apply && checkMode)) ==>
              var call := Called(hash, prefix, package, operation, checkMode);
              r == if PartOf(old(client.store), call.objects)
                   then Ok(ResultOn(hash, call, old(client.store), false)) else Raised
    ensures SafePath(prefix) && ValidPackage(hash, package) && operation == Apply && !checkMode && HexDigest(hash) ==>
              var call := Called(hash, prefix, package, operation, checkMode);
              r == if PartOf(old(client.store), call.objects) && MissingTravel(old(client.store), call.objects)
                   then Ok(ResultOn(hash, call, client.store, !AllThere(old(client.store), call.objects))) else Raised
  {
    ghost var before := client.store;
    r := Call(client, hash, prefix, package, operation, checkMode);
    if SafePath(prefix) && ValidPackage(hash, package) {
      EndsAs(hash, Called(hash, prefix, package, operation, checkMode), before);
    }
  }

  /** How every call alone ends. */
  lemma EndsAs(hash: Digest, call: Publisher, store: Store)
    requires LaidOut(hash, call) && call.phase == Preflight([])
    ensures WellFormed(call)
    ensures call.operation == Verify ==>
              Outcome(Alone(hash, call, store).0) ==
              if AllThere(store, call.objects) && PartOf(store, call.objects) then Ok(ResultOn(hash, call, store, false)) else Raised
    ensures call.operation == Plan || (call.operation == Apply && call.checkMode) ==>
              Outcome(Alone(hash, call, store).0) ==
              if PartOf(store, call.objects) then Ok(ResultOn(hash, call, store, false)) else Raised
    ensures call.operation == Apply && !call.checkMode && HexDigest(hash) ==>
              var (p, after) := Alone(hash, call, store);
              Outcome(p) ==
              if PartOf(store, call.objects) && MissingTravel(store, call.objects)
              then Ok(ResultOn(hash, call, after, !AllThere(store, call.objects))) else Raised
  {
    HasObjects(hash, call);
    if call.operation == Verify {
      VerifyExactly(hash, call, store);
    } else if call.operation == Plan || call.checkMode {
      PlanExactly(hash, call, store);
    } else if HexDigest(hash) {
      ApplyExactly(hash, call, store);
    }
  }

  /** The call without its meaning: it follows the process. */
  method Call(client: VaultClient, hash: Digest, prefix: Text, package: Json, operation: Operation, checkMode: bool)
    returns (r: Result<CustodyResult>)
    modifies client
    ensures !SafePath(prefix) || !ValidPackage(hash, package) ==>
              r.Raised? && client.store == old(client.store) && client.created == old(client.created)
    ensures SafePath(prefix) && ValidPackage(hash, package) ==>
              var call := Called(hash, prefix, package, operation, checkMode);
              var (p, store) := Alone(hash, call, old(client.store));
              && r == Outcome(p) && client.store == store
              && (r.Ok? ==> client.created == old(client.created) + Written(call, old(client.store)))
  {
    if !SafePath(prefix) || !ValidPackage(hash, package) { return Raised; }
    var objects := LayOut(hash, prefix, package);
    var call := Publisher(prefix, package, operation, checkMode, objects, Preflight([]));
    var preflight := Observed(client, objects);
    if preflight.Raised? {
      ConflictEnds(hash, call, client.store);
      return Raised;
    }
    var observed := preflight.value;
    PreflightAlone(hash, call, client.store, |objects|);
    r := Proceed(client, hash, call, preflight.value);
  }

  /** What follows a preflight that found no conflict. */
  method Proceed(client: VaultClient, hash: Digest, call: Publisher, observed: seq<Option<Row>>)
    returns (r: Result<CustodyResult>)
    requires call.objects != [] && Agrees(call.objects, observed)
    requires observed == Lookups(client.store, call.objects, |call.objects|)
    modifies client
    ensures var (p, store) := Alone(hash, call.(phase := Preflight(observed)), old(client.store));
            r == Outcome(p) && client.store == store
    ensures r.Ok? ==> client.created == old(client.created) + Written(call, old(client.store))
  {
    PreflightContinues(hash, call.(phase := Preflight(observed)), client.store);
    if Absent(observed) && call.operation == Verify { return Raised; }
    if call.operation == Apply && !call.checkMode {
      r := ApplyObserved(client, hash, call, observed);
    } else {
      r := Concluded(hash, call, observed, false, observed);
    }
  }

  /** The creating branch: create what is missing, read everything back, check it. */
  method ApplyObserved(client: VaultClient, hash: Digest, call: Publisher, observed: seq<Option<Row>>)
    returns (r: Result<CustodyResult>)
    requires call.operation == Apply && !call.checkMode && call.objects != [] && Agrees(call.objects, observed)
    requires observed == Lookups(client.store, call.objects, |call.objects|)
    modifies client
    ensures var (p, store) := Alone(hash, call.(phase := Creating(observed, 0, false)), old(client.store));
            r == Outcome(p) && client.store == store
    ensures r.Ok? ==> client.created == old(client.created) + Missing(old(client.store), call.objects, |call.objects|)
  {
    CreationsAlone(hash, call, observed, 0, false, client.store);
    var made := CreateMissing(client, call.objects, observed);
    if made.None? { return Raised; }
    var verified := ReadBack(client, call.objects);
    ReadbackAlone(hash, call, observed, made.value, client.store, |call.objects|);
    FinishAlone(hash, call, observed, made.value, client.store);
    r := Concluded(hash, call, observed, made.value, verified);
  }

  /** A client whose answers are whatever the other side chooses, kept in a log. */
  class ReadClient {
    ghost var answers: seq<Option<Row>>

    constructor ()
      ensures answers == []
    {
      answers := [];
    }

    method Read(path: Text) returns (row: Option<Row>)
      modifies this
      ensures answers == old(answers) + [row]
    {
      row := *;
      answers := answers + [row];
    }
  }

  datatype ReadResult = ReadResult(package: Json, packageSha256: Text, manifestPath: Text, manifestVersion: int)

  /** The answers received since there were n of them. */
  ghost function Since(client: ReadClient, n: nat): seq<Option<Row>>
    reads client
  {
    if n <= |client.answers| then client.answers[n..] else []
  }

  function Retriever(prefix: Text, pins: Pins): Reader { Reader(prefix, pins, None, AwaitManifest) }

  lemma {:induction false} ToldMore(hash: Digest, r: Reader, answers: seq<Option<Row>>, answer: Option<Row>)
    requires ReaderWellFormed(r) && Reading(Told(hash, r, answers))
    ensures Told(hash, r, answers + [answer]) == ReaderStep(hash, Told(hash, r, answers), answer)
    decreases |answers|
  {
    if answers == [] {
      assert Told(hash, ReaderStep(hash, r, answer), []) == ReaderStep(hash, r, answer);
    } else {
      assert (answers + [answer])[1..] == answers[1..] + [answer];
      ToldMore(hash, ReaderStep(hash, r, answers[0]), answers[1..], answer);
    }
  }

  /** Reassemble one committed package: manifest, every chunk, manifest again. */
  method VaultReadCustody(client: ReadClient, hash: Digest, prefix: Text, pins: Pins) returns (r: Result<ReadResult>)
    modifies client
    ensures !ValidPins(pins) || !SafePath(prefix) ==> r.Raised? && client.answers == old(client.answers)
    ensures ValidPins(pins) && SafePath(prefix) ==>
              && |old(client.answers)| <= |client.answers|
              && var end := Told(hash, Retriever(prefix, pins), Since(client, |old(client.answers)|));
                 && !Reading(end)
                 && r == if end.phase.Fetched?
                         then Ok(ReadResult(end.phase.package, pins.packageSha256,
                                            ManifestPath(prefix, pins.packageSha256), end.phase.version))
                         else Raised
  {
    if !ValidPins(pins) || !SafePath(prefix) { return Raised; }
    ghost var start := |client.answers|;
    var r0 := Retriever(prefix, pins);
    assert Since(client, start) == [];
    var manifest := client.Read(ManifestPath(prefix, pins.packageSha256));
    assert Since(client, start) == [manifest];
    ToldMore(hash, r0, [], manifest);
    assert [] + [manifest] == [manifest];
    if manifest.None? { return Raised; }
    var bounds := Bounds(manifest.value.data, pins);
    if bounds.None? { return Raised; }
    var reader := r0.(committed := manifest, phase := Fetching([]));
    var chunks := FetchChunks(client, hash, r0, start, reader, bounds.value.1);
    if chunks.None? { return Raised; }
    ghost var heard := Since(client, start);
    var again := client.Read(ManifestPath(prefix, pins.packageSha256));
    assert Since(client, start) == heard + [again];
    ToldMore(hash, r0, heard, again);
    r := Closed(hash, reader.(phase := Fetching(chunks.value)), bounds.value.0, again);
  }

  /** Every chunk in turn, until one is not acceptable. */
  method FetchChunks(client: ReadClient, hash: Digest, ghost r0: Reader, ghost start: nat, reader: Reader, count: nat)
    returns (chunks: Option<seq<Bytes>>)
    requires ReaderWellFormed(r0) && start <= |client.answers| && Told(hash, r0, Since(client, start)) == reader
    requires ReaderWellFormed(reader) && reader.phase == Fetching([])
    requires Bounds(reader.committed.value.data, reader.pins).value.1 == count
    modifies client
    ensures start <= |client.answers| && client.answers[..start] == old(client.answers[..start])
    ensures Told(hash, r0, Since(client, start)) ==
            reader.(phase := if chunks.None? then ReadFailed else Fetching(chunks.value))
    ensures chunks.Some? ==> |chunks.value| == count
  {
    var read: seq<Bytes> := [];
    for index := 0 to count
      invariant start <= |client.answers| && client.answers[..start] == old(client.answers[..start])
      invariant Told(hash, r0, Since(client, start)) == reader.(phase := Fetching(read))
      invariant |read| == index
    {
      ghost var heard := Since(client, start);
      var row := client.Read(ChunkPath(reader.prefix, reader.pins.packageSha256, index));
      assert Since(client, start) == heard + [row];
      ToldMore(hash, r0, heard, row);
      match ChunkContent(hash, row, index)
      case Raised => return None;
      case Ok(raw) => read := read + [raw];
    }
    chunks := Some(read);
  }

  /** The closing checks, for a reader with all chunks. */
  method Closed(hash: Digest, reader: Reader, size: nat, again: Option<Row>) returns (r: Result<ReadResult>)
    requires ReaderWellFormed(reader) && reader.phase.Fetching?
    requires Bounds(reader.committed.value.data, reader.pins) == Some((size, |reader.phase.chunks|))
    ensures var end := ReaderStep(hash, reader, again);
            && !Reading(end)
            && r == if end.phase.Fetched?
                    then Ok(ReadResult(end.phase.package, reader.pins.packageSha256,
                                       ManifestPath(reader.prefix, reader.pins.packageSha256), end.phase.version))
                    else Raised
  {
    var raw := Concat(reader.phase.chunks);
    if |raw| != size || again != reader.committed { return Raised; }
    match VerifyDownload(hash, raw, reader.pins)
    case Raised => return Raised;
    case Ok(package) =>
      if Field(package, "manifest") != Field(reader.committed.value.data, "manifest") { return Raised; }
      return Ok(ReadResult(package, reader.pins.packageSha256,
                           ManifestPath(reader.prefix, reader.pins.packageSha256), reader.committed.value.version));
  }
}
