/** The exact result of every call of `vault_custody` that nobody interferes with, and of every retrieval. */

module CustodyOutcomes {
  import opened Outcomes
  import opened Json
  import opened JsonProofs
  import opened Package
  import opened Objects
  import opened Custody
  import opened CustodyRuns
  import opened CustodyReaders
  import opened CustodyAlone
  import opened CustodyTheorems

  predicate AllThere(store: Store, objects: seq<Object>) { forall i :: 0 <= i < |objects| ==> objects[i].path in store }

  /** The version of the manifest, when all objects are there. */
  function ManifestVersion(store: Store, objects: seq<Object>): Option<int> {
    if objects != [] && AllThere(store, objects) then Some(store[objects[|objects| - 1].path].version) else None
  }

  /** The dictionary of a call that found or left the store like this. */
  function ResultOn(hash: Digest, p: Publisher, store: Store, changed: bool): CustodyResult {
    CustodyResult(changed, AllThere(store, p.objects), !AllThere(store, p.objects), hash(Canonical(p.package)),
                  ManifestPath(p.prefix, hash(Canonical(p.package))), ManifestVersion(store, p.objects))
  }

  lemma AbsentExactly(store: Store, objects: seq<Object>)
    ensures Absent(Lookups(store, objects, |objects|)) <==> !AllThere(store, objects)
  {
    var rows := Lookups(store, objects, |objects|);
    if !AllThere(store, objects) {
      var i :| 0 <= i < |objects| && objects[i].path !in store;
      assert rows[i].None?;
    }
  }

  /** A call that does not write decides over the rows of its preflight. */
  lemma ReadOnlyAlone(hash: Digest, p: Publisher, store: Store)
    requires p.objects != [] && p.phase == Preflight([]) && PartOf(store, p.objects)
    requires p.operation != Apply || p.checkMode
    ensures var rows := Lookups(store, p.objects, |p.objects|);
            Alone(hash, p, store) ==
              (p.(phase := if Absent(rows) && p.operation == Verify then Failed else Finish(hash, p, rows, false, rows)), store)
  {
    var rows := Lookups(store, p.objects, |p.objects|);
    PreflightAlone(hash, p, store, |p.objects|);
    PreflightContinues(hash, p.(phase := Preflight(rows)), store);
    EndedAlone(hash, p, store, PreflightStep(hash, p.(phase := Preflight(rows)), store));
  }

  lemma EndedAlone(hash: Digest, p: Publisher, store: Store, phase: Phase)
    requires p.objects != [] && (phase.Failed? || phase.Returned?)
    ensures Alone(hash, p.(phase := phase), store) == (p.(phase := phase), store)
  {
  }

  /** The last checks over rows that were just found in the store. */
  lemma FinishesOn(hash: Digest, p: Publisher, store: Store)
    requires LaidOut(hash, p) && PartOf(store, p.objects) && p.objects != []
    ensures var rows := Lookups(store, p.objects, |p.objects|);
            Finish(hash, p, rows, false, rows) == Returned(ResultOn(hash, p, store, false))
  {
    var rows := Lookups(store, p.objects, |p.objects|);
    AbsentExactly(store, p.objects);
    if !Absent(rows) {
      PartAgrees(store, p.objects);
      ExactRowsFinish(hash, p, rows, false, rows);
    }
  }

  lemma PartAgrees(store: Store, objects: seq<Object>)
    requires PartOf(store, objects)
    ensures Agrees(objects, Lookups(store, objects, |objects|))
  {
  }

  lemma HasObjects(hash: Digest, p: Publisher)
    requires LaidOut(hash, p)
    ensures p.objects != []
  {
  }

  // ------------------------------------------------------------- main results

  /**
   * `verify` returns if and only if every object is stored with exactly its value; then it reports it verified,
   * unchanged, with the manifest's version. Otherwise it fails. The store stays as it is.
   */
  lemma VerifyExactly(hash: Digest, p: Publisher, store: Store)
    requires LaidOut(hash, p) && p.phase == Preflight([]) && p.operation == Verify
    ensures Alone(hash, p, store) ==
            (p.(phase := if AllThere(store, p.objects) && PartOf(store, p.objects)
                         then Returned(ResultOn(hash, p, store, false)) else Failed), store)
  {
    HasObjects(hash, p);
    if PartOf(store, p.objects) {
      ReadOnlyAlone(hash, p, store);
      FinishesOn(hash, p, store);
      AbsentExactly(store, p.objects);
    } else {
      ConflictEnds(hash, p, store);
    }
  }

  /**
   * `plan`, and any application in check mode, returns if and only if nothing conflicts: verified when nothing is
   * missing, planned otherwise. The store stays as it is.
   */
  lemma PlanExactly(hash: Digest, p: Publisher, store: Store)
    requires LaidOut(hash, p) && p.phase == Preflight([])
    requires p.operation == Plan || (p.operation == Apply && p.checkMode)
    ensures Alone(hash, p, store) ==
            (p.(phase := if PartOf(store, p.objects) then Returned(ResultOn(hash, p, store, false)) else Failed), store)
  {
    HasObjects(hash, p);
    if PartOf(store, p.objects) {
      ReadOnlyAlone(hash, p, store);
      FinishesOn(hash, p, store);
    } else {
      ConflictEnds(hash, p, store);
    }
  }

  /**
   * `apply` fills the store with what is missing, and returns if and only if nothing conflicts and every created object
   * comes back as it was written.
   */
  lemma ApplyExactly(hash: Digest, p: Publisher, store: Store)
    requires HexDigest(hash) && LaidOut(hash, p) && p.phase == Preflight([]) && p.operation == Apply && !p.checkMode
    ensures var filled := Filled(store, p.objects, |p.objects|);
            Alone(hash, p, store) ==
              if !PartOf(store, p.objects) then (p.(phase := Failed), store)
              else (p.(phase := if MissingTravel(store, p.objects)
                                then Returned(ResultOn(hash, p, filled, !AllThere(store, p.objects))) else Failed), filled)
    ensures AllThere(Filled(store, p.objects, |p.objects|), p.objects)
  {
    HasObjects(hash, p);
    OwnPathsAreDistinct(hash, p);
    FilledAt(store, p.objects, |p.objects|);
    if PartOf(store, p.objects) {
      AppliedResult(hash, p, store);
    } else {
      ConflictEnds(hash, p, store);
    }
  }

  lemma AppliedResult(hash: Digest, p: Publisher, store: Store)
    requires HexDigest(hash) && LaidOut(hash, p) && p.phase == Preflight([]) && p.operation == Apply && !p.checkMode
    requires p.objects != [] && PartOf(store, p.objects) && DistinctPaths(p.objects)
    ensures var filled := Filled(store, p.objects, |p.objects|);
            Alone(hash, p, store) ==
              (p.(phase := if MissingTravel(store, p.objects)
                           then Returned(ResultOn(hash, p, filled, !AllThere(store, p.objects))) else Failed), filled)
  {
    var filled := Filled(store, p.objects, |p.objects|);
    ApplyAlone(hash, p, store);
    FilledEnds(p, store);
    FilledRows(store, p.objects);
    AbsentExactly(store, p.objects);
    AppliedFinish(hash, p, SeenBefore(p, store), SeenAfter(p, store), filled);
  }

  lemma AppliedFinish(hash: Digest, p: Publisher, before: seq<Option<Row>>, rows: seq<Option<Row>>, filled: Store)
    requires LaidOut(hash, p) && p.objects != [] && !Absent(rows) && AllThere(filled, p.objects)
    requires rows == Lookups(filled, p.objects, |p.objects|)
    ensures Finish(hash, p, before, Absent(before), rows) ==
            if Agrees(p.objects, rows) then Returned(ResultOn(hash, p, filled, Absent(before))) else Failed
  {
    if Agrees(p.objects, rows) { ExactRowsFinish(hash, p, before, Absent(before), rows); }
  }

  // -------------------------------------------------------------- retrievals

  /** A reader's first read, of the manifest. */
  lemma FirstRead(hash: Digest, s: System, rid: nat)
    requires HexDigest(hash) && Invariant(hash, s) && rid in s.readers && s.readers[rid].phase.AwaitManifest?
    ensures var r := s.readers[rid];
            var r' := ReadOn(hash, s, rid).readers[rid];
            if ManifestPath(r.prefix, r.pins.packageSha256) in s.store
            then r'.phase == Fetching([]) && r'.committed == Some(s.store[ManifestPath(r.prefix, r.pins.packageSha256)])
                 && r'.pins == r.pins && r'.prefix == r.prefix
            else r'.phase == ReadFailed
  {
    var r := s.readers[rid];
    if ReaderPath(r) in s.store { FoundManifest(hash, s, r); }
  }

  lemma {:induction false} RunOn(hash: Digest, s: System, events: seq<Event>, more: seq<Event>)
    requires AllWellFormed(s)
    ensures Run(hash, s, events + more) == Run(hash, Run(hash, s, events), more)
    decreases |more|
  {
    if more == [] {
      assert events + more == events;
    } else {
      assert (events + more)[..|events + more| - 1] == events + more[..|more| - 1];
      RunOn(hash, s, events, more[..|more| - 1]);
    }
  }

  /**
   * A retrieval succeeds: from its read of the manifest on, a reader that is not crashed returns the published package
   * after one read per chunk and one more, if its pins name the package's source, and fails if they do not.
   */
  lemma Retrieves(hash: Digest, events: seq<Event>, rid: nat, more: seq<Event>) returns (id: nat)
    requires var s := Run(hash, EMPTY, events); rid in s.readers && s.readers[rid].phase == Fetching([])
    requires HexDigest(hash) && Genuine(hash, events + more) && NoCollision(hash, Run(hash, EMPTY, events + more))
    requires CrashReader(rid) !in more
    ensures var s := Run(hash, EMPTY, events + more);
            && rid in s.readers && id in s.publishers
            && var p, r := s.publishers[id], s.readers[rid];
               && ValidPackage(hash, p.package) && p.prefix == r.prefix && hash(Canonical(p.package)) == r.pins.packageSha256
               && (ReadCount(more, rid) > ChunkCount(|Canonical(p.package)|) ==>
                     r.phase == if SameSource(p.package, r.pins) then Fetched(JoinedValue(p.package), 1) else ReadFailed)
  {
    var s := Run(hash, EMPTY, events);
    RunOn(hash, EMPTY, events, more);
    EarlierNoCollision(hash, s, more);
    GenuineParts(hash, events + more, |events|);
    assert (events + more)[..|events|] == events && (events + more)[|events|..] == more;
    RunKeepsInvariant(hash, EMPTY, events);
    ReaderFinishes(hash, s, more, rid);
    StaysCommitted(hash, s, more, rid);
    id := ReaderIsAtomic(hash, events + more, rid);
    LeftToRead(hash, s, rid, Run(hash, EMPTY, events + more), id);
  }

  lemma GenuineParts(hash: Digest, events: seq<Event>, n: nat)
    requires n <= |events| && Genuine(hash, events)
    ensures Genuine(hash, events[..n]) && Genuine(hash, events[n..])
  {
  }

  lemma {:induction false} EarlierNoCollision(hash: Digest, s: System, more: seq<Event>)
    requires AllWellFormed(s) && NoCollision(hash, Run(hash, s, more))
    ensures NoCollision(hash, s) && OnlyAdds(s, Run(hash, s, more))
    decreases |more|
  {
    if more != [] {
      var m := Run(hash, s, more[..|more| - 1]);
      EventOnlyAdds(hash, m, more[|more| - 1]);
      FewerPublishersFewerCollisions(hash, m, Run(hash, s, more));
      EarlierNoCollision(hash, s, more[..|more| - 1]);
      OnlyAddsMore(s, m, Run(hash, s, more));
    }
  }

  lemma OnlyAddsMore(a: System, b: System, c: System)
    requires OnlyAdds(a, b) && OnlyAdds(b, c)
    ensures OnlyAdds(a, c)
  {
  }

  /** What a reader was told first and what it is pinned to stay. */
  lemma {:induction false} StaysCommitted(hash: Digest, s: System, more: seq<Event>, rid: nat)
    requires AllWellFormed(s) && rid in s.readers && s.readers[rid].committed.Some? && !s.readers[rid].phase.AwaitManifest?
    ensures rid in Run(hash, s, more).readers
    ensures var r, r' := s.readers[rid], Run(hash, s, more).readers[rid];
            r'.committed.Some? && r'.pins == r.pins && !r'.phase.AwaitManifest?
    decreases |more|
  {
    if more != [] {
      StaysCommitted(hash, s, more[..|more| - 1], rid);
      EventKeepsCommitted(hash, Run(hash, s, more[..|more| - 1]), more[|more| - 1], rid);
    }
  }

  lemma EventKeepsCommitted(hash: Digest, s: System, e: Event, rid: nat)
    requires AllWellFormed(s) && rid in s.readers && s.readers[rid].committed.Some? && !s.readers[rid].phase.AwaitManifest?
    ensures rid in After(hash, s, e).readers
    ensures var r, r' := s.readers[rid], After(hash, s, e).readers[rid];
            r'.committed.Some? && r'.pins == r.pins && !r'.phase.AwaitManifest?
  {
    if e == Read(rid) {
      if s.readers[rid].phase.Fetching? {
        StepGoesOn(hash, s.readers[rid], Lookup(s.store, ReaderPath(s.readers[rid])));
      }
    } else if e != CrashReader(rid) {
      OthersLeaveReader(hash, s, e, rid);
    }
  }

  /** The chunks a reader has before it are those of every published package with its digest. */
  lemma LeftToRead(hash: Digest, s: System, rid: nat, t: System, id: nat)
    requires HexDigest(hash) && Invariant(hash, s) && rid in s.readers && s.readers[rid].phase == Fetching([])
    requires OnlyAdds(s, t) && NoCollision(hash, t) && id in t.publishers
    requires hash(Canonical(t.publishers[id].package)) == s.readers[rid].pins.packageSha256
    ensures ReadsLeft(s.readers[rid]) == ChunkCount(|Canonical(t.publishers[id].package)|) + 1
  {
    var r := s.readers[rid];
    assert ReaderInvariant(hash, s, r);
    var w :| ReadsFrom(hash, s, r, w);
    assert LaidOut(hash, s.publishers[w]);
    CommittedBounds(hash, s, r, w);
    assert t.publishers[w].package == s.publishers[w].package;
  }
}
