/** The commit invariant and reader atomicity, over every run. */

module CustodyTheorems {
  import opened Outcomes
  import opened Text
  import opened Json
  import opened JsonProofs
  import opened Package
  import opened Objects
  import opened Custody
  import opened CustodyRuns
  import opened CustodyReaders
  import Base64

  ghost predicate Invariant(hash: Digest, s: System) {
    && AllWellFormed(s)
    && AllLaidOut(hash, s)
    && PublishersInvariant(s)
    && forall id :: id in s.readers ==> ReaderInvariant(hash, s, s.readers[id])
  }

  // ------------------------------------------------------- one event at a time

  lemma FewerPublishersFewerCollisions(hash: Digest, s: System, s': System)
    requires OnlyAdds(s, s') && NoCollision(hash, s')
    ensures NoCollision(hash, s)
  {
    forall i, j | i in s.publishers && j in s.publishers
      && hash(Canonical(s.publishers[i].package)) == hash(Canonical(s.publishers[j].package))
      ensures Canonical(s.publishers[i].package) == Canonical(s.publishers[j].package)
    {
      assert s'.publishers[i].package == s.publishers[i].package;
      assert s'.publishers[j].package == s.publishers[j].package;
    }
  }

  lemma NoCollisionsAllAligned(hash: Digest, s: System)
    requires HexDigest(hash) && AllLaidOut(hash, s) && NoCollision(hash, s)
    ensures AllAligned(s)
  {
    forall i, j | i in s.publishers && j in s.publishers ensures Aligned(s.publishers[i], s.publishers[j]) {
      assert LaidOut(hash, s.publishers[i]) && LaidOut(hash, s.publishers[j]);
      NoCollisionAligns(hash, s.publishers[i], s.publishers[j]);
    }
  }

  lemma StartKeepsPublishers(hash: Digest, s: System, id: nat, p: Publisher)
    requires HexDigest(hash) && PublishersInvariant(s) && AllLaidOut(hash, PublisherStarted(s, id, p))
    requires NoCollision(hash, PublisherStarted(s, id, p))
    ensures PublishersInvariant(PublisherStarted(s, id, p))
  {
    var s' := PublisherStarted(s, id, p);
    if s' != s {
      NoCollisionsAllAligned(hash, s');
      forall w | w in s.publishers ensures Aligned(p, s.publishers[w]) {
        assert s'.publishers[w] == s.publishers[w] && s'.publishers[id] == p;
      }
      NewcomerCommits(s, p);
      QuietKeepsInvariant(s, id, p);
    }
  }

  lemma CrashKeepsPublishers(s: System, id: nat)
    requires PublishersInvariant(s)
    ensures PublishersInvariant(PublisherCrashed(s, id))
  {
    if id in s.publishers && Running(s.publishers[id]) {
      var p := s.publishers[id].(phase := Crashed);
      assert Remembers(s.store, s.publishers[id]);
      assert CommitImpliesComplete(s.store, s.publishers[id]) ==> CommitImpliesComplete(s.store, p);
      QuietKeepsInvariant(s, id, p);
    }
  }

  lemma PublishKeepsPublishers(hash: Digest, s: System, id: nat)
    requires HexDigest(hash) && AllWellFormed(s) && PublishersInvariant(s) && AllLaidOut(hash, s) && NoCollision(hash, s)
    ensures PublishersInvariant(Published(hash, s, id))
  {
    NoCollisionsAllAligned(hash, s);
    if id in s.publishers && Running(s.publishers[id]) { StepKeepsInvariant(hash, s, id); }
  }

  lemma EventKeepsPublishers(hash: Digest, s: System, e: Event)
    requires HexDigest(hash) && AllWellFormed(s) && PublishersInvariant(s)
    requires AllLaidOut(hash, s) && AllLaidOut(hash, After(hash, s, e))
    requires NoCollision(hash, s) && NoCollision(hash, After(hash, s, e))
    ensures PublishersInvariant(After(hash, s, e))
  {
    match e
    case StartPublisher(id, p) => StartKeepsPublishers(hash, s, id, p);
    case Publish(id) => PublishKeepsPublishers(hash, s, id);
    case CrashPublisher(id) => CrashKeepsPublishers(s, id);
    case _ =>
      ReadersWriteNothing(hash, s, e);
      SameRowsStayPublished(s, After(hash, s, e));
  }

  lemma ReadersWriteNothing(hash: Digest, s: System, e: Event)
    requires AllWellFormed(s) && (e.StartReader? || e.Read? || e.CrashReader?)
    ensures After(hash, s, e).store == s.store && After(hash, s, e).publishers == s.publishers
  {
  }

  lemma SameRowsStayPublished(s: System, s': System)
    requires PublishersInvariant(s) && s'.store == s.store && s'.publishers == s.publishers
    ensures PublishersInvariant(s')
  {
    forall path | path in s'.store ensures exists id, i :: WrittenBy(s', path, id, i) {
      var id, i :| WrittenBy(s, path, id, i);
      assert WrittenBy(s', path, id, i);
    }
  }

  lemma EventKeepsReaders(hash: Digest, s: System, e: Event)
    requires HexDigest(hash) && Invariant(hash, s)
    ensures forall id :: id in After(hash, s, e).readers ==>
              ReaderInvariant(hash, After(hash, s, e), After(hash, s, e).readers[id])
  {
    var s' := After(hash, s, e);
    EventOnlyAdds(hash, s, e);
    forall id | id in s'.readers ensures ReaderInvariant(hash, s', s'.readers[id]) {
      if id in s.readers {
        if s'.readers[id] == s.readers[id] {
          ReaderUndisturbed(hash, s, s', s.readers[id]);
        } else if e.Read? {
          ReaderKeepsInvariant(hash, s, s.readers[id]);
          ReaderUndisturbed(hash, s, s', s'.readers[id]);
        } else {
          CrashedReader(hash, s, s.readers[id]);
          ReaderUndisturbed(hash, s, s', s'.readers[id]);
        }
      }
    }
  }

  lemma CrashedReader(hash: Digest, s: System, r: Reader)
    requires ReaderInvariant(hash, s, r) && Reading(r)
    ensures ReaderInvariant(hash, s, r.(phase := ReadCrashed))
  {
    if r.committed.Some? {
      var id :| ReadsFrom(hash, s, r, id);
      assert ReadsFrom(hash, s, r.(phase := ReadCrashed), id);
    }
  }

  lemma EventKeepsLaidOut(hash: Digest, s: System, e: Event)
    requires AllWellFormed(s) && AllLaidOut(hash, s)
    requires e.StartPublisher? ==> LaidOut(hash, e.publisher)
    ensures AllLaidOut(hash, After(hash, s, e))
  {
    var s' := After(hash, s, e);
    EventOnlyAdds(hash, s, e);
    forall id | id in s'.publishers ensures LaidOut(hash, s'.publishers[id]) {
      if id in s.publishers {
        SameCallLaidOut(hash, s.publishers[id], s'.publishers[id]);
      } else {
        NewcomerIsStarted(hash, s, e, id);
      }
    }
  }

  lemma SameCallLaidOut(hash: Digest, p: Publisher, p': Publisher)
    requires LaidOut(hash, p) && p' == p.(phase := p'.phase)
    ensures LaidOut(hash, p')
  {
  }

  lemma NewcomerIsStarted(hash: Digest, s: System, e: Event, id: nat)
    requires AllWellFormed(s) && id in After(hash, s, e).publishers && id !in s.publishers
    ensures e.StartPublisher? && After(hash, s, e).publishers[id] == e.publisher
  {
  }

  lemma EventKeepsInvariant(hash: Digest, s: System, e: Event)
    requires HexDigest(hash) && Invariant(hash, s) && NoCollision(hash, After(hash, s, e))
    requires e.StartPublisher? ==> LaidOut(hash, e.publisher)
    ensures Invariant(hash, After(hash, s, e)) && NoCollision(hash, s)
  {
    EventOnlyAdds(hash, s, e);
    FewerPublishersFewerCollisions(hash, s, After(hash, s, e));
    StaysWellFormed(hash, s, e);
    EventKeepsLaidOut(hash, s, e);
    EventKeepsPublishers(hash, s, e);
    EventKeepsReaders(hash, s, e);
  }

  // ----------------------------------------------------------------- whole runs

  /** The invariant holds after any events whatever. */
  lemma {:induction false} RunKeepsInvariant(hash: Digest, s: System, events: seq<Event>)
    requires HexDigest(hash) && Genuine(hash, events) && Invariant(hash, s) && NoCollision(hash, Run(hash, s, events))
    ensures Invariant(hash, Run(hash, s, events)) && NoCollision(hash, s)
    decreases |events|
  {
    if events != [] {
      var before := events[..|events| - 1];
      EventOnlyAdds(hash, Run(hash, s, before), events[|events| - 1]);
      FewerPublishersFewerCollisions(hash, Run(hash, s, before), Run(hash, s, events));
      RunKeepsInvariant(hash, s, before);
      EventKeepsInvariant(hash, Run(hash, s, before), events[|events| - 1]);
    }
  }

  /** No row is ever changed or removed. */
  lemma {:induction false} RunOnlyAdds(hash: Digest, s: System, events: seq<Event>)
    requires AllWellFormed(s)
    ensures Grows(s.store, Run(hash, s, events).store)
    decreases |events|
  {
    if events != [] {
      RunOnlyAdds(hash, s, events[..|events| - 1]);
      EventOnlyAdds(hash, Run(hash, s, events[..|events| - 1]), events[|events| - 1]);
    }
  }

  /** The rows under the first n chunk paths. */
  function ChunkRows(store: Store, prefix: Text, sha: Text, n: nat): seq<Option<Row>> {
    seq(n, i requires 0 <= i < n => Lookup(store, ChunkPath(prefix, sha, i)))
  }

  lemma StoredChunk(hash: Digest, store: Store, p: Publisher, i: nat)
    requires HexDigest(hash) && LaidOut(hash, p) && Complete(store, p) && i < ChunkCount(|Canonical(p.package)|)
    ensures Payload(Lookup(store, ChunkPath(p.prefix, hash(Canonical(p.package)), i))) == Ok(Chunks(Canonical(p.package))[i])
  {
    assert Stored(store, p.objects[i]);
    ChunkPayload(hash, i, Chunks(Canonical(p.package))[i]);
  }

  lemma ChunkPayload(hash: Digest, i: nat, chunk: Bytes)
    requires Hex(hash(chunk), 64)
    ensures Payload(Some(Row(JoinedValue(ChunkValue(hash, i, chunk)), 1))) == Ok(chunk)
  {
    ChunkValueTravels(hash, i, chunk);
    Base64.RoundTrip(chunk);
  }

  /** Commit invariant: in every reachable state a manifest means all its chunks, and together they are the package. */
  lemma ManifestImpliesPackage(hash: Digest, events: seq<Event>, prefix: Text, sha: Text) returns (id: nat)
    requires HexDigest(hash) && Genuine(hash, events) && NoCollision(hash, Run(hash, EMPTY, events)) && Hex(sha, 64)
    requires ManifestPath(prefix, sha) in Run(hash, EMPTY, events).store
    ensures var s := Run(hash, EMPTY, events);
            && id in s.publishers && s.publishers[id].prefix == prefix
            && hash(Canonical(s.publishers[id].package)) == sha
            && Assemble(ChunkRows(s.store, prefix, sha, ChunkCount(|Canonical(s.publishers[id].package)|)))
               == Ok(Canonical(s.publishers[id].package))
  {
    var s := Run(hash, EMPTY, events);
    RunKeepsInvariant(hash, EMPTY, events);
    var w, i :| WrittenBy(s, ManifestPath(prefix, sha), w, i);
    id := w;
    assert LaidOut(hash, s.publishers[id]) && CommitImpliesComplete(s.store, s.publishers[id]);
    ManifestIsOf(hash, s.store, s.publishers[id], i, prefix, sha);
  }

  lemma ManifestIsOf(hash: Digest, store: Store, p: Publisher, i: nat, prefix: Text, sha: Text)
    requires HexDigest(hash) && LaidOut(hash, p) && CommitImpliesComplete(store, p) && Hex(sha, 64) && i < |p.objects|
    requires p.objects[i].path == ManifestPath(prefix, sha) && Stored(store, p.objects[i])
    ensures p.prefix == prefix && hash(Canonical(p.package)) == sha
    ensures Assemble(ChunkRows(store, prefix, sha, ChunkCount(|Canonical(p.package)|))) == Ok(Canonical(p.package))
  {
    ManifestPathNames(hash, p.prefix, p.package, i, prefix, sha);
    CompleteAssembles(hash, store, p);
  }

  lemma CompleteAssembles(hash: Digest, store: Store, p: Publisher)
    requires HexDigest(hash) && LaidOut(hash, p) && Complete(store, p)
    ensures var raw := Canonical(p.package);
            Assemble(ChunkRows(store, p.prefix, hash(raw), ChunkCount(|raw|))) == Ok(raw)
  {
    var raw := Canonical(p.package);
    var n := ChunkCount(|raw|);
    var rows := ChunkRows(store, p.prefix, hash(raw), n);
    forall i | 0 <= i < n ensures Payload(rows[i]) == Ok(Chunks(raw)[i]) { StoredChunk(hash, store, p, i); }
    ChunksAssemble(raw, rows, n);
    assert rows[..n] == rows;
  }

  /** A `verified` result means every object of the package is in the store, then and ever after. */
  lemma VerifiedIsStored(hash: Digest, events: seq<Event>, more: seq<Event>, id: nat)
    requires HexDigest(hash) && Genuine(hash, events) && NoCollision(hash, Run(hash, EMPTY, events))
    requires var s := Run(hash, EMPTY, events);
             id in s.publishers && s.publishers[id].phase.Returned? && s.publishers[id].phase.result.verified
    ensures Complete(Run(hash, Run(hash, EMPTY, events), more).store, Run(hash, EMPTY, events).publishers[id])
  {
    var s := Run(hash, EMPTY, events);
    RunKeepsInvariant(hash, EMPTY, events);
    assert Remembers(s.store, s.publishers[id]);
    RunOnlyAdds(hash, s, more);
  }

  /**
   * Reader atomicity, safety: once a reader has read a manifest, the package behind it was published under the
   * reader's prefix and pinned digest; the reader returns only that package, and gives up only over its source pins.
   */
  lemma ReaderIsAtomic(hash: Digest, events: seq<Event>, rid: nat) returns (id: nat)
    requires HexDigest(hash) && Genuine(hash, events) && NoCollision(hash, Run(hash, EMPTY, events))
    requires var s := Run(hash, EMPTY, events); rid in s.readers && s.readers[rid].committed.Some?
    ensures var s := Run(hash, EMPTY, events);
            && id in s.publishers
            && var p, r := s.publishers[id], s.readers[rid];
               && ValidPackage(hash, p.package) && p.prefix == r.prefix
               && hash(Canonical(p.package)) == r.pins.packageSha256
               && (r.phase.Fetched? ==>
                     r.phase.package == JoinedValue(p.package) && r.phase.version == 1 && SameSource(p.package, r.pins))
               && (r.phase.ReadFailed? ==> !SameSource(p.package, r.pins))
  {
    var s := Run(hash, EMPTY, events);
    RunKeepsInvariant(hash, EMPTY, events);
    assert ReaderInvariant(hash, s, s.readers[rid]);
    id :| ReadsFrom(hash, s, s.readers[rid], id);
    assert LaidOut(hash, s.publishers[id]);
  }

  function ReadCount(events: seq<Event>, rid: nat): nat {
    if events == [] then 0
    else ReadCount(events[..|events| - 1], rid) + if events[|events| - 1] == Read(rid) then 1 else 0
  }

  /**
   * Reader atomicity, success: whatever else happens meanwhile, a reader past the manifest that is not
   * crashed is done after exactly one read per chunk and one more.
   */
  lemma {:induction false} ReaderFinishes(hash: Digest, s: System, events: seq<Event>, rid: nat)
    requires HexDigest(hash) && Genuine(hash, events) && Invariant(hash, s) && NoCollision(hash, Run(hash, s, events))
    requires rid in s.readers && s.readers[rid].phase.Fetching? && CrashReader(rid) !in events
    ensures rid in Run(hash, s, events).readers
    ensures var r, r' := s.readers[rid], Run(hash, s, events).readers[rid];
            if ReadCount(events, rid) < ReadsLeft(r)
            then r'.phase.Fetching? && r'.committed == r.committed
                 && ReadsLeft(r') == ReadsLeft(r) - ReadCount(events, rid)
            else r'.phase.Fetched? || r'.phase.ReadFailed?
    decreases |events|
  {
    if events != [] {
      var before, e := events[..|events| - 1], events[|events| - 1];
      var m := Run(hash, s, before);
      EventOnlyAdds(hash, m, e);
      FewerPublishersFewerCollisions(hash, m, Run(hash, s, events));
      ReaderFinishes(hash, s, before, rid);
      RunKeepsInvariant(hash, s, before);
      ReaderAfter(hash, m, e, rid);
    }
  }

  /** What one event does to a reader that is past the manifest, or done. */
  lemma ReaderAfter(hash: Digest, m: System, e: Event, rid: nat)
    requires HexDigest(hash) && Invariant(hash, m) && rid in m.readers && e != CrashReader(rid)
    requires !m.readers[rid].phase.AwaitManifest?
    ensures rid in After(hash, m, e).readers
    ensures var r, r' := m.readers[rid], After(hash, m, e).readers[rid];
            if e != Read(rid) || !r.phase.Fetching? then r' == r
            else if ReadsLeft(r) > 1
            then r'.phase.Fetching? && r'.committed == r.committed && ReadsLeft(r') == ReadsLeft(r) - 1
            else r'.phase.Fetched? || r'.phase.ReadFailed?
  {
    if e == Read(rid) && m.readers[rid].phase.Fetching? {
      FetchingReads(hash, m, rid);
    } else {
      OthersLeaveReader(hash, m, e, rid);
    }
  }

  lemma FetchingReads(hash: Digest, m: System, rid: nat)
    requires HexDigest(hash) && Invariant(hash, m) && rid in m.readers && m.readers[rid].phase.Fetching?
    ensures var r, r' := m.readers[rid], ReadOn(hash, m, rid).readers[rid];
            if ReadsLeft(r) > 1 then r'.phase.Fetching? && r'.committed == r.committed && ReadsLeft(r') == ReadsLeft(r) - 1
            else r'.phase.Fetched? || r'.phase.ReadFailed?
  {
    var r := m.readers[rid];
    assert ReaderInvariant(hash, m, r);
    var id :| ReadsFrom(hash, m, r, id);
    assert LaidOut(hash, m.publishers[id]);
    FetchingContinues(hash, m, r, id);
    StepGoesOn(hash, r, Lookup(m.store, ReaderPath(r)));
  }

  lemma StepGoesOn(hash: Digest, r: Reader, answer: Option<Row>)
    requires ReaderWellFormed(r) && r.phase.Fetching?
    ensures var phase := ReaderStep(hash, r, answer).phase; phase.Fetching? || phase.Fetched? || phase.ReadFailed?
  {
  }

  lemma OthersLeaveReader(hash: Digest, m: System, e: Event, rid: nat)
    requires AllWellFormed(m) && rid in m.readers && e != CrashReader(rid)
    requires e == Read(rid) ==> !Reading(m.readers[rid])
    ensures rid in After(hash, m, e).readers && After(hash, m, e).readers[rid] == m.readers[rid]
  {
  }

  /** Whatever a reader is told, it returns only a valid package with the pinned digest and source. */
  lemma {:induction false} AnyAnswersArePinned(hash: Digest, r: Reader, answers: seq<Option<Row>>)
    requires ReaderWellFormed(r) && Reading(r)
    ensures var r' := Told(hash, r, answers);
            r'.phase.Fetched? ==>
              && ValidPackage(hash, r'.phase.package)
              && hash(Canonical(r'.phase.package)) == r.pins.packageSha256
              && SameSource(r'.phase.package, r.pins)
    decreases |answers|
  {
    if answers != [] {
      var r' := ReaderStep(hash, r, answers[0]);
      if Reading(r') {
        AnyAnswersArePinned(hash, r', answers[1..]);
      } else if r'.phase.Fetched? {
        DownloadIsPinned(hash, Concat(r.phase.chunks), r.pins);
        assert Told(hash, r', answers[1..]) == r';
      }
    }
  }

  /** A reader fed with answers until it is done. */
  function Told(hash: Digest, r: Reader, answers: seq<Option<Row>>): (r': Reader)
    requires ReaderWellFormed(r)
    ensures ReaderWellFormed(r') && r'.pins == r.pins
    decreases |answers|
  {
    if answers == [] || !Reading(r) then r else Told(hash, ReaderStep(hash, r, answers[0]), answers[1..])
  }
}
