/** Any number of publishers and readers on one create-only store, interleaved, crashing and restarted at will. */

module CustodyRuns {
  import opened Outcomes
  import opened Text
  import opened Json
  import opened JsonProofs
  import opened Package
  import opened Objects
  import opened Custody

  datatype System = System(store: Store, publishers: map<nat, Publisher>, readers: map<nat, Reader>)

  const EMPTY: System := System(map[], map[], map[])

  /** A restart is a start under a new number; a lost or refused request is a crash. */
  datatype Event =
    | StartPublisher(id: nat, publisher: Publisher)
    | StartReader(id: nat, reader: Reader)
    | Publish(id: nat)
    | Read(id: nat)
    | CrashPublisher(id: nat)
    | CrashReader(id: nat)

  predicate AllWellFormed(s: System) {
    && (forall id :: id in s.publishers ==> WellFormed(s.publishers[id]))
    && (forall id :: id in s.readers ==> ReaderWellFormed(s.readers[id]))
  }

  function PublisherStarted(s: System, id: nat, p: Publisher): System {
    if id !in s.publishers && p.objects != [] && p.phase == Preflight([])
    then s.(publishers := s.publishers[id := p]) else s
  }

  function ReaderStarted(s: System, id: nat, r: Reader): System {
    if id !in s.readers && ValidPins(r.pins) && r.committed.None? && r.phase == AwaitManifest
    then s.(readers := s.readers[id := r]) else s
  }

  function Published(hash: Digest, s: System, id: nat): System
    requires AllWellFormed(s)
  {
    if id in s.publishers && Running(s.publishers[id]) then
      var (p, store) := PublisherStep(hash, s.publishers[id], s.store);
      s.(publishers := s.publishers[id := p], store := store)
    else s
  }

  function ReadOn(hash: Digest, s: System, id: nat): System
    requires AllWellFormed(s)
  {
    if id in s.readers && Reading(s.readers[id]) then
      var r := s.readers[id];
      s.(readers := s.readers[id := ReaderStep(hash, r, Lookup(s.store, ReaderPath(r)))])
    else s
  }

  function PublisherCrashed(s: System, id: nat): System {
    if id in s.publishers && Running(s.publishers[id])
    then s.(publishers := s.publishers[id := s.publishers[id].(phase := Crashed)]) else s
  }

  function ReaderCrashed(s: System, id: nat): System {
    if id in s.readers && Reading(s.readers[id])
    then s.(readers := s.readers[id := s.readers[id].(phase := ReadCrashed)]) else s
  }

  /** The state after an event; an event that cannot happen changes nothing. */
  function After(hash: Digest, s: System, e: Event): System
    requires AllWellFormed(s)
  {
    match e
    case StartPublisher(id, p) => PublisherStarted(s, id, p)
    case StartReader(id, r) => ReaderStarted(s, id, r)
    case Publish(id) => Published(hash, s, id)
    case Read(id) => ReadOn(hash, s, id)
    case CrashPublisher(id) => PublisherCrashed(s, id)
    case CrashReader(id) => ReaderCrashed(s, id)
  }

  predicate Grows(store: Store, store': Store) {
    forall path :: path in store ==> path in store' && store'[path] == store[path]
  }

  /** A step keeps the call's parameters and every row. */
  lemma StepOnlyAdds(hash: Digest, p: Publisher, store: Store)
    requires WellFormed(p) && Running(p)
    ensures var (p', store') := PublisherStep(hash, p, store);
            p' == p.(phase := p'.phase) && Grows(store, store')
  {
  }

  /** s' has the calls and the rows of s, and perhaps more. */
  predicate OnlyAdds(s: System, s': System) {
    && Grows(s.store, s'.store)
    && forall id :: id in s.publishers ==>
         id in s'.publishers && s'.publishers[id] == s.publishers[id].(phase := s'.publishers[id].phase)
  }

  lemma PublishedOnlyAdds(hash: Digest, s: System, id: nat)
    requires AllWellFormed(s)
    ensures OnlyAdds(s, Published(hash, s, id)) && AllWellFormed(Published(hash, s, id))
  {
    if id in s.publishers && Running(s.publishers[id]) { StepOnlyAdds(hash, s.publishers[id], s.store); }
  }

  lemma EventOnlyAdds(hash: Digest, s: System, e: Event)
    requires AllWellFormed(s)
    ensures OnlyAdds(s, After(hash, s, e))
  {
    match e
    case Publish(id) => PublishedOnlyAdds(hash, s, id);
    case Read(id) =>
    case StartPublisher(id, p) =>
    case _ =>
  }

  lemma StaysWellFormed(hash: Digest, s: System, e: Event)
    requires AllWellFormed(s)
    ensures AllWellFormed(After(hash, s, e))
  {
    if e.Publish? { PublishedOnlyAdds(hash, s, e.id); }
  }

  /** The state a run of events reaches from s. */
  function Run(hash: Digest, s: System, events: seq<Event>): (r: System)
    requires AllWellFormed(s)
    ensures AllWellFormed(r)
    decreases |events|
  {
    if events == [] then s else
      StaysWellFormed(hash, Run(hash, s, events[..|events| - 1]), events[|events| - 1]);
      After(hash, Run(hash, s, events[..|events| - 1]), events[|events| - 1])
  }

  // ------------------------------------------------------------- hypotheses

  /** Every call started is a call of `vault_custody` on a valid package. */
  predicate Genuine(hash: Digest, events: seq<Event>) {
    forall i {:trigger events[i]} :: 0 <= i < |events| && events[i].StartPublisher? ==> LaidOut(hash, events[i].publisher)
  }

  /** Every publisher in s is such a call. */
  predicate AllLaidOut(hash: Digest, s: System) {
    forall id {:trigger LaidOut(hash, s.publishers[id])} :: id in s.publishers ==> LaidOut(hash, s.publishers[id])
  }

  /** Digests are 64 lowercase hexadecimal digits. */
  ghost predicate HexDigest(hash: Digest) { forall b :: Hex(hash(b), 64) }

  /** No two packages published in s have the same digest by accident. */
  predicate NoCollision(hash: Digest, s: System) {
    forall i, j :: i in s.publishers && j in s.publishers
      && hash(Canonical(s.publishers[i].package)) == hash(Canonical(s.publishers[j].package))
      ==> Canonical(s.publishers[i].package) == Canonical(s.publishers[j].package)
  }

  // ------------------------------------------------------------- invariants

  /** The object is in the store, exactly as its publisher writes it. */
  predicate Stored(store: Store, o: Object) {
    o.path in store && store[o.path] == Row(JoinedValue(o.value), 1)
  }

  predicate Complete(store: Store, p: Publisher) {
    forall i :: 0 <= i < |p.objects| ==> Stored(store, p.objects[i])
  }

  predicate WrittenBy(s: System, path: Text, id: nat, i: nat) {
    && id in s.publishers && i < |s.publishers[id].objects|
    && path == s.publishers[id].objects[i].path && Stored(s.store, s.publishers[id].objects[i])
  }

  /** Every row was written by some publisher, and still is as it wrote it. */
  ghost predicate OnlyPublished(s: System) {
    forall path :: path in s.store ==> exists id, i :: WrittenBy(s, path, id, i)
  }

  /** A committed package is complete. */
  predicate CommitImpliesComplete(store: Store, p: Publisher) {
    p.objects != [] && p.objects[|p.objects| - 1].path in store ==> Complete(store, p)
  }

  /** What a publisher has seen or written is in the store. */
  predicate Remembers(store: Store, p: Publisher) {
    WellFormed(p) &&
    match p.phase
    case Preflight(observed) => forall i :: 0 <= i < |observed| && observed[i].Some? ==> Stored(store, p.objects[i])
    case Creating(observed, next, _) =>
      forall i :: 0 <= i < |observed| && (i < next || observed[i].Some?) ==> Stored(store, p.objects[i])
    case Readback(_, _, _) => Complete(store, p)
    case Returned(result) => result.verified ==> Complete(store, p)
    case _ => true
  }

  ghost predicate PublishersInvariant(s: System) {
    && OnlyPublished(s)
    && (forall id :: id in s.publishers ==> CommitImpliesComplete(s.store, s.publishers[id]))
    && (forall id :: id in s.publishers ==> Remembers(s.store, s.publishers[id]))
  }

  // -------------------------------------------- one path, one delivered object

  /** The same objects, as a JSON transport delivers them. */
  predicate SameObjects(p: Publisher, q: Publisher) {
    && |p.objects| == |q.objects|
    && forall n :: 0 <= n < |p.objects| ==>
         p.objects[n].path == q.objects[n].path && JoinedValue(p.objects[n].value) == JoinedValue(q.objects[n].value)
  }

  predicate SharePath(p: Publisher, i: nat, q: Publisher, j: nat) {
    i < |p.objects| && j < |q.objects| && p.objects[i].path == q.objects[j].path
  }

  /** Two publishers that share one path share all of them, in the same order. */
  predicate Aligned(p: Publisher, q: Publisher) {
    forall i: nat, j: nat :: i < |p.objects| && j < |q.objects| && SharePath(p, i, q, j) ==> i == j && SameObjects(p, q)
  }

  lemma NoCollisionAligns(hash: Digest, p: Publisher, q: Publisher)
    requires HexDigest(hash) && LaidOut(hash, p) && LaidOut(hash, q)
    requires hash(Canonical(p.package)) == hash(Canonical(q.package)) ==> Canonical(p.package) == Canonical(q.package)
    ensures Aligned(p, q)
  {
    forall i: nat, j: nat | i < |p.objects| && j < |q.objects| && SharePath(p, i, q, j)
      ensures i == j && SameObjects(p, q)
    {
      PathNamesObject(hash, p.prefix, p.package, i, q.prefix, q.package, j);
      forall n | 0 <= n < ObjectCount(p.package)
        ensures p.objects[n].path == q.objects[n].path
        ensures JoinedValue(p.objects[n].value) == JoinedValue(q.objects[n].value)
      {
        SameBytesSameObjects(hash, p.prefix, p.package, q.package, n);
      }
    }
  }

  predicate AllAligned(s: System) {
    forall i, j :: i in s.publishers && j in s.publishers ==> Aligned(s.publishers[i], s.publishers[j])
  }

  // ------------------------------------------------- the store under one step

  /** A newly started publisher: its objects may already be there, if another one wrote them. */
  lemma NewcomerCommits(s: System, p: Publisher)
    requires PublishersInvariant(s)
    requires WellFormed(p) && forall id :: id in s.publishers ==> Aligned(p, s.publishers[id])
    ensures CommitImpliesComplete(s.store, p)
  {
    var last := |p.objects| - 1;
    var path := p.objects[last].path;
    if path in s.store {
      var w, i :| WrittenBy(s, path, w, i);
      assert SharePath(p, last, s.publishers[w], i);
    }
  }

  /** A row under a publisher's own path is its own object. */
  lemma OwnPathOwnObject(s: System, id: nat, i: nat)
    requires AllAligned(s) && OnlyPublished(s)
    requires id in s.publishers && i < |s.publishers[id].objects|
    requires s.publishers[id].objects[i].path in s.store
    ensures Stored(s.store, s.publishers[id].objects[i])
  {
    var w, j :| WrittenBy(s, s.publishers[id].objects[i].path, w, j);
    assert SharePath(s.publishers[id], i, s.publishers[w], j);
  }

  /** A row that appears in the store is the next object of the publisher that created it. */
  lemma CreateIsPublished(s: System, id: nat, p': Publisher, o: Object, n: nat, store': Store)
    requires OnlyPublished(s) && id in s.publishers && s.publishers[id].objects == p'.objects
    requires n < |p'.objects| && o == p'.objects[n] && Created(s.store, o.path, o.value) == Some(store')
    ensures OnlyPublished(System(store', s.publishers[id := p'], s.readers))
  {
    var s' := System(store', s.publishers[id := p'], s.readers);
    forall path | path in store' ensures exists w, i :: WrittenBy(s', path, w, i) {
      if path == o.path {
        assert WrittenBy(s', path, id, n);
      } else {
        var w, i :| WrittenBy(s, path, w, i);
        assert WrittenBy(s', path, w, i);
      }
    }
  }

  /** A manifest that appears is the creator's own, or that of a publisher of the same objects. */
  lemma CreateCommits(store: Store, p: Publisher, n: nat, store': Store, q: Publisher)
    requires n < |p.objects| && Created(store, p.objects[n].path, p.objects[n].value) == Some(store')
    requires forall i :: 0 <= i < n ==> Stored(store, p.objects[i])
    requires Aligned(p, q) && CommitImpliesComplete(store, q)
    ensures CommitImpliesComplete(store', q)
  {
    var last := |q.objects| - 1;
    if q.objects != [] && q.objects[last].path in store' && q.objects[last].path !in store {
      assert SharePath(p, n, q, last);
      assert n == last && SameObjects(p, q);
      forall i | 0 <= i < |q.objects| ensures Stored(store', q.objects[i]) {
        assert i < n ==> Stored(store, p.objects[i]);
      }
    }
  }

  lemma RemembersInGrownStore(store: Store, store': Store, p: Publisher)
    requires Remembers(store, p) && Grows(store, store')
    ensures Remembers(store', p)
  {
  }

  lemma CreatorRemembers(p: Publisher, p': Publisher, store: Store, store': Store)
    requires Remembers(store, p) && p.phase.Creating? && CreatingStep(p, store) == (p'.phase, store')
    requires p' == p.(phase := p'.phase) && store' != store
    ensures p.phase.next < |p.objects| && Remembers(store', p')
    ensures Created(store, p.objects[p.phase.next].path, p.objects[p.phase.next].value) == Some(store')
  {
    RemembersInGrownStore(store, store', p);
    assert Stored(store', p.objects[p.phase.next]);
  }

  lemma OthersKeepInvariant(s: System, id: nat, n: nat, store': Store)
    requires PublishersInvariant(s) && AllAligned(s) && id in s.publishers && n < |s.publishers[id].objects|
    requires Created(s.store, s.publishers[id].objects[n].path, s.publishers[id].objects[n].value) == Some(store')
    requires forall i :: 0 <= i < n ==> Stored(s.store, s.publishers[id].objects[i])
    ensures forall w :: w in s.publishers ==>
              CommitImpliesComplete(store', s.publishers[w]) && Remembers(store', s.publishers[w])
  {
    forall w | w in s.publishers
      ensures CommitImpliesComplete(store', s.publishers[w]) && Remembers(store', s.publishers[w])
    {
      assert Aligned(s.publishers[id], s.publishers[w]);
      CreateCommits(s.store, s.publishers[id], n, store', s.publishers[w]);
      RemembersInGrownStore(s.store, store', s.publishers[w]);
    }
  }

  /** Everything known of the store survives a create of one more object of publisher id. */
  lemma CreateKeepsInvariant(s: System, id: nat, p': Publisher, store': Store)
    requires PublishersInvariant(s) && AllAligned(s)
    requires id in s.publishers && s.publishers[id].phase.Creating?
    requires WellFormed(s.publishers[id]) && CreatingStep(s.publishers[id], s.store) == (p'.phase, store')
    requires p' == s.publishers[id].(phase := p'.phase) && store' != s.store
    ensures PublishersInvariant(System(store', s.publishers[id := p'], s.readers))
  {
    var p := s.publishers[id];
    var n := p.phase.next;
    CreatorRemembers(p, p', s.store, store');
    OthersKeepInvariant(s, id, n, store');
    CreateIsPublished(s, id, p', p.objects[n], n, store');
    assert CommitImpliesComplete(store', p) ==> CommitImpliesComplete(store', p');
    OneChanged(s, id, p', store');
  }

  lemma OneChanged(s: System, id: nat, p': Publisher, store': Store)
    requires OnlyPublished(System(store', s.publishers[id := p'], s.readers))
    requires forall w :: w in s.publishers ==>
               CommitImpliesComplete(store', s.publishers[w]) && Remembers(store', s.publishers[w])
    requires CommitImpliesComplete(store', p') && Remembers(store', p')
    ensures PublishersInvariant(System(store', s.publishers[id := p'], s.readers))
  {
  }

  /** Everything known of the store survives a step of publisher id that writes nothing. */
  lemma QuietKeepsInvariant(s: System, id: nat, p': Publisher)
    requires PublishersInvariant(s)
    requires Remembers(s.store, p') && CommitImpliesComplete(s.store, p')
    requires id in s.publishers ==> s.publishers[id].objects == p'.objects
    ensures PublishersInvariant(s.(publishers := s.publishers[id := p']))
  {
    var s' := s.(publishers := s.publishers[id := p']);
    forall path | path in s'.store ensures exists w, i :: WrittenBy(s', path, w, i) {
      var w, i :| WrittenBy(s, path, w, i);
      assert WrittenBy(s', path, w, i);
    }
  }

  /** What a publisher reads before writing, and what it then decides, keeps what it remembers true. */
  lemma PreflightRemembers(hash: Digest, s: System, id: nat)
    requires PublishersInvariant(s) && AllAligned(s)
    requires id in s.publishers && s.publishers[id].phase.Preflight?
    ensures WellFormed(s.publishers[id])
    ensures Remembers(s.store, s.publishers[id].(phase := PreflightStep(hash, s.publishers[id], s.store)))
  {
    var p := s.publishers[id];
    assert Remembers(s.store, p);
    if |p.phase.observed| < |p.objects| && p.objects[|p.phase.observed|].path in s.store {
      OwnPathOwnObject(s, id, |p.phase.observed|);
    }
  }

  lemma ReadbackRemembers(hash: Digest, store: Store, p: Publisher)
    requires Remembers(store, p) && p.phase.Readback?
    ensures Remembers(store, p.(phase := ReadbackStep(hash, p, store)))
  {
  }

  lemma QuietCreatingRemembers(store: Store, p: Publisher)
    requires Remembers(store, p) && p.phase.Creating? && CreatingStep(p, store).1 == store
    ensures Remembers(store, p.(phase := CreatingStep(p, store).0))
  {
  }

  lemma SamePublisherCommits(store: Store, p: Publisher, phase: Phase)
    requires CommitImpliesComplete(store, p)
    ensures CommitImpliesComplete(store, p.(phase := phase))
  {
  }

  lemma CreatingKeepsInvariant(s: System, id: nat)
    requires PublishersInvariant(s) && AllAligned(s) && id in s.publishers && s.publishers[id].phase.Creating?
    ensures WellFormed(s.publishers[id])
    ensures var (phase, store) := CreatingStep(s.publishers[id], s.store);
            PublishersInvariant(System(store, s.publishers[id := s.publishers[id].(phase := phase)], s.readers))
  {
    var p := s.publishers[id];
    assert Remembers(s.store, p);
    var (phase, store) := CreatingStep(p, s.store);
    if store == s.store {
      QuietCreatingRemembers(s.store, p);
      SamePublisherCommits(s.store, p, phase);
      QuietKeepsInvariant(s, id, p.(phase := phase));
    } else {
      CreateKeepsInvariant(s, id, p.(phase := phase), store);
    }
  }

  lemma StepKeepsInvariant(hash: Digest, s: System, id: nat)
    requires PublishersInvariant(s) && AllAligned(s) && AllWellFormed(s)
    requires id in s.publishers && Running(s.publishers[id])
    ensures PublishersInvariant(Published(hash, s, id))
  {
    var p := s.publishers[id];
    match p.phase
    case Preflight(_) =>
      PreflightRemembers(hash, s, id);
      SamePublisherCommits(s.store, p, PreflightStep(hash, p, s.store));
      QuietKeepsInvariant(s, id, p.(phase := PreflightStep(hash, p, s.store)));
    case Creating(_, _, _) =>
      CreatingKeepsInvariant(s, id);
    case Readback(_, _, _) =>
      assert Remembers(s.store, p);
      ReadbackRemembers(hash, s.store, p);
      SamePublisherCommits(s.store, p, ReadbackStep(hash, p, s.store));
      QuietKeepsInvariant(s, id, p.(phase := ReadbackStep(hash, p, s.store)));
  }
}
