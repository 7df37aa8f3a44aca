/** `vault_custody` with no competing writer: what it converges to, and what it never touches. */

module CustodyAlone {
  import opened Outcomes
  import opened Text
  import opened Json
  import opened JsonProofs
  import opened Package
  import opened Objects
  import opened Custody
  import opened CustodyRuns
  import opened CustodyReaders
  import Base64

  /** A publisher run to its end on a store nobody else touches. */
  function Alone(hash: Digest, p: Publisher, store: Store): (Publisher, Store)
    requires WellFormed(p)
    decreases StepsLeft(p)
  {
    if !Running(p) then (p, store) else
      StepsDecrease(hash, p, store);
      var (p', store') := PublisherStep(hash, p, store);
      Alone(hash, p', store')
  }

  /** What is stored under the first n paths. */
  function Lookups(store: Store, objects: seq<Object>, n: nat): (rows: seq<Option<Row>>)
    requires n <= |objects|
  {
    seq(n, i requires 0 <= i < n => Lookup(store, objects[i].path))
  }

  /** The store with the first n objects created where they were missing. */
  function Filled(store: Store, objects: seq<Object>, n: nat): Store
    requires n <= |objects|
  {
    if n == 0 then store else
      var before := Filled(store, objects, n - 1);
      if objects[n - 1].path in store then before
      else before[objects[n - 1].path := Row(JoinedValue(objects[n - 1].value), 1)]
  }

  /** The paths among the first n that are missing, in order. */
  function Missing(store: Store, objects: seq<Object>, n: nat): seq<Text>
    requires n <= |objects|
  {
    if n == 0 then [] else
      Missing(store, objects, n - 1) + if objects[n - 1].path in store then [] else [objects[n - 1].path]
  }

  predicate DistinctPaths(objects: seq<Object>) {
    forall i, j :: 0 <= i < j < |objects| ==> objects[i].path != objects[j].path
  }

  /** Every object that is already there is there exactly. */
  predicate PartOf(store: Store, objects: seq<Object>) {
    forall i :: 0 <= i < |objects| && objects[i].path in store ==> store[objects[i].path].data == objects[i].value
  }

  /** JSON delivers the object's value unchanged. */
  predicate Travels(o: Object) { JoinedValue(o.value) == o.value }

  /** So it does with every object that is still missing. */
  predicate MissingTravel(store: Store, objects: seq<Object>) {
    forall i :: 0 <= i < |objects| && objects[i].path !in store ==> Travels(objects[i])
  }

  lemma OwnPathsAreDistinct(hash: Digest, p: Publisher)
    requires HexDigest(hash) && LaidOut(hash, p)
    ensures DistinctPaths(p.objects)
  {
    NoCollisionAligns(hash, p, p);
    forall i, j | 0 <= i < j < |p.objects| ensures p.objects[i].path != p.objects[j].path {
      assert SharePath(p, i, p, j) <==> p.objects[i].path == p.objects[j].path;
    }
  }

  lemma {:induction false} FilledAt(store: Store, objects: seq<Object>, n: nat)
    requires n <= |objects| && DistinctPaths(objects)
    ensures Grows(store, Filled(store, objects, n))
    ensures forall i :: 0 <= i < |objects| && objects[i].path !in store ==>
              if i < n then objects[i].path in Filled(store, objects, n)
                            && Filled(store, objects, n)[objects[i].path] == Row(JoinedValue(objects[i].value), 1)
              else objects[i].path !in Filled(store, objects, n)
    ensures forall path :: path in Filled(store, objects, n) && path !in store ==>
              exists i :: 0 <= i < n && objects[i].path == path
  {
    if n > 0 { FilledAt(store, objects, n - 1); }
  }

  // ------------------------------------------------------------ phase by phase

  lemma PreflightContinues(hash: Digest, p: Publisher, store: Store)
    requires WellFormed(p) && p.phase.Preflight?
    ensures Alone(hash, p, store) == Alone(hash, p.(phase := PreflightStep(hash, p, store)), store)
  {
  }

  lemma CreatingContinues(hash: Digest, p: Publisher, store: Store)
    requires WellFormed(p) && p.phase.Creating?
    ensures var (phase, store') := CreatingStep(p, store);
            Alone(hash, p, store) == Alone(hash, p.(phase := phase), store')
  {
  }

  lemma ReadbackContinues(hash: Digest, p: Publisher, store: Store)
    requires WellFormed(p) && p.phase.Readback?
    ensures Alone(hash, p, store) == Alone(hash, p.(phase := ReadbackStep(hash, p, store)), store)
  {
  }

  lemma {:induction false} PreflightAlone(hash: Digest, p: Publisher, store: Store, n: nat)
    requires n <= |p.objects| != 0 && PartOf(store, p.objects)
    ensures Agrees(p.objects, Lookups(store, p.objects, n))
    ensures Alone(hash, p.(phase := Preflight([])), store)
         == Alone(hash, p.(phase := Preflight(Lookups(store, p.objects, n))), store)
  {
    if n == 0 {
      assert Lookups(store, p.objects, 0) == [];
    } else {
      PreflightAlone(hash, p, store, n - 1);
      PreflightNext(hash, p, store, n - 1);
      PreflightContinues(hash, p.(phase := Preflight(Lookups(store, p.objects, n - 1))), store);
    }
  }

  lemma PreflightNext(hash: Digest, p: Publisher, store: Store, i: nat)
    requires i < |p.objects| && PartOf(store, p.objects) && Agrees(p.objects, Lookups(store, p.objects, i))
    ensures Agrees(p.objects, Lookups(store, p.objects, i + 1))
    ensures PreflightStep(hash, p.(phase := Preflight(Lookups(store, p.objects, i))), store)
         == Preflight(Lookups(store, p.objects, i + 1))
  {
    assert Lookups(store, p.objects, i + 1) == Lookups(store, p.objects, i) + [Lookup(store, p.objects[i].path)];
  }

  /** Did any of the first n objects have to be created? */
  predicate Wrote(observed: seq<Option<Row>>, n: nat)
    requires n <= |observed|
  {
    exists i :: 0 <= i < n && observed[i].None?
  }

  lemma CreateNext(p: Publisher, store: Store, observed: seq<Option<Row>>, i: nat)
    requires i < |p.objects| && DistinctPaths(p.objects) && observed == Lookups(store, p.objects, |p.objects|)
    requires p.operation == Apply && !p.checkMode && Agrees(p.objects, observed)
    ensures CreatingStep(p.(phase := Creating(observed, i, Wrote(observed, i))), Filled(store, p.objects, i))
         == (Creating(observed, i + 1, Wrote(observed, i + 1)), Filled(store, p.objects, i + 1))
  {
    WroteNext(observed, i);
    FilledNext(store, p.objects, i);
  }

  lemma WroteNext(observed: seq<Option<Row>>, i: nat)
    requires i < |observed|
    ensures Wrote(observed, i + 1) <==> Wrote(observed, i) || observed[i].None?
  {
  }

  lemma FilledNext(store: Store, objects: seq<Object>, i: nat)
    requires i < |objects| && DistinctPaths(objects)
    ensures Filled(store, objects, i + 1) ==
            if objects[i].path in store then Filled(store, objects, i)
            else Filled(store, objects, i)[objects[i].path := Row(JoinedValue(objects[i].value), 1)]
    ensures objects[i].path !in store ==> objects[i].path !in Filled(store, objects, i)
  {
    FilledAt(store, objects, i);
  }

  lemma {:induction false} CreatingAlone(hash: Digest, p: Publisher, store: Store, observed: seq<Option<Row>>, n: nat)
    requires n <= |p.objects| != 0 && DistinctPaths(p.objects)
    requires p.operation == Apply && !p.checkMode
    requires observed == Lookups(store, p.objects, |p.objects|) && Agrees(p.objects, observed)
    ensures Alone(hash, p.(phase := Creating(observed, 0, false)), store)
         == Alone(hash, p.(phase := Creating(observed, n, Wrote(observed, n))), Filled(store, p.objects, n))
  {
    if n > 0 {
      CreatingAlone(hash, p, store, observed, n - 1);
      CreateNext(p, store, observed, n - 1);
      CreatingContinues(hash, p.(phase := Creating(observed, n - 1, Wrote(observed, n - 1))), Filled(store, p.objects, n - 1));
    }
  }

  lemma {:induction false} ReadbackAlone(hash: Digest, p: Publisher, observed: seq<Option<Row>>, changed: bool, store: Store, n: nat)
    requires n <= |p.objects| != 0 && Agrees(p.objects, observed) && |observed| == |p.objects|
    requires p.operation == Apply && !p.checkMode
    ensures Alone(hash, p.(phase := Readback(observed, changed, [])), store)
         == Alone(hash, p.(phase := Readback(observed, changed, Lookups(store, p.objects, n))), store)
  {
    if n == 0 {
      assert Lookups(store, p.objects, 0) == [];
    } else {
      ReadbackAlone(hash, p, observed, changed, store, n - 1);
      var q := p.(phase := Readback(observed, changed, Lookups(store, p.objects, n - 1)));
      assert Lookups(store, p.objects, n) == q.phase.verified + [Lookup(store, p.objects[n - 1].path)];
      ReadbackContinues(hash, q, store);
      assert ReadbackStep(hash, q, store) == Readback(observed, changed, Lookups(store, p.objects, n));
    }
  }

  /** An uninterrupted apply writes exactly what is missing, then reads everything back and checks it. */
  lemma ApplyAlone(hash: Digest, p: Publisher, store: Store)
    requires p.objects != [] && DistinctPaths(p.objects) && PartOf(store, p.objects)
    requires p.operation == Apply && !p.checkMode
    ensures
      var n := |p.objects|;
      var observed := Lookups(store, p.objects, n);
      var filled := Filled(store, p.objects, n);
      Alone(hash, p.(phase := Preflight([])), store)
      == (p.(phase := Finish(hash, p, observed, Absent(observed), Lookups(filled, p.objects, n))), filled)
  {
    var n := |p.objects|;
    var observed := Lookups(store, p.objects, n);
    var filled := Filled(store, p.objects, n);
    PreflightAlone(hash, p, store, n);
    var q := p.(phase := Preflight(observed));
    PreflightContinues(hash, q, store);
    assert PreflightStep(hash, q, store) == Creating(observed, 0, false);
    CreatingAlone(hash, p, store, observed, n);
    assert Wrote(observed, n) <==> Absent(observed);
    var c := p.(phase := Creating(observed, n, Absent(observed)));
    CreatingContinues(hash, c, filled);
    assert CreatingStep(c, filled) == (Readback(observed, Absent(observed), []), filled);
    ReadbackAlone(hash, p, observed, Absent(observed), filled, n);
    FinishAlone(hash, p, observed, Absent(observed), filled);
  }

  lemma FinishAlone(hash: Digest, p: Publisher, observed: seq<Option<Row>>, changed: bool, store: Store)
    requires p.objects != [] && Agrees(p.objects, observed) && |observed| == |p.objects|
    requires p.operation == Apply && !p.checkMode
    ensures
      var verified := Lookups(store, p.objects, |p.objects|);
      Alone(hash, p.(phase := Readback(observed, changed, verified)), store)
      == (p.(phase := Finish(hash, p, observed, changed, verified)), store)
  {
    var q := p.(phase := Readback(observed, changed, Lookups(store, p.objects, |p.objects|)));
    ReadbackContinues(hash, q, store);
    assert ReadbackStep(hash, q, store) == Finish(hash, p, observed, changed, q.phase.verified);
  }

  // ------------------------------------------------------------- last checks

  /** A complete set of exact rows passes the last checks. */
  lemma ExactRowsFinish(hash: Digest, p: Publisher, observed: seq<Option<Row>>, changed: bool, rows: seq<Option<Row>>)
    requires LaidOut(hash, p) && |rows| == |p.objects| && !Absent(rows) && Agrees(p.objects, rows)
    ensures Finish(hash, p, observed, changed, rows)
         == Returned(CustodyResult(changed, true, Absent(observed) && !changed, hash(Canonical(p.package)),
                     ManifestPath(p.prefix, hash(Canonical(p.package))), Some(rows[|rows| - 1].value.version)))
  {
    ExactRowsAssemble(hash, p, rows);
    DecodeUndoesValidate(hash, p.package);
  }

  lemma ExactRowsAssemble(hash: Digest, p: Publisher, rows: seq<Option<Row>>)
    requires LaidOut(hash, p) && |rows| == |p.objects| && !Absent(rows) && Agrees(p.objects, rows)
    ensures Assemble(rows[..|rows| - 1]) == Ok(Canonical(p.package))
  {
    var raw := Canonical(p.package);
    forall i | 0 <= i < |rows| - 1 ensures Payload(rows[i]) == Ok(Chunks(raw)[i]) { ExactPayload(hash, p, rows, i); }
    ChunksAssemble(raw, rows, |rows| - 1);
  }

  lemma ExactPayload(hash: Digest, p: Publisher, rows: seq<Option<Row>>, i: nat)
    requires LaidOut(hash, p) && |rows| == |p.objects| && !Absent(rows) && Agrees(p.objects, rows) && i < |rows| - 1
    ensures Payload(rows[i]) == Ok(Chunks(Canonical(p.package))[i])
  {
    var chunk := Chunks(Canonical(p.package))[i];
    assert rows[i].Some? && rows[i].value.data == ChunkValue(hash, i, chunk);
    Base64.RoundTrip(chunk);
  }

  /** The rows of the filled store are exact if and only if JSON changes none of the created values. */
  lemma FilledRows(store: Store, objects: seq<Object>)
    requires DistinctPaths(objects) && PartOf(store, objects)
    ensures var rows := Lookups(Filled(store, objects, |objects|), objects, |objects|);
            && !Absent(rows)
            && (Agrees(objects, rows) <==> MissingTravel(store, objects))
  {
    var rows := Lookups(Filled(store, objects, |objects|), objects, |objects|);
    FilledAt(store, objects, |objects|);
    forall i | 0 <= i < |objects|
      ensures rows[i].Some?
      ensures rows[i].value.data == if objects[i].path in store then objects[i].value else JoinedValue(objects[i].value)
    {
      assert objects[i].path in Filled(store, objects, |objects|);
    }
  }

  // ------------------------------------------------------------- main results

  /**
   * Resumable convergence. From any subset of its own objects, an apply fills the store with exactly the missing
   * ones; it ends verified, and reports a change exactly if it wrote, if and only if JSON delivers them unchanged.
   */
  lemma ApplyConverges(hash: Digest, p: Publisher, store: Store)
    requires HexDigest(hash) && LaidOut(hash, p) && p.phase == Preflight([]) && PartOf(store, p.objects)
    requires p.operation == Apply && !p.checkMode
    ensures var (p', store') := Alone(hash, p, store);
            && store' == Filled(store, p.objects, |p.objects|)
            && (forall i :: 0 <= i < |p.objects| ==> p.objects[i].path in store')
            && if MissingTravel(store, p.objects)
               then && p'.phase.Returned? && p'.phase.result.verified && !p'.phase.result.planned
                    && PartOf(store', p.objects)
                    && (p'.phase.result.changed <==> Missing(store, p.objects, |p.objects|) != [])
               else p'.phase == Failed
  {
    OwnPathsAreDistinct(hash, p);
    FilledRows(store, p.objects);
    FilledFinish(hash, p, SeenBefore(p, store), SeenAfter(p, store));
    AloneConverges(hash, p, store);
  }

  /** What an apply sees before it writes, and after. */
  function SeenBefore(p: Publisher, store: Store): seq<Option<Row>> { Lookups(store, p.objects, |p.objects|) }

  function SeenAfter(p: Publisher, store: Store): seq<Option<Row>> {
    Lookups(Filled(store, p.objects, |p.objects|), p.objects, |p.objects|)
  }

  /** The last checks pass exactly over rows that agree with the objects. */
  predicate FinishesExactly(hash: Digest, p: Publisher, observed: seq<Option<Row>>, rows: seq<Option<Row>>)
    requires |rows| == |p.objects| != 0
  {
    var phase := Finish(hash, p, observed, Absent(observed), rows);
    if Agrees(p.objects, rows)
    then phase.Returned? && phase.result.verified && !phase.result.planned && phase.result.changed == Absent(observed)
    else phase.Failed?
  }

  lemma FilledFinish(hash: Digest, p: Publisher, observed: seq<Option<Row>>, rows: seq<Option<Row>>)
    requires LaidOut(hash, p) && |rows| == |p.objects| && !Absent(rows)
    ensures p.objects != [] && FinishesExactly(hash, p, observed, rows)
  {
    if Agrees(p.objects, rows) { ExactRowsFinish(hash, p, observed, Absent(observed), rows); }
  }

  lemma AloneConverges(hash: Digest, p: Publisher, store: Store)
    requires p.objects != [] && DistinctPaths(p.objects) && PartOf(store, p.objects) && p.phase == Preflight([])
    requires p.operation == Apply && !p.checkMode && FinishesExactly(hash, p, SeenBefore(p, store), SeenAfter(p, store))
    ensures var (p', store') := Alone(hash, p, store);
            && store' == Filled(store, p.objects, |p.objects|)
            && (forall i :: 0 <= i < |p.objects| ==> p.objects[i].path in store')
            && if MissingTravel(store, p.objects)
               then && p'.phase.Returned? && p'.phase.result.verified && !p'.phase.result.planned
                    && PartOf(store', p.objects)
                    && (p'.phase.result.changed <==> Missing(store, p.objects, |p.objects|) != [])
               else p'.phase == Failed
  {
    ApplyAlone(hash, p, store);
    FilledEnds(p, store);
  }

  lemma FilledEnds(p: Publisher, store: Store)
    requires DistinctPaths(p.objects) && PartOf(store, p.objects)
    ensures Agrees(p.objects, SeenAfter(p, store)) <==> MissingTravel(store, p.objects)
    ensures forall i :: 0 <= i < |p.objects| ==> p.objects[i].path in Filled(store, p.objects, |p.objects|)
    ensures MissingTravel(store, p.objects) ==> PartOf(Filled(store, p.objects, |p.objects|), p.objects)
    ensures Absent(SeenBefore(p, store)) <==> Missing(store, p.objects, |p.objects|) != []
  {
    FilledRows(store, p.objects);
    FilledAt(store, p.objects, |p.objects|);
    MissingMeansAbsent(store, p.objects, |p.objects|);
    if MissingTravel(store, p.objects) { RowsArePart(Filled(store, p.objects, |p.objects|), p.objects); }
  }

  lemma {:induction false} MissingMeansAbsent(store: Store, objects: seq<Object>, n: nat)
    requires n <= |objects|
    ensures Missing(store, objects, n) != [] <==> Absent(Lookups(store, objects, n))
  {
    if n > 0 {
      MissingMeansAbsent(store, objects, n - 1);
      var rows := Lookups(store, objects, n);
      assert rows == Lookups(store, objects, n - 1) + [Lookup(store, objects[n - 1].path)];
      if objects[n - 1].path !in store { assert rows[n - 1].None?; }
      if Absent(Lookups(store, objects, n - 1)) {
        var i :| 0 <= i < n - 1 && Lookups(store, objects, n - 1)[i].None?;
        assert rows[i].None?;
      }
    }
  }

  lemma RowsArePart(store: Store, objects: seq<Object>)
    requires Agrees(objects, Lookups(store, objects, |objects|))
    ensures PartOf(store, objects)
  {
    forall i | 0 <= i < |objects| && objects[i].path in store ensures store[objects[i].path].data == objects[i].value {
      assert Lookups(store, objects, |objects|)[i].Some?;
    }
  }

  /** A second apply finds everything in place: it writes nothing and reports no change. */
  lemma SecondApplyChangesNothing(hash: Digest, p: Publisher, store: Store)
    requires HexDigest(hash) && LaidOut(hash, p) && p.phase == Preflight([]) && PartOf(store, p.objects)
    requires p.operation == Apply && !p.checkMode
    requires Alone(hash, p, store).0.phase.Returned?
    ensures var (_, store') := Alone(hash, p, store);
            var (p'', store'') := Alone(hash, p, store');
            store'' == store' && p''.phase.Returned? && p''.phase.result.verified && !p''.phase.result.changed
  {
    ApplyConverges(hash, p, store);
    assert MissingTravel(store, p.objects);
    var store' := Filled(store, p.objects, |p.objects|);
    NothingMissing(store', p.objects, |p.objects|);
    assert MissingTravel(store', p.objects);
    ApplyConverges(hash, p, store');
  }

  lemma {:induction false} NothingMissing(store: Store, objects: seq<Object>, n: nat)
    requires n <= |objects| && forall i :: 0 <= i < |objects| ==> objects[i].path in store
    ensures Missing(store, objects, n) == [] && Filled(store, objects, n) == store
  {
    if n > 0 { NothingMissing(store, objects, n - 1); }
  }

  /** Plan, verify and check mode never write. */
  lemma {:induction false} OnlyApplyWrites(hash: Digest, p: Publisher, store: Store)
    requires WellFormed(p) && (p.operation != Apply || p.checkMode)
    ensures Alone(hash, p, store).1 == store
    decreases StepsLeft(p)
  {
    if Running(p) {
      StepsDecrease(hash, p, store);
      OnlyApplyWrites(hash, PublisherStep(hash, p, store).0, store);
    }
  }

  /** A single conflicting object makes the call fail before it writes anything. */
  lemma {:induction false} ConflictWritesNothing(hash: Digest, p: Publisher, store: Store, i: nat)
    requires WellFormed(p) && p.phase.Preflight? && |p.phase.observed| <= i < |p.objects|
    requires p.objects[i].path in store && store[p.objects[i].path].data != p.objects[i].value
    ensures Alone(hash, p, store) == (p.(phase := Failed), store)
    decreases i - |p.phase.observed|
  {
    var phase := PreflightStep(hash, p, store);
    if phase.Preflight? {
      ConflictWritesNothing(hash, p.(phase := phase), store, i);
    } else {
      assert Alone(hash, p.(phase := Failed), store) == (p.(phase := Failed), store);
    }
  }

  /** A preflight that ends with a conflict is that of a failed call. */
  lemma ConflictEnds(hash: Digest, call: Publisher, store: Store)
    requires call.objects != [] && call.phase == Preflight([]) && !PartOf(store, call.objects)
    ensures Alone(hash, call, store) == (call.(phase := Failed), store)
  {
    var i :| 0 <= i < |call.objects| && call.objects[i].path in store
             && store[call.objects[i].path].data != call.objects[i].value;
    ConflictWritesNothing(hash, call, store, i);
  }

  // ---------------------------------------------------- which packages travel

  lemma {:induction false} FixedTextIsWhole(t: Text)
    requires Joined(t) == t
    ensures Whole(t)
    decreases |t|
  {
    if t != [] {
      if |t| >= 2 { assert |Joined(t[2..])| <= |t| - 2; }
      assert t[1..] == Joined(t[1..]);
      FixedTextIsWhole(t[1..]);
      forall i: nat | i < |t| ensures !SplitAt(t, i) { if i > 0 { assert !SplitAt(t[1..], i - 1); } }
    }
  }

  /** Chunks always travel; the manifest travels if and only if its strings are whole. */
  lemma WhichObjectsTravel(hash: Digest, p: Publisher, i: nat)
    requires HexDigest(hash) && LaidOut(hash, p) && i < |p.objects|
    ensures Travels(p.objects[i]) <==> i < |p.objects| - 1 || WholeManifest(p.package.fields[S("manifest")])
  {
    var raw, m := Canonical(p.package), p.package.fields[S("manifest")];
    if i < |p.objects| - 1 {
      ChunkValueTravels(hash, i, Chunks(raw)[i]);
    } else {
      CommitRecordTravels(hash, raw, m);
      var a, b := CommitRecord(hash, raw, m), CommitRecord(hash, raw, JoinedValue(m));
      assert a.fields[S("manifest")] == m && b.fields[S("manifest")] == JoinedValue(m);
      FixedManifest(m);
    }
  }

  /** None of the manifest's free-text fields holds a split surrogate pair. */
  predicate WholeManifest(m: Json)
    requires m.JObject?
  {
    forall key :: key in m.fields && m.fields[key].JString? ==> Whole(m.fields[key].s)
  }

  lemma FixedManifest(m: Json)
    requires ValidManifest(m)
    ensures JoinedValue(m) == m <==> WholeManifest(m)
  {
    ManifestShape(m);
    if WholeManifest(m) {
      WholeValueIsJoined(m);
    } else if JoinedValue(m) == m {
      forall key | key in m.fields && m.fields[key].JString? ensures Whole(m.fields[key].s) {
        assert JoinedValue(m).fields[key] == JoinedValue(m.fields[key]);
        FixedTextIsWhole(m.fields[key].s);
      }
    }
  }
}
