/** One winner, one file, whole contents: the promises of create-if-absent publication. */

module DocumentStoreTheorems {
  import opened Outcomes
  import opened DocumentProofs
  import opened DocumentStore
  import opened DocumentStoreRuns

  // -------------------------------------------------------------- one winner

  predicate Created(s: System, id: nat) { id in s.calls && s.calls[id].phase.Done? && s.calls[id].phase.created }

  predicate Exists(s: System, id: nat) { id in s.calls && s.calls[id].phase.Done? && s.calls[id].phase.exists_ }

  /** At most one call ever reports that it created the document. */
  lemma OneCreator(decode: Codec, events: seq<Event>, i: nat, j: nat)
    requires var s := Run(decode, EMPTY, events); Created(s, i) && Created(s, j)
    ensures i == j
  {
    Reachable(decode, events);
  }

  /** A call that reports an existing document validated the target's content, and asked for what it holds. */
  lemma ResultsReadBack(decode: Codec, events: seq<Event>, id: nat)
    requires Exists(Run(decode, EMPTY, events), id)
    ensures var s := Run(decode, EMPTY, events);
            var c := s.calls[id];
            && Target in s.disk.entries
            && c.phase.bytes == Content(s.disk, s.disk.entries[Target])
            && decode(c.phase.bytes).Some?
            && Matches(c.request, decode(c.phase.bytes).value)
            && (c.request.Exact? ==> decode(c.phase.bytes) == Some(c.request.document))
  {
    Reachable(decode, events);
    var c := Run(decode, EMPTY, events).calls[id];
    assert CallInvariant(decode, Run(decode, EMPTY, events).disk, c);
    if c.request.Exact? { EqualExactly(decode(c.phase.bytes).value, c.request.document); }
  }

  /** Racing calls for different documents never both succeed. */
  lemma OneDocument(decode: Codec, events: seq<Event>, i: nat, j: nat)
    requires var s := Run(decode, EMPTY, events); Exists(s, i) && Exists(s, j)
    ensures var s := Run(decode, EMPTY, events);
            && s.calls[i].phase.bytes == s.calls[j].phase.bytes
            && (s.calls[i].request.Exact? && s.calls[j].request.Exact? ==> s.calls[i].request == s.calls[j].request)
  {
    ResultsReadBack(decode, events, i);
    ResultsReadBack(decode, events, j);
  }

  /** The published file is the whole ciphertext of the call that linked it, which accepted it beforehand. */
  lemma TargetIsWinners(decode: Codec, events: seq<Event>) returns (id: nat)
    requires Target in Run(decode, EMPTY, events).disk.entries
    ensures var s := Run(decode, EMPTY, events);
            && Won(s, id)
            && s.calls[id].ciphertext == Some(Content(s.disk, s.disk.entries[Target]))
            && (s.calls[id].request.Exact? ==> decode(s.calls[id].ciphertext.value) == Some(s.calls[id].request.document))
  {
    Reachable(decode, events);
    var s := Run(decode, EMPTY, events);
    id :| Won(s, id);
    assert CallInvariant(decode, s.disk, s.calls[id]);
    if s.calls[id].request.Exact? {
      EqualExactly(decode(s.calls[id].ciphertext.value).value, s.calls[id].request.document);
    }
  }

  // ---------------------------------------------------------------- one file

  /** The target stays the file it was, and gets no further names. */
  predicate Settles(disk: Disk, disk': Disk) {
    Target in disk.entries && disk.entries[Target] in disk.files ==>
      && Named(disk', Target, disk.entries[Target])
      && Content(disk', disk.entries[Target]) == Content(disk, disk.entries[Target])
      && Names(disk', disk.entries[Target]) <= Names(disk, disk.entries[Target])
  }

  lemma EventSettles(decode: Codec, s: System, e: Event)
    requires Invariant(decode, s)
    ensures Settles(s.disk, After(decode, s, e).disk)
  {
    if e.Step? && e.id in s.calls && Target in s.disk.entries {
      var c := s.calls[e.id];
      if c.phase.Open? {
        var disk' := OpenStep(c, s.disk, e.pick).1;
        assert disk' != s.disk ==> e.pick.inode != s.disk.entries[Target];
      } else if Holding(c) {
        OwnFile(decode, s, e.id);
        StageStepMoves(decode, c, c.stage.value, s.disk, e.pick);
        StageAddsNoName(c, s.disk, e.pick);
      } else {
        assert After(decode, s, e).disk == s.disk;
      }
    }
  }

  lemma StageAddsNoName(c: Call, disk: Disk, pick: Pick)
    requires c.stage.Some? && Target in disk.entries
    ensures forall n :: n in StageStep(c, c.stage.value, disk, pick).1.entries ==>
              n in disk.entries && StageStep(c, c.stage.value, disk, pick).1.entries[n] == disk.entries[n]
  {
  }

  /** The name goes from absent to one file once: that file, its content and its names only settle. */
  lemma {:induction false} TargetNeverChanges(decode: Codec, s: System, events: seq<Event>)
    requires Invariant(decode, s)
    ensures Settles(s.disk, Run(decode, s, events).disk)
    decreases |events|
  {
    if events != [] {
      var before := events[..|events| - 1];
      TargetNeverChanges(decode, s, before);
      RunKeepsInvariant(decode, s, before);
      EventSettles(decode, Run(decode, s, before), events[|events| - 1]);
    }
  }

  /** The target has a second name exactly while its creator's staging name is there. */
  lemma LinkCount(decode: Codec, events: seq<Event>, id: nat)
    requires Won(Run(decode, EMPTY, events), id)
    ensures var s := Run(decode, EMPTY, events);
            && s.calls[id].stage.Some?
            && Named(s.disk, Target, s.calls[id].stage.value.inode)
            && HardLinks(s.disk, s.disk.entries[Target]) == (if Leaves(s, id, s.calls[id].stage.value.token) then 2 else 1)
            && (Leaves(s, id, s.calls[id].stage.value.token) ==>
                  s.calls[id].phase.Unlink? || s.calls[id].phase.Cleanup?
                  || s.calls[id].phase.Abandoned? || s.calls[id].phase == Crashed(true))
  {
    Reachable(decode, events);
    var s := Run(decode, EMPTY, events);
    assert CallInvariant(decode, s.disk, s.calls[id]);
    TargetNames(decode, s, id);
  }

  lemma TargetNames(decode: Codec, s: System, id: nat)
    requires Invariant(decode, s) && Won(s, id) && s.calls[id].stage.Some?
    requires Named(s.disk, Target, s.calls[id].stage.value.inode)
    ensures HardLinks(s.disk, s.disk.entries[Target]) == (if Leaves(s, id, s.calls[id].stage.value.token) then 2 else 1)
  {
    var stage := s.calls[id].stage.value;
    forall token | Named(s.disk, Temp(token), stage.inode) ensures token == stage.token && Leaves(s, id, token) {
      var w :| Leaves(s, w, token);
      assert w == id;
    }
    var names := Names(s.disk, stage.inode);
    forall n | n in names ensures n == Target || (n == Temp(stage.token) && Leaves(s, id, stage.token)) {
      if n.Temp? { assert Named(s.disk, Temp(n.token), stage.inode); }
    }
    if Leaves(s, id, stage.token) {
      assert names == {Target, Temp(stage.token)};
    } else {
      assert names == {Target};
    }
  }

  // ------------------------------------------------------- nothing left behind

  /** id's call made this staging name, and ended without removing it: by a crash, or for one of the causes. */
  predicate LeftName(s: System, id: nat, token: nat) {
    && id in s.calls && s.calls[id].stage.Some? && s.calls[id].stage.value.token == token
    && (s.calls[id].phase.Abandoned? || s.calls[id].phase == Crashed(true))
  }

  /** In every reachable state: the staging names are those that calls made and did not remove. */
  lemma StagingNames(decode: Codec, events: seq<Event>, token: nat)
    ensures var s := Run(decode, EMPTY, events);
            Temp(token) in s.disk.entries <==>
              exists id :: id in s.calls && Holding(s.calls[id]) && s.calls[id].stage.value.token == token
  {
    Reachable(decode, events);
    var s := Run(decode, EMPTY, events);
    if Temp(token) in s.disk.entries {
      var id :| Leaves(s, id, token);
      assert Holding(s.calls[id]) && s.calls[id].stage.value.token == token;
    }
    if id :| id in s.calls && Holding(s.calls[id]) && s.calls[id].stage.value.token == token {
      assert CallInvariant(decode, s.disk, s.calls[id]);
    }
  }

  /** Once all calls have ended, a staging name is there exactly when the call that made it left it. */
  lemma WhatIsLeft(decode: Codec, events: seq<Event>, token: nat)
    requires forall id :: id in Run(decode, EMPTY, events).calls ==> Ended(Run(decode, EMPTY, events).calls[id])
    ensures var s := Run(decode, EMPTY, events);
            Temp(token) in s.disk.entries <==> exists id :: LeftName(s, id, token)
  {
    StagingNames(decode, events, token);
    var s := Run(decode, EMPTY, events);
    if Temp(token) in s.disk.entries {
      var id :| id in s.calls && Holding(s.calls[id]) && s.calls[id].stage.value.token == token;
      assert LeftName(s, id, token);
    }
    if id :| LeftName(s, id, token) {
      assert Holding(s.calls[id]);
    }
  }

  predicate Orderly(e: Event) { !e.Leave? && !e.Crash? }

  lemma OrderlyEvent(decode: Codec, s: System, e: Event, id: nat)
    requires Orderly(e) && id in After(decode, s, e).calls
    requires id in s.calls ==> !s.calls[id].phase.Abandoned? && !s.calls[id].phase.Crashed?
    ensures !After(decode, s, e).calls[id].phase.Abandoned? && !After(decode, s, e).calls[id].phase.Crashed?
  {
  }

  lemma {:induction false} OrderlyRun(decode: Codec, events: seq<Event>, id: nat)
    requires forall i :: 0 <= i < |events| ==> Orderly(events[i])
    requires id in Run(decode, EMPTY, events).calls
    ensures !Run(decode, EMPTY, events).calls[id].phase.Abandoned? && !Run(decode, EMPTY, events).calls[id].phase.Crashed?
    decreases |events|
  {
    var before := events[..|events| - 1];
    if id in Run(decode, EMPTY, before).calls { OrderlyRun(decode, before, id); }
    OrderlyEvent(decode, Run(decode, EMPTY, before), events[|events| - 1], id);
  }

  /** Whatever else faults: without a crash and without one of the three causes only the document is left at the end. */
  lemma NothingStaged(decode: Codec, events: seq<Event>)
    requires forall i :: 0 <= i < |events| ==> Orderly(events[i])
    requires forall id :: id in Run(decode, EMPTY, events).calls ==> Ended(Run(decode, EMPTY, events).calls[id])
    ensures Run(decode, EMPTY, events).disk.entries.Keys <= {Target}
  {
    var s := Run(decode, EMPTY, events);
    forall n | n in s.disk.entries ensures n == Target {
      if n.Temp? {
        WhatIsLeft(decode, events, n.token);
        var id :| LeftName(s, id, n.token);
        OrderlyRun(decode, events, id);
      }
    }
  }

  /** The events of a call alone, until it has staged its file. */
  function Staging(c: Call): seq<Event> { [Start(0, c), Step(0, Pick(7, 1, 0)), Step(0, Pick(7, 1, 0))] }

  lemma StagesAlone(decode: Codec, c: Call)
    requires Fresh(c) && !c.checkMode && Prepared(decode, c)
    ensures Run(decode, EMPTY, Staging(c)) ==
            System(Disk(map[Temp(7) := 1], map[1 := []]), map[0 := c.(stage := Some(Stage(7, 1)), phase := Identify)])
  {
    var pick := Pick(7, 1, 0);
    assert Staging(c)[..2][..1][..0] == [];
    var started := After(decode, EMPTY, Start(0, c));
    assert Run(decode, EMPTY, Staging(c)[..2][..1]) == started;
    var opening := After(decode, started, Step(0, pick));
    assert opening.calls[0].phase == Open(0) && opening.disk == BLANK;
  }

  /** Two causes are no failed removal: nothing was tried to remove, the call ends, and the name stays. */
  lemma NamesStay(decode: Codec, c: Call)
    requires Fresh(c) && !c.checkMode && Prepared(decode, c)
    ensures var s := Run(decode, EMPTY, Staging(c) + [Leave(0, Unidentified)]);
            s.calls.Keys == {0} && Ended(s.calls[0]) && s.disk.entries.Keys == {Temp(7)}
    ensures var s := Run(decode, EMPTY, Staging(c) + [Step(0, Pick(7, 1, 0)), Fault(0, false), Leave(0, NotClosed)]);
            s.calls.Keys == {0} && Ended(s.calls[0]) && s.disk.entries.Keys == {Temp(7)}
  {
    StagesAlone(decode, c);
    RunMore(decode, EMPTY, Staging(c), Leave(0, Unidentified));
    RunMore(decode, EMPTY, Staging(c), Step(0, Pick(7, 1, 0)));
    var writing := Staging(c) + [Step(0, Pick(7, 1, 0))];
    RunMore(decode, EMPTY, writing, Fault(0, false));
    RunMore(decode, EMPTY, writing + [Fault(0, false)], Leave(0, NotClosed));
    assert writing + [Fault(0, false)] + [Leave(0, NotClosed)]
        == Staging(c) + [Step(0, Pick(7, 1, 0)), Fault(0, false), Leave(0, NotClosed)];
  }
}
