/** Calls that nothing disturbs: the winner confirms, later callers find the document, check mode writes nothing. */

module DocumentStoreProgress {
  import opened Outcomes
  import opened Text
  import opened DocumentStore
  import opened DocumentStoreRuns
  import opened DocumentStoreTheorems

  // ------------------------------------------------------------ settled targets

  /** The published document has its one name. */
  predicate Settled(s: System) {
    && Target in s.disk.entries
    && s.disk.entries[Target] in s.disk.files
    && HardLinks(s.disk, s.disk.entries[Target]) == 1
  }

  function Published(s: System): Bytes { if Target in s.disk.entries then Content(s.disk, s.disk.entries[Target]) else [] }

  lemma SettledStays(decode: Codec, s: System, e: Event)
    requires Invariant(decode, s) && Settled(s)
    ensures Settled(After(decode, s, e)) && Published(After(decode, s, e)) == Published(s)
    ensures After(decode, s, e).disk.entries[Target] == s.disk.entries[Target]
  {
    EventSettles(decode, s, e);
    EventKeeps(decode, s, e);
    var i := s.disk.entries[Target];
    var names, names' := Names(s.disk, i), Names(After(decode, s, e).disk, i);
    assert Target in names';
    assert |names - {Target}| == 0;
    assert names == {Target} == names';
  }

  // ---------------------------------------------------------- undisturbed reads

  /** The call reads a document it will accept, and has seen nothing that speaks against it. */
  predicate ReadsWell(decode: Codec, s: System, c: Call) {
    && c.phase.Reading?
    && (c.phase.step.StatPathAgain? ==> c.phase.step.links == 1)
    && |Published(s)| <= c.limit
    && Accepts(decode, c.request, Published(s))
  }

  /** System calls left in a read of size bytes, at most. */
  function Left(size: nat, step: ReadStep): nat {
    match step
    case StatPath => size + 6
    case OpenPath(_) => size + 5
    case StatFile(_, _) => size + 4
    case Chunks(_, read) => (if |read| <= size then size - |read| else 0) + 3
    case StatAgain(_, _) => 2
    case StatPathAgain(_, _, _, _) => 1
  }

  predicate Undisturbed(e: Event, id: nat) {
    (e.Fault? || e.Leave? || e.Crash?) ==> e.id != id
  }

  lemma ReadsOn(decode: Codec, s: System, id: nat, pick: Pick)
    requires Invariant(decode, s) && Settled(s) && id in s.calls && ReadsWell(decode, s, s.calls[id])
    ensures var c, c' := s.calls[id], After(decode, s, Step(id, pick)).calls[id];
            if c'.phase.Reading?
            then ReadsWell(decode, s, c') && c' == c.(phase := c'.phase) && c'.phase.purpose == c.phase.purpose
                 && Left(|Published(s)|, c'.phase.step) < Left(|Published(s)|, c.phase.step)
            else c' == c.(phase := Done(c.phase.purpose.Confirm?, true, Published(s)))
  {
    var c := s.calls[id];
    assert CallInvariant(decode, s.disk, c);
    if c.phase.step.Chunks? {
      var content, read := Content(s.disk, c.phase.step.file), c.phase.step.read;
      assert content == read + content[|read|..];
    }
  }

  lemma OthersLeaveAlone(decode: Codec, s: System, e: Event, id: nat)
    requires id in s.calls && e.id != id
    ensures id in After(decode, s, e).calls && After(decode, s, e).calls[id] == s.calls[id]
  {
  }

  function StepsOf(events: seq<Event>, id: nat): nat
    decreases |events|
  {
    if events == [] then 0 else
      StepsOf(events[..|events| - 1], id)
      + if events[|events| - 1].Step? && events[|events| - 1].id == id then 1 else 0
  }

  /** Once the target is settled, a call that reads it undisturbed only comes closer to returning it. */
  lemma {:induction false} SettledReads(decode: Codec, s: System, events: seq<Event>, id: nat)
    requires Invariant(decode, s) && Settled(s) && id in s.calls && ReadsWell(decode, s, s.calls[id])
    requires forall i :: 0 <= i < |events| ==> Undisturbed(events[i], id)
    ensures var s' := Run(decode, s, events);
            && Settled(s') && Published(s') == Published(s) && id in s'.calls
            && var c, c' := s.calls[id], s'.calls[id];
               if c'.phase.Reading?
               then ReadsWell(decode, s', c') && c'.phase.purpose == c.phase.purpose
                    && Left(|Published(s)|, c'.phase.step) + StepsOf(events, id) <= Left(|Published(s)|, c.phase.step)
               else c'.phase == Done(c.phase.purpose.Confirm?, true, Published(s))
    decreases |events|
  {
    if events != [] {
      var before, e := events[..|events| - 1], events[|events| - 1];
      SettledReads(decode, s, before, id);
      RunKeepsInvariant(decode, s, before);
      var m := Run(decode, s, before);
      SettledStays(decode, m, e);
      if e.id != id {
        OthersLeaveAlone(decode, m, e, id);
      } else if e.Step? && m.calls[id].phase.Reading? {
        ReadsOn(decode, m, id, e.pick);
      }
    }
  }

  /** Such a call returns the document after at most its size and six system calls, whatever the others do. */
  lemma LateCallReturns(decode: Codec, events: seq<Event>, more: seq<Event>, id: nat)
    requires var s := Run(decode, EMPTY, events);
             && Settled(s) && id in s.calls && ReadsWell(decode, s, s.calls[id]) && s.calls[id].phase.step.StatPath?
             && StepsOf(more, id) >= |Published(s)| + 6
    requires forall i :: 0 <= i < |more| ==> Undisturbed(more[i], id)
    ensures var s := Run(decode, EMPTY, events);
            && id in Run(decode, s, more).calls
            && Run(decode, s, more).calls[id].phase == Done(s.calls[id].phase.purpose.Confirm?, true, Published(s))
  {
    Reachable(decode, events);
    SettledReads(decode, Run(decode, EMPTY, events), more, id);
  }

  // ------------------------------------------------------------------ the winner

  /** After its link a call is on its way to reporting the document it created. */
  predicate OnItsWay(decode: Codec, s: System, c: Call) {
    && c.linked
    && (c.phase.Unlink? || c.phase.Sync?
        || (c.phase.Reading? && ReadsWell(decode, s, c))
        || c.phase == Done(true, true, Cipher(c)))
  }

  lemma WinnerSettles(decode: Codec, s: System, id: nat)
    requires Invariant(decode, s) && Won(s, id) && (s.calls[id].phase.Sync? || s.calls[id].phase.Reading?)
    ensures Settled(s) && Published(s) == Cipher(s.calls[id])
  {
    assert CallInvariant(decode, s.disk, s.calls[id]);
    TargetNames(decode, s, id);
  }

  lemma WinnerSteps(decode: Codec, s: System, id: nat, pick: Pick)
    requires Invariant(decode, s) && Won(s, id) && Accepts(decode, s.calls[id].request, Cipher(s.calls[id]))
    requires OnItsWay(decode, s, s.calls[id])
    ensures var s' := After(decode, s, Step(id, pick)); OnItsWay(decode, s', s'.calls[id])
  {
    var c := s.calls[id];
    assert CallInvariant(decode, s.disk, c);
    if c.phase.Sync? {
      WinnerSettles(decode, s, id);
    } else if c.phase.Reading? {
      WinnerSettles(decode, s, id);
      ReadsOn(decode, s, id, pick);
      SettledStays(decode, s, Step(id, pick));
    }
  }

  lemma WinnerWaits(decode: Codec, s: System, e: Event, id: nat)
    requires Invariant(decode, s) && Won(s, id) && e.id != id && OnItsWay(decode, s, s.calls[id])
    ensures var s' := After(decode, s, e); id in s'.calls && OnItsWay(decode, s', s'.calls[id])
  {
    OthersLeaveAlone(decode, s, e, id);
    if s.calls[id].phase.Reading? {
      WinnerSettles(decode, s, id);
      SettledStays(decode, s, e);
    }
  }

  /** A call is linked only by its own step. */
  lemma LinksItself(decode: Codec, s: System, e: Event, id: nat)
    requires !Won(s, id) && Won(After(decode, s, e), id)
    ensures After(decode, s, e).calls[id].phase.Unlink?
    ensures id in s.calls && After(decode, s, e).calls[id].request == s.calls[id].request
    ensures Cipher(After(decode, s, e).calls[id]) == Cipher(s.calls[id])
  {
  }

  lemma KeepsItsOrder(decode: Codec, s: System, e: Event, id: nat)
    requires id in s.calls
    ensures var s' := After(decode, s, e);
            id in s'.calls && s'.calls[id].request == s.calls[id].request && s'.calls[id].ciphertext == s.calls[id].ciphertext
            && s'.calls[id].checkMode == s.calls[id].checkMode
  {
  }

  /** The winner's own check of an accepted ciphertext cannot fail, nor meet a link count other than one. */
  lemma {:induction false} WinnerSucceeds(decode: Codec, events: seq<Event>, id: nat)
    requires Won(Run(decode, EMPTY, events), id)
    requires var c := Run(decode, EMPTY, events).calls[id]; Accepts(decode, c.request, Cipher(c))
    requires forall i :: 0 <= i < |events| ==> Undisturbed(events[i], id)
    ensures var s := Run(decode, EMPTY, events); OnItsWay(decode, s, s.calls[id])
    decreases |events|
  {
    var before, e := events[..|events| - 1], events[|events| - 1];
    var m := Run(decode, EMPTY, before);
    Reachable(decode, before);
    if Won(m, id) {
      KeepsItsOrder(decode, m, e, id);
      WinnerSucceeds(decode, before, id);
      if e.id != id {
        WinnerWaits(decode, m, e, id);
      } else if e.Step? {
        WinnerSteps(decode, m, id, e.pick);
      }
    } else {
      LinksItself(decode, m, e, id);
    }
  }

  /** So a call of `ensure_exact` that linked its file and met no error returns created, or is still running. */
  lemma ExactWinnerReturnsCreated(decode: Codec, events: seq<Event>, id: nat)
    requires Won(Run(decode, EMPTY, events), id) && Run(decode, EMPTY, events).calls[id].request.Exact?
    requires forall i :: 0 <= i < |events| ==> Undisturbed(events[i], id)
    requires Ended(Run(decode, EMPTY, events).calls[id])
    ensures var c := Run(decode, EMPTY, events).calls[id]; c.phase == Done(true, true, Cipher(c))
  {
    Reachable(decode, events);
    assert CallInvariant(decode, Run(decode, EMPTY, events).disk, Run(decode, EMPTY, events).calls[id]);
    WinnerSucceeds(decode, events, id);
  }

  // ------------------------------------------------------------------ check mode

  /** Check mode never opens a staging file; only it reports a missing document. */
  predicate Plans(c: Call) {
    && (c.checkMode ==> c.stage.None? && !c.linked && !c.phase.Open?)
    && (c.phase.Done? && !c.phase.exists_ ==> c.checkMode)
  }

  lemma EventPlans(decode: Codec, s: System, e: Event, id: nat)
    requires id in After(decode, s, e).calls && (id in s.calls ==> Plans(s.calls[id]))
    ensures Plans(After(decode, s, e).calls[id])
  {
  }

  lemma {:induction false} CheckModeWritesNothing(decode: Codec, events: seq<Event>, id: nat)
    requires id in Run(decode, EMPTY, events).calls
    ensures Plans(Run(decode, EMPTY, events).calls[id])
    decreases |events|
  {
    var before := events[..|events| - 1];
    if id in Run(decode, EMPTY, before).calls { CheckModeWritesNothing(decode, before, id); }
    EventPlans(decode, Run(decode, EMPTY, before), events[|events| - 1], id);
  }
}
