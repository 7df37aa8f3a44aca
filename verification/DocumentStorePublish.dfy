/** An undisturbed call for an absent document publishes it, in a bounded number of its own system calls. */

module DocumentStorePublish {
  import opened Outcomes
  import opened Text
  import opened DocumentStore
  import opened DocumentStoreRuns
  import opened DocumentStoreProgress

  // --------------------------------------------------------------- on the way

  /** The system picks a name and an inode that are not in use. */
  predicate FreshPick(disk: Disk, pick: Pick) { Temp(pick.token) !in disk.entries && pick.inode !in disk.files }

  /** So it does whenever id's call opens a staging file. */
  predicate Lucky(decode: Codec, s: System, events: seq<Event>, id: nat)
    decreases |events|
  {
    events != [] ==>
      var before, e := events[..|events| - 1], events[|events| - 1];
      var m := Run(decode, s, before);
      && Lucky(decode, s, before, id)
      && (e.Step? && e.id == id && id in m.calls && m.calls[id].phase.Open? ==> FreshPick(m.disk, e.pick))
  }

  predicate OnlyWinner(s: System, id: nat) { forall w :: w in s.calls && s.calls[w].linked ==> w == id }

  /** The call applies, and what it encrypted will be accepted. */
  predicate Publishable(decode: Codec, c: Call) {
    !c.checkMode && Prepared(decode, c) && Accepts(decode, c.request, Cipher(c))
  }

  /** Nothing has gone wrong so far. */
  predicate OnTrack(decode: Codec, s: System, c: Call) {
    && Publishable(decode, c)
    && if c.linked then OnItsWay(decode, s, c)
       else c.phase == Reading(First, StatPath) || c.phase == Open(0) || c.phase.Identify? || c.phase.Write?
            || c.phase.Check? || c.phase.Link?
  }

  /** The system calls it still needs, at most. */
  function ToGo(c: Call): int {
    var n := |Cipher(c)|;
    match c.phase
    case Reading(purpose, step) => if purpose.First? then 2 * n + 14 else Left(n, step)
    case Open(_) => 2 * n + 13
    case Identify => 2 * n + 12
    case Write(written) => 2 * n + 11 - written
    case Check => n + 10
    case Link => n + 9
    case Unlink => n + 8
    case Sync => n + 7
    case _ => 0
  }

  /** With no other winner, the name is free until the call links it. */
  lemma NameIsFree(decode: Codec, s: System, id: nat)
    requires Invariant(decode, s) && id in s.calls && OnlyWinner(s, id) && !s.calls[id].linked
    ensures Target !in s.disk.entries
  {
    forall w ensures !Won(s, w) { }
  }

  // ---------------------------------------------------------------- its steps

  lemma PreparesOn(decode: Codec, s: System, id: nat, pick: Pick)
    requires Invariant(decode, s) && id in s.calls && OnlyWinner(s, id)
    requires OnTrack(decode, s, s.calls[id]) && !s.calls[id].linked
    requires s.calls[id].phase.Open? ==> FreshPick(s.disk, pick)
    ensures var s' := After(decode, s, Step(id, pick));
            OnTrack(decode, s', s'.calls[id]) && ToGo(s'.calls[id]) < ToGo(s.calls[id])
  {
    var c := s.calls[id];
    NameIsFree(decode, s, id);
    assert CallInvariant(decode, s.disk, c);
    if c.stage.Some? { StagesOn(decode, s.disk, c, c.stage.value, pick); }
  }

  lemma StagesOn(decode: Codec, disk: Disk, c: Call, stage: Stage, pick: Pick)
    requires CallInvariant(decode, disk, c) && c.stage == Some(stage) && !c.linked && Target !in disk.entries
    requires c.phase.Identify? || c.phase.Write? || c.phase.Check? || c.phase.Link?
    ensures var c' := StageStep(c, stage, disk, pick).0;
            && c' == c.(phase := c'.phase, linked := c'.linked) && ToGo(c') < ToGo(c)
            && if c.phase.Link? then c'.linked && c'.phase.Unlink?
               else !c'.linked && (c'.phase.Write? || c'.phase.Check? || c'.phase.Link?)
  {
  }

  lemma LinkedOn(decode: Codec, s: System, id: nat, pick: Pick)
    requires Invariant(decode, s) && Won(s, id) && OnTrack(decode, s, s.calls[id])
    ensures var s' := After(decode, s, Step(id, pick));
            && OnTrack(decode, s', s'.calls[id])
            && (s'.calls[id].phase.Done? || ToGo(s'.calls[id]) < ToGo(s.calls[id]))
  {
    var c := s.calls[id];
    assert CallInvariant(decode, s.disk, c);
    WinnerSteps(decode, s, id, pick);
    KeepsItsOrder(decode, s, Step(id, pick), id);
    StaysWon(decode, s, Step(id, pick), id);
    if c.phase.Reading? {
      WinnerSettles(decode, s, id);
      ReadsOn(decode, s, id, pick);
    } else if c.phase.Unlink? || c.phase.Sync? {
      UnlinksOn(decode, s.disk, c, c.stage.value, pick);
    }
  }

  lemma UnlinksOn(decode: Codec, disk: Disk, c: Call, stage: Stage, pick: Pick)
    requires CallInvariant(decode, disk, c) && c.stage == Some(stage) && c.linked && (c.phase.Unlink? || c.phase.Sync?)
    ensures var c' := StageStep(c, stage, disk, pick).0;
            c' == c.(phase := c'.phase) && ToGo(c') < ToGo(c)
  {
  }

  lemma StaysWon(decode: Codec, s: System, e: Event, id: nat)
    requires Won(s, id)
    ensures Won(After(decode, s, e), id)
  {
  }

  lemma OthersPass(decode: Codec, s: System, e: Event, id: nat)
    requires Invariant(decode, s) && id in s.calls && e.id != id && OnTrack(decode, s, s.calls[id])
    ensures var s' := After(decode, s, e);
            id in s'.calls && s'.calls[id] == s.calls[id] && OnTrack(decode, s', s'.calls[id])
  {
    OthersLeaveAlone(decode, s, e, id);
    if s.calls[id].linked { WinnerWaits(decode, s, e, id); }
  }

  lemma EventAdvances(decode: Codec, s: System, e: Event, id: nat)
    requires Invariant(decode, s) && id in s.calls && OnlyWinner(s, id) && OnTrack(decode, s, s.calls[id])
    requires Undisturbed(e, id) && (e.Step? && e.id == id && s.calls[id].phase.Open? ==> FreshPick(s.disk, e.pick))
    ensures var s' := After(decode, s, e);
            && id in s'.calls && OnTrack(decode, s', s'.calls[id]) && s'.calls[id].request == s.calls[id].request
            && s'.calls[id].ciphertext == s.calls[id].ciphertext
            && (s'.calls[id].phase.Done?
                || ToGo(s'.calls[id]) + (if e.Step? && e.id == id then 1 else 0) <= ToGo(s.calls[id]))
  {
    KeepsItsOrder(decode, s, e, id);
    if e.id != id {
      OthersPass(decode, s, e, id);
    } else if e.Step? {
      if s.calls[id].linked { LinkedOn(decode, s, id, e.pick); } else { PreparesOn(decode, s, id, e.pick); }
    }
  }

  // ------------------------------------------------------------------- runs

  lemma EarlierOnlyWinner(decode: Codec, s: System, e: Event, id: nat)
    requires OnlyWinner(After(decode, s, e), id)
    ensures OnlyWinner(s, id)
  {
    forall w | w in s.calls && s.calls[w].linked ensures w == id { StaysWon(decode, s, e, w); }
  }

  /** Whatever the others do, short of linking their own file: the call stays on its way and comes closer. */
  lemma {:induction false} Advances(decode: Codec, s: System, events: seq<Event>, id: nat)
    requires Invariant(decode, s) && id in s.calls && OnTrack(decode, s, s.calls[id])
    requires OnlyWinner(Run(decode, s, events), id) && Lucky(decode, s, events, id)
    requires forall i :: 0 <= i < |events| ==> Undisturbed(events[i], id)
    ensures var s' := Run(decode, s, events);
            && id in s'.calls && OnTrack(decode, s', s'.calls[id]) && s'.calls[id].ciphertext == s.calls[id].ciphertext
            && (s'.calls[id].phase.Done? || ToGo(s'.calls[id]) + StepsOf(events, id) <= ToGo(s.calls[id]))
    ensures OnlyWinner(s, id)
    decreases |events|
  {
    if events != [] {
      var before, e := events[..|events| - 1], events[|events| - 1];
      EarlierOnlyWinner(decode, Run(decode, s, before), e, id);
      Advances(decode, s, before, id);
      RunKeepsInvariant(decode, s, before);
      EventAdvances(decode, Run(decode, s, before), e, id);
    }
  }

  /** A call that is on its way and has ended has returned its document. */
  lemma EndsCreated(decode: Codec, s: System, id: nat)
    requires Invariant(decode, s) && id in s.calls && OnTrack(decode, s, s.calls[id]) && Ended(s.calls[id])
    ensures s.calls[id].phase == Done(true, true, Cipher(s.calls[id]))
    ensures Target in s.disk.entries && Content(s.disk, s.disk.entries[Target]) == Cipher(s.calls[id])
  {
    assert CallInvariant(decode, s.disk, s.calls[id]);
  }

  /**
   * From an absent document: a call outside check mode whose ciphertext is accepted, with no error of its own and no other
   * call that links first, has created the document after at most twice its size and 14 of its own system calls.
   */
  lemma Publishes(decode: Codec, events: seq<Event>, more: seq<Event>, id: nat)
    requires var s := Run(decode, EMPTY, events);
             && id in s.calls && Fresh(s.calls[id]) && Publishable(decode, s.calls[id])
             && OnlyWinner(Run(decode, s, more), id) && Lucky(decode, s, more, id)
             && StepsOf(more, id) >= 2 * |Cipher(s.calls[id])| + 14
    requires forall i :: 0 <= i < |more| ==> Undisturbed(more[i], id)
    ensures var s, s' := Run(decode, EMPTY, events), Run(decode, Run(decode, EMPTY, events), more);
            && id in s'.calls && s'.calls[id].phase == Done(true, true, Cipher(s.calls[id]))
            && Target in s'.disk.entries && Content(s'.disk, s'.disk.entries[Target]) == Cipher(s.calls[id])
  {
    var s := Run(decode, EMPTY, events);
    Reachable(decode, events);
    RunKeepsInvariant(decode, s, more);
    Advances(decode, s, more, id);
    NothingToGo(decode, Run(decode, s, more), id);
    EndsCreated(decode, Run(decode, s, more), id);
  }

  lemma NothingToGo(decode: Codec, s: System, id: nat)
    requires Invariant(decode, s) && id in s.calls && OnTrack(decode, s, s.calls[id])
    ensures s.calls[id].phase.Done? || ToGo(s.calls[id]) > 0
  {
    assert CallInvariant(decode, s.disk, s.calls[id]);
  }

  // ------------------------------------------------- from the beginning of a run

  /** Nothing went wrong for id's call in this run, and no other call has linked. */
  predicate Smooth(decode: Codec, events: seq<Event>, id: nat) {
    && (forall i :: 0 <= i < |events| ==> Undisturbed(events[i], id))
    && Lucky(decode, EMPTY, events, id) && OnlyWinner(Run(decode, EMPTY, events), id)
  }

  lemma StartedOnTrack(decode: Codec, s: System, e: Event, id: nat)
    requires id !in s.calls && id in After(decode, s, e).calls && Publishable(decode, After(decode, s, e).calls[id])
    ensures OnTrack(decode, After(decode, s, e), After(decode, s, e).calls[id])
  {
  }

  lemma StaysPublishable(decode: Codec, s: System, e: Event, id: nat)
    requires id in s.calls && Publishable(decode, After(decode, s, e).calls[id])
    ensures Publishable(decode, s.calls[id])
  {
    KeepsItsOrder(decode, s, e, id);
  }

  lemma {:induction false} AlwaysOnTrack(decode: Codec, events: seq<Event>, id: nat)
    requires Smooth(decode, events, id)
    requires id in Run(decode, EMPTY, events).calls && Publishable(decode, Run(decode, EMPTY, events).calls[id])
    ensures OnTrack(decode, Run(decode, EMPTY, events), Run(decode, EMPTY, events).calls[id])
    decreases |events|
  {
    var before, e := events[..|events| - 1], events[|events| - 1];
    var m := Run(decode, EMPTY, before);
    EarlierOnlyWinner(decode, m, e, id);
    if id in m.calls {
      StaysPublishable(decode, m, e, id);
      AlwaysOnTrack(decode, before, id);
      Reachable(decode, before);
      EventAdvances(decode, m, e, id);
    } else {
      StartedOnTrack(decode, m, e, id);
    }
  }

  /** Such a call, once it has ended, has returned `created`, and its ciphertext is the document. */
  lemma SmoothCallCreates(decode: Codec, events: seq<Event>, id: nat)
    requires Smooth(decode, events, id)
    requires var s := Run(decode, EMPTY, events);
             id in s.calls && Publishable(decode, s.calls[id]) && Ended(s.calls[id])
    ensures var s := Run(decode, EMPTY, events);
            && s.calls[id].phase == Done(true, true, Cipher(s.calls[id]))
            && Target in s.disk.entries && Content(s.disk, s.disk.entries[Target]) == Cipher(s.calls[id])
  {
    Reachable(decode, events);
    AlwaysOnTrack(decode, events, id);
    EndsCreated(decode, Run(decode, EMPTY, events), id);
  }

  // --------------------------------------------------------- the other callers

  /** A call that stages its file although the document is there already, or reads it. */
  predicate Losing(decode: Codec, s: System, c: Call) {
    && !c.linked && Settled(s) && |Published(s)| <= c.limit && Accepts(decode, c.request, Published(s))
    && (c.phase == Open(0) || c.phase.Identify? || c.phase.Write? || c.phase.Check? || c.phase.Link? || c.phase.Unlink?
        || c.phase.Sync? || ReadsWell(decode, s, c) || c.phase == Done(false, true, Published(s)))
  }

  /** The system calls it still needs, at most, to return a document of this size. */
  function ToReturn(c: Call, size: nat): int {
    var n := |Cipher(c)|;
    match c.phase
    case Reading(_, step) => Left(size, step)
    case Open(_) => n + size + 13
    case Identify => n + size + 12
    case Write(written) => n + size + 11 - written
    case Check => size + 10
    case Link => size + 9
    case Unlink => size + 8
    case Sync => size + 7
    case _ => 0
  }

  lemma LosesOn(decode: Codec, s: System, id: nat, pick: Pick)
    requires Invariant(decode, s) && id in s.calls && Losing(decode, s, s.calls[id])
    requires s.calls[id].phase.Open? ==> FreshPick(s.disk, pick)
    ensures var s' := After(decode, s, Step(id, pick));
            && Losing(decode, s', s'.calls[id])
            && (s'.calls[id].phase.Done? || ToReturn(s'.calls[id], |Published(s)|) < ToReturn(s.calls[id], |Published(s)|))
            && Published(s') == Published(s)
  {
    var c := s.calls[id];
    assert CallInvariant(decode, s.disk, c);
    SettledStays(decode, s, Step(id, pick));
    KeepsItsOrder(decode, s, Step(id, pick), id);
    if c.phase.Reading? {
      ReadsOn(decode, s, id, pick);
    } else if c.stage.Some? && !c.phase.Done? {
      LosingStage(decode, s.disk, c, c.stage.value, pick, |Published(s)|);
    }
  }

  lemma LosingStage(decode: Codec, disk: Disk, c: Call, stage: Stage, pick: Pick, size: nat)
    requires CallInvariant(decode, disk, c) && c.stage == Some(stage) && !c.linked && Target in disk.entries
    requires c.phase.Identify? || c.phase.Write? || c.phase.Check? || c.phase.Link? || c.phase.Unlink? || c.phase.Sync?
    ensures var c' := StageStep(c, stage, disk, pick).0;
            && c' == c.(phase := c'.phase) && ToReturn(c', size) < ToReturn(c, size)
            && (c'.phase.Write? || c'.phase.Check? || c'.phase.Link? || c'.phase.Unlink? || c'.phase.Sync?
                || c'.phase == Reading(Race(0), StatPath))
  {
  }

  /** id's call is losing to the document b, and needs at most that many system calls to return it. */
  predicate Loses(decode: Codec, s: System, id: nat, b: Bytes, most: int) {
    && id in s.calls && Losing(decode, s, s.calls[id]) && Published(s) == b
    && (s.calls[id].phase.Done? || ToReturn(s.calls[id], |b|) <= most)
  }

  lemma LosingEvent(decode: Codec, s: System, e: Event, id: nat, b: Bytes, most: int)
    requires Invariant(decode, s) && Loses(decode, s, id, b, most) && Undisturbed(e, id)
    requires e.Step? && e.id == id && s.calls[id].phase.Open? ==> FreshPick(s.disk, e.pick)
    ensures Loses(decode, After(decode, s, e), id, b, most - if e.Step? && e.id == id then 1 else 0)
  {
    SettledStays(decode, s, e);
    if e.id != id { OthersLeaveAlone(decode, s, e, id); }
    else if e.Step? { LosesOn(decode, s, id, e.pick); }
  }

  lemma {:induction false} LosingRun(decode: Codec, s: System, events: seq<Event>, id: nat, b: Bytes, most: int)
    requires Invariant(decode, s) && Loses(decode, s, id, b, most) && Lucky(decode, s, events, id)
    requires forall i :: 0 <= i < |events| ==> Undisturbed(events[i], id)
    ensures Loses(decode, Run(decode, s, events), id, b, most - StepsOf(events, id))
    decreases |events|
  {
    if events != [] {
      var before, e := events[..|events| - 1], events[|events| - 1];
      LosingRun(decode, s, before, id, b, most);
      RunKeepsInvariant(decode, s, before);
      LosingEvent(decode, Run(decode, s, before), e, id, b, most - StepsOf(before, id));
    }
  }

  /**
   * A call that loses the race to a document it accepts returns that document, not created, after at most the sizes of its
   * ciphertext and of the document and 13 of its own system calls.
   */
  lemma RacerReturns(decode: Codec, events: seq<Event>, more: seq<Event>, id: nat)
    requires var s := Run(decode, EMPTY, events);
             && id in s.calls && Losing(decode, s, s.calls[id]) && Lucky(decode, s, more, id)
             && StepsOf(more, id) >= |Cipher(s.calls[id])| + |Published(s)| + 13
    requires forall i :: 0 <= i < |more| ==> Undisturbed(more[i], id)
    ensures var s, s' := Run(decode, EMPTY, events), Run(decode, Run(decode, EMPTY, events), more);
            id in s'.calls && s'.calls[id].phase == Done(false, true, Published(s))
  {
    var s := Run(decode, EMPTY, events);
    Reachable(decode, events);
    AtMost(decode, s, id);
    LosingRun(decode, s, more, id, Published(s), |Cipher(s.calls[id])| + |Published(s)| + 13);
    RunKeepsInvariant(decode, s, more);
    AtLeast(decode, Run(decode, s, more), id);
  }

  lemma AtMost(decode: Codec, s: System, id: nat)
    requires Invariant(decode, s) && id in s.calls && Losing(decode, s, s.calls[id])
    ensures ToReturn(s.calls[id], |Published(s)|) <= |Cipher(s.calls[id])| + |Published(s)| + 13
  {
    assert CallInvariant(decode, s.disk, s.calls[id]);
  }

  lemma AtLeast(decode: Codec, s: System, id: nat)
    requires Invariant(decode, s) && id in s.calls && Losing(decode, s, s.calls[id])
    ensures s.calls[id].phase.Done? || ToReturn(s.calls[id], |Published(s)|) > 0
  {
    assert CallInvariant(decode, s.disk, s.calls[id]);
  }

  /** Check mode reports an absent document at its first system call. */
  lemma CheckModePlans(decode: Codec, s: System, id: nat, pick: Pick)
    requires id in s.calls && Fresh(s.calls[id]) && s.calls[id].checkMode && Target !in s.disk.entries
    ensures After(decode, s, Step(id, pick)).calls[id].phase == Done(false, false, [])
  {
  }
}
