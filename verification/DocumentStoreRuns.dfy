/** What every interleaving of document-store calls keeps, whoever faults or crashes. */

module DocumentStoreRuns {
  import opened Outcomes
  import opened DocumentStore

  // ------------------------------------------------------- one call's invariant

  predicate TargetIs(disk: Disk, i: Inode) { Named(disk, Target, i) && i in disk.files }

  /** A reader holds the target's inode, and what it read is a beginning of its content. */
  predicate ReadSoFar(disk: Disk, step: ReadStep) {
    match step
    case StatPath => true
    case OpenPath(path) => TargetIs(disk, path)
    case StatFile(path, file) => TargetIs(disk, path) && path == file
    case Chunks(file, read) => TargetIs(disk, file) && read <= Content(disk, file)
    case StatAgain(file, read) => TargetIs(disk, file) && read == Content(disk, file)
    case StatPathAgain(file, read, _, size) => TargetIs(disk, file) && read == Content(disk, file) && size == |read|
  }

  /** What the staged file holds in each phase. */
  predicate Staged(disk: Disk, c: Call, stage: Stage) {
    && stage.inode in disk.files
    && (Holding(c) ==> Named(disk, Temp(stage.token), stage.inode))
    && (c.linked ==> Named(disk, Target, stage.inode))
    && (c.linked || c.phase.Link? || c.phase.Unlink? || c.phase.Sync? ==> Content(disk, stage.inode) == Cipher(c))
    && (c.phase.Identify? ==> Content(disk, stage.inode) == [])
    && (c.phase.Write? ==> c.phase.written <= |Cipher(c)| && Content(disk, stage.inode) == Cipher(c)[..c.phase.written])
    && (c.phase.Check? ==> Content(disk, stage.inode) == Cipher(c))
  }

  /** `created` is set only by the link, and a result was read from the target and accepted. */
  predicate CallInvariant(decode: Codec, disk: Disk, c: Call) {
    && (c.stage.Some? || c.phase.Open? ==> Prepared(decode, c))
    && (c.stage.Some? ==> Staged(disk, c, c.stage.value))
    && (c.stage.None? ==> !c.linked && (c.phase.Reading? || c.phase.Open? || Ended(c)))
    && (c.phase.Open? || (c.phase.Reading? && c.phase.purpose.First?) ==> c.stage.None?)
    && (c.phase.Identify? || c.phase.Write? || c.phase.Check? || c.phase.Link? ==> !c.linked)
    && (c.phase.Reading? ==> (c.phase.purpose.Confirm? <==> c.linked) && ReadSoFar(disk, c.phase.step))
    && (c.phase.Done? ==> Returned(decode, disk, c))
  }

  predicate Returned(decode: Codec, disk: Disk, c: Call)
    requires c.phase.Done?
  {
    && c.phase.created == c.linked
    && (c.phase.created ==> c.phase.exists_)
    && (c.phase.exists_ ==>
          && Target in disk.entries
          && c.phase.bytes == Content(disk, disk.entries[Target])
          && Accepts(decode, c.request, c.phase.bytes))
  }

  // ------------------------------------------------------------- the system's

  predicate DistinctFiles(s: System) {
    forall i, j :: i in s.calls && j in s.calls && i != j && s.calls[i].stage.Some? && s.calls[j].stage.Some?
      ==> s.calls[i].stage.value.inode != s.calls[j].stage.value.inode
  }

  /** id's call is the one that linked the target. */
  predicate Won(s: System, id: nat) {
    id in s.calls && s.calls[id].linked
  }

  /** id's call made the staging name, and has not removed it. */
  predicate Leaves(s: System, id: nat, token: nat) {
    && id in s.calls && Temp(token) in s.disk.entries
    && s.calls[id].stage == Some(Stage(token, s.disk.entries[Temp(token)])) && Holding(s.calls[id])
  }

  ghost predicate Invariant(decode: Codec, s: System) {
    && (forall id :: id in s.calls ==> CallInvariant(decode, s.disk, s.calls[id]))
    && DistinctFiles(s)
    && (forall n :: n in s.disk.entries ==> s.disk.entries[n] in s.disk.files)
    && (Target in s.disk.entries ==> exists id :: Won(s, id))
    && (forall token :: Temp(token) in s.disk.entries ==> exists id :: Leaves(s, id, token))
  }

  // ------------------------------------------------------------ steps of a call

  /** What a step on a staged file may change, as everyone else sees it. */
  predicate Moves(disk: Disk, disk': Disk, stage: Stage) {
    && (forall n :: n in disk.entries && n != Temp(stage.token) ==> Named(disk', n, disk.entries[n]))
    && (forall i :: i in disk.files ==> i in disk'.files)
    && (forall i :: i in disk.files && (i != stage.inode || Named(disk, Target, i)) ==> disk'.files[i] == disk.files[i])
  }

  lemma OtherKept(decode: Codec, disk: Disk, disk': Disk, stage: Stage, c: Call)
    requires CallInvariant(decode, disk, c) && Moves(disk, disk', stage)
    requires Target in disk.entries ==> disk.entries[Target] in disk.files
    requires c.stage.Some? ==> c.stage.value.inode != stage.inode
    requires Holding(c) ==> c.stage.value.token != stage.token
    ensures CallInvariant(decode, disk', c)
  {
    if c.stage.Some? { assert Staged(disk', c, c.stage.value); }
    if c.phase.Reading? { assert ReadSoFar(disk', c.phase.step); }
  }

  /** A read finds nothing but the target's whole content. */
  lemma ReadFindsTarget(limit: nat, step: ReadStep, disk: Disk, pick: Pick)
    requires ReadSoFar(disk, step) && (Target in disk.entries ==> disk.entries[Target] in disk.files)
    ensures match ReadNext(limit, step, disk, pick)
            case Go(next) => ReadSoFar(disk, next)
            case Got(Found(b)) => Target in disk.entries && b == Content(disk, disk.entries[Target])
            case Got(_) => true
  {
    if step.Chunks? {
      var content, read := Content(disk, step.file), step.read;
      assert content == read + content[|read|..];
    }
  }

  lemma ResolvedKept(decode: Codec, disk: Disk, c: Call, o: Outcome)
    requires CallInvariant(decode, disk, c) && c.phase.Reading?
    requires o.Found? ==> Target in disk.entries && o.bytes == Content(disk, disk.entries[Target])
    ensures CallInvariant(decode, disk, Resolved(decode, c, c.phase.purpose, o))
  {
  }

  lemma ReadingKept(decode: Codec, disk: Disk, c: Call, pick: Pick)
    requires CallInvariant(decode, disk, c) && c.phase.Reading?
    requires Target in disk.entries ==> disk.entries[Target] in disk.files
    ensures CallInvariant(decode, disk, CallStep(decode, c, disk, pick).0)
  {
    ReadFindsTarget(c.limit, c.phase.step, disk, pick);
    var progress := ReadNext(c.limit, c.phase.step, disk, pick);
    if progress.Got? { ResolvedKept(decode, disk, c, progress.outcome); }
  }

  lemma StageStepMoves(decode: Codec, c: Call, stage: Stage, disk: Disk, pick: Pick)
    requires CallInvariant(decode, disk, c) && c.stage == Some(stage) && !c.phase.Reading? && !c.phase.Open?
    requires !c.linked ==> !Named(disk, Target, stage.inode)
    ensures Moves(disk, StageStep(c, stage, disk, pick).1, stage)
  {
  }

  lemma StageStepKeeps(decode: Codec, c: Call, stage: Stage, disk: Disk, pick: Pick)
    requires CallInvariant(decode, disk, c) && c.stage == Some(stage) && !c.phase.Reading? && !c.phase.Open?
    requires !c.linked ==> !Named(disk, Target, stage.inode)
    ensures var (c', disk') := StageStep(c, stage, disk, pick); CallInvariant(decode, disk', c')
  {
    var (c', disk') := StageStep(c, stage, disk, pick);
    if c.phase.Write? && c.phase.written < |Cipher(c)| {
      var n := c'.phase.written;
      assert Cipher(c)[..n] == Cipher(c)[..c.phase.written] + Cipher(c)[c.phase.written..n];
    }
    assert Staged(disk', c', stage);
  }

  // -------------------------------------------------------- steps of the system

  predicate StillLeaves(c: Call, c': Call) { Holding(c) ==> Holding(c') }

  /** An event that leaves the directory alone. */
  lemma QuietKeeps(decode: Codec, s: System, id: nat, c': Call)
    requires Invariant(decode, s) && id in s.calls && CallInvariant(decode, s.disk, c')
    requires c'.stage == s.calls[id].stage && c'.linked == s.calls[id].linked && StillLeaves(s.calls[id], c')
    ensures Invariant(decode, s.(calls := s.calls[id := c']))
  {
    var s' := s.(calls := s.calls[id := c']);
    if Target in s.disk.entries {
      var w :| Won(s, w);
      assert Won(s', w);
    }
    forall token | Temp(token) in s'.disk.entries ensures exists w :: Leaves(s', w, token) {
      var w :| Leaves(s, w, token);
      assert Leaves(s', w, token);
    }
  }

  /** Staged files of different calls are different, and so are the staging names still in use. */
  lemma OwnFile(decode: Codec, s: System, id: nat)
    requires Invariant(decode, s) && id in s.calls && s.calls[id].stage.Some?
    ensures var stage := s.calls[id].stage.value;
            && (!s.calls[id].linked ==> !Named(s.disk, Target, stage.inode))
            && forall w | w in s.calls && w != id && s.calls[w].stage.Some? ::
                 && s.calls[w].stage.value.inode != stage.inode
                 && (Holding(s.calls[w]) && Holding(s.calls[id]) ==> s.calls[w].stage.value.token != stage.token)
  {
    if Target in s.disk.entries {
      var w :| Won(s, w);
      assert CallInvariant(decode, s.disk, s.calls[w]);
    }
  }

  /** What id's call may do to its staged file and its names. */
  predicate OwnNames(s: System, id: nat, c': Call, disk': Disk, stage: Stage) {
    && c'.stage == Some(stage)
    && (id in s.calls && s.calls[id].linked ==> c'.linked)
    && (forall n :: n in disk'.entries ==> disk'.entries[n] in disk'.files)
    && (Target in disk'.entries && Target !in s.disk.entries ==> c'.linked)
    && (forall n :: n in disk'.entries && n != Temp(stage.token) && n != Target ==> Named(s.disk, n, disk'.entries[n]))
    && (Temp(stage.token) in disk'.entries ==>
          disk'.entries[Temp(stage.token)] == stage.inode && Holding(c'))
  }

  lemma MovesKeep(decode: Codec, s: System, id: nat, c': Call, disk': Disk, stage: Stage)
    requires Invariant(decode, s) && id in s.calls && CallInvariant(decode, disk', c')
    requires Moves(s.disk, disk', stage) && OwnNames(s, id, c', disk', stage)
    requires forall w | w in s.calls && w != id && s.calls[w].stage.Some? ::
               && s.calls[w].stage.value.inode != stage.inode
               && (Holding(s.calls[w]) ==> s.calls[w].stage.value.token != stage.token)
    requires s.calls[id].stage == Some(stage) || Temp(stage.token) !in s.disk.entries
    requires s.calls[id].stage == Some(stage) || s.calls[id].stage.None?
    ensures Invariant(decode, System(disk', s.calls[id := c']))
  {
    var s' := System(disk', s.calls[id := c']);
    forall w | w in s'.calls ensures CallInvariant(decode, disk', s'.calls[w]) {
      if w != id { OtherKept(decode, s.disk, disk', stage, s.calls[w]); }
    }
    TargetStaysWon(s, id, c', disk', stage);
    NamesStayHeld(s, id, c', disk', stage);
  }

  lemma TargetStaysWon(s: System, id: nat, c': Call, disk': Disk, stage: Stage)
    requires (Target in s.disk.entries ==> exists w :: Won(s, w)) && id in s.calls && OwnNames(s, id, c', disk', stage)
    ensures var s' := System(disk', s.calls[id := c']); Target in disk'.entries ==> exists w :: Won(s', w)
  {
    var s' := System(disk', s.calls[id := c']);
    if Target in disk'.entries {
      if Target in s.disk.entries {
        var w :| Won(s, w);
        assert Won(s', w);
      } else {
        assert Won(s', id);
      }
    }
  }

  lemma NamesStayHeld(s: System, id: nat, c': Call, disk': Disk, stage: Stage)
    requires forall token :: Temp(token) in s.disk.entries ==> exists w :: Leaves(s, w, token)
    requires id in s.calls && OwnNames(s, id, c', disk', stage)
    requires s.calls[id].stage == Some(stage) || s.calls[id].stage.None?
    ensures var s' := System(disk', s.calls[id := c']);
            forall token :: Temp(token) in disk'.entries ==> exists w :: Leaves(s', w, token)
  {
    var s' := System(disk', s.calls[id := c']);
    forall token | Temp(token) in disk'.entries ensures exists w :: Leaves(s', w, token) {
      if token == stage.token {
        assert Leaves(s', id, token);
      } else {
        assert Named(s.disk, Temp(token), disk'.entries[Temp(token)]);
        var w :| Leaves(s, w, token);
        assert Leaves(s', w, token);
      }
    }
  }

  lemma StageStepOwns(decode: Codec, s: System, id: nat, stage: Stage, pick: Pick)
    requires Invariant(decode, s) && id in s.calls && Holding(s.calls[id]) && s.calls[id].stage == Some(stage)
    ensures var (c', disk') := StageStep(s.calls[id], stage, s.disk, pick); OwnNames(s, id, c', disk', stage)
  {
    assert CallInvariant(decode, s.disk, s.calls[id]);
  }

  lemma StageStepKeepsAll(decode: Codec, s: System, id: nat, pick: Pick)
    requires Invariant(decode, s) && id in s.calls && s.calls[id].stage.Some?
    requires Holding(s.calls[id])
    ensures Invariant(decode, After(decode, s, Step(id, pick)))
  {
    var c := s.calls[id];
    var stage := c.stage.value;
    OwnFile(decode, s, id);
    StageStepMoves(decode, c, stage, s.disk, pick);
    StageStepKeeps(decode, c, stage, s.disk, pick);
    StageStepOwns(decode, s, id, stage, pick);
    var (c', disk') := StageStep(c, stage, s.disk, pick);
    MovesKeep(decode, s, id, c', disk', stage);
  }

  lemma OpenKeepsAll(decode: Codec, s: System, id: nat, pick: Pick)
    requires Invariant(decode, s) && id in s.calls && s.calls[id].phase.Open?
    ensures Invariant(decode, After(decode, s, Step(id, pick)))
  {
    var c := s.calls[id];
    var (c', disk') := OpenStep(c, s.disk, pick);
    if disk' == s.disk {
      QuietKeeps(decode, s, id, c');
    } else {
      var stage := Stage(pick.token, pick.inode);
      assert Staged(disk', c', stage);
      MovesKeep(decode, s, id, c', disk', stage);
    }
  }

  lemma StepKeeps(decode: Codec, s: System, id: nat, pick: Pick)
    requires Invariant(decode, s) && id in s.calls
    ensures Invariant(decode, After(decode, s, Step(id, pick)))
  {
    var c := s.calls[id];
    if c.phase.Reading? {
      ReadingKept(decode, s.disk, c, pick);
      QuietKeeps(decode, s, id, CallStep(decode, c, s.disk, pick).0);
    } else if c.phase.Open? {
      OpenKeepsAll(decode, s, id, pick);
    } else if Holding(c) {
      StageStepKeepsAll(decode, s, id, pick);
    } else {
      var (c', disk') := CallStep(decode, c, s.disk, pick);
      assert disk' == s.disk;
      QuietKeeps(decode, s, id, c');
    }
  }

  lemma FaultKept(decode: Codec, disk: Disk, c: Call, caught: bool)
    requires CallInvariant(decode, disk, c)
    ensures CallInvariant(decode, disk, Faulted(decode, c, caught)) && StillLeaves(c, Faulted(decode, c, caught))
    ensures forall why :: CallInvariant(decode, disk, LeftBehind(c, why)) && StillLeaves(c, LeftBehind(c, why))
    ensures !Ended(c) ==> CallInvariant(decode, disk, c.(phase := Crashed(Holding(c))))
  {
    if c.stage.Some? { assert Staged(disk, c, c.stage.value); }
  }

  lemma EventKeeps(decode: Codec, s: System, e: Event)
    requires Invariant(decode, s)
    ensures Invariant(decode, After(decode, s, e))
  {
    if e.Start? {
      StartKeeps(decode, s, e.id, e.call);
    } else if e.id in s.calls {
      FaultKept(decode, s.disk, s.calls[e.id], e.Fault? && e.caught);
      match e
      case Step(id, pick) => StepKeeps(decode, s, id, pick);
      case Fault(id, caught) => QuietKeeps(decode, s, id, Faulted(decode, s.calls[id], caught));
      case Leave(id, why) => QuietKeeps(decode, s, id, LeftBehind(s.calls[id], why));
      case Crash(id) =>
        if !Ended(s.calls[id]) { QuietKeeps(decode, s, id, s.calls[id].(phase := Crashed(Holding(s.calls[id])))); }
    }
  }

  lemma StartKeeps(decode: Codec, s: System, id: nat, call: Call)
    requires Invariant(decode, s)
    ensures Invariant(decode, After(decode, s, Start(id, call)))
  {
    var s' := After(decode, s, Start(id, call));
    if s' != s {
      if Target in s.disk.entries {
        var w :| Won(s, w);
        assert Won(s', w);
      }
      forall token | Temp(token) in s'.disk.entries ensures exists w :: Leaves(s', w, token) {
        var w :| Leaves(s, w, token);
        assert Leaves(s', w, token);
      }
    }
  }

  /** From a state that keeps the invariant, as the empty directory does, every run keeps it. */
  lemma {:induction false} RunKeepsInvariant(decode: Codec, s: System, events: seq<Event>)
    requires Invariant(decode, s)
    ensures Invariant(decode, Run(decode, s, events))
    decreases |events|
  {
    if events != [] {
      RunKeepsInvariant(decode, s, events[..|events| - 1]);
      EventKeeps(decode, Run(decode, s, events[..|events| - 1]), events[|events| - 1]);
    }
  }

  lemma RunMore(decode: Codec, s: System, trace: seq<Event>, e: Event)
    ensures Run(decode, s, trace + [e]) == After(decode, Run(decode, s, trace), e)
  {
    assert (trace + [e])[..|trace|] == trace;
  }

  lemma Reachable(decode: Codec, events: seq<Event>)
    ensures Invariant(decode, Run(decode, EMPTY, events))
  {
    RunKeepsInvariant(decode, EMPTY, events);
  }
}
