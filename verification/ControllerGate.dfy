/** One claim per approval identity, inside its window, and no mutation without its own claim: over every run. */

module ControllerGate {
  import opened Outcomes
  import opened Text
  import opened Json
  import opened Approvals
  import opened Controllers
  import opened Lists

  // ------------------------------------------------------ one call's invariant

  function CallIdentity(c: Call): Identity { IdentityOf(c.authority, c.approval) }

  /** What normalizing left is the approval's own window, identity and directory. */
  predicate FromApproval(env: Env, c: Call) {
    && c.pending.Some?
    && ValidApproval(env.calendar, c.approval) && ValidAuthority(c.authority)
    && c.pending.value.issuedAt == c.approval.issuedAt && c.pending.value.expiresAt == c.approval.expiresAt
    && c.pending.value.replayDigest == ReplayDigest(env.hash, CallIdentity(c))
    && c.pending.value.directory == c.directory
  }

  function MarkerOf(env: Env, c: Call): Marker { (c.directory, ReplayDigest(env.hash, CallIdentity(c))) }

  predicate ClaimableAt(env: Env, c: Call, at: int) {
    ValidApproval(env.calendar, c.approval) && InWindow(env.calendar, c.approval.issuedAt, c.approval.expiresAt, at)
  }

  /** Reports of calls that mutated the provider or delivered a secret. */
  predicate Made(report: Report) { Changed(report) && !report.Planned? }

  /** How far the phase says the call came. */
  predicate PhaseFits(env: Env, c: Call) {
    match c.phase
    case Normalizing => !c.spent && (c.action.Document? ==> Mutating(c))
    case Inspecting(again) => !c.spent && (again || ApprovedFirst(c.action) ==> c.pending.Some?) && (again ==> Mutating(c))
    case Claiming => !c.spent && c.pending.Some? && Mutating(c)
    case Marking(at) => !c.spent && c.pending.Some? && Mutating(c) && ClaimableAt(env, c, at)
    case Recording(at) => c.spent && c.claimed.None? && ClaimableAt(env, c, at)
    case Preparing => c.claimed.Some? && !c.acted
    case Acting => c.claimed.Some? && !c.acted
    case Confirming => c.acted
    case Downloading(_, _) => c.spent ==> c.acted
    case Rechecking(_, _, _) => c.spent ==> c.acted
    case Done(report) => if Made(report) then c.acted else !c.spent
    case _ => true
  }

  predicate GateInvariant(env: Env, markers: set<Marker>, c: Call) {
    && (c.pending.Some? ==> FromApproval(env, c))
    && (c.made.Some? ==> c.acted) && (c.acted ==> c.claimed.Some?)
    && (c.claimed.Some? ==> c.spent && ClaimableAt(env, c, c.claimed.value))
    && (c.spent ==> Mutating(c) && c.pending.Some? && MarkerOf(env, c) in markers)
    && PhaseFits(env, c)
  }

  /** What one step does to the markers, the log of effects and its call. */
  predicate GateMoves(env: Env, id: nat, c: Call, w: World, c': Call, w': World) {
    && c'.authority == c.authority && c'.approval == c.approval && c'.directory == c.directory
    && c'.action == c.action && c'.checkMode == c.checkMode
    && (if c'.spent && !c.spent then w'.markers == w.markers + {MarkerOf(env, c)} && MarkerOf(env, c) !in w.markers
        else w'.markers == w.markers && c'.spent == c.spent)
    && (if c'.acted && !c.acted then w'.effects == w.effects + [id] else w'.effects == w.effects && c'.acted == c.acted)
  }

  lemma NormalizeGives(env: Env, approval: Approval, a: Authority, operation: Text, target: Text, binding: Json,
                       now: int, directory: Directory, markers: set<Marker>)
    requires Normalize(env.hash, env.calendar, env.verify, approval, a, operation, target, binding, now, directory, markers).Ok?
    ensures var pending := Normalize(env.hash, env.calendar, env.verify, approval, a, operation, target, binding, now,
                                     directory, markers).value;
            && ValidApproval(env.calendar, approval) && ValidAuthority(a)
            && pending.issuedAt == approval.issuedAt && pending.expiresAt == approval.expiresAt
            && pending.replayDigest == ReplayDigest(env.hash, IdentityOf(a, approval)) && pending.directory == directory
  {
  }

  lemma NormalizedFromApproval(env: Env, id: nat, c: Call, w: World)
    requires GateInvariant(env, w.markers, c) && c.phase.Normalizing?
    ensures var (c', w') := GateStep(env, c, w); GateInvariant(env, w'.markers, c') && GateMoves(env, id, c, w, c', w')
  {
    var pending := Normalize(env.hash, env.calendar, env.verify, c.approval, c.authority, OperationName(c.action),
                             c.target, c.binding, w.now, c.directory, w.markers);
    if pending.Ok? {
      NormalizeGives(env, c.approval, c.authority, OperationName(c.action), c.target, c.binding, w.now, c.directory, w.markers);
      Pends(env, c, w.markers, pending.value);
    }
  }

  lemma Pends(env: Env, c: Call, markers: set<Marker>, pending: Pending)
    requires GateInvariant(env, markers, c) && c.phase.Normalizing? && FromApproval(env, c.(pending := Some(pending)))
    ensures GateInvariant(env, markers, c.(pending := Some(pending), phase := Inspecting(c.action.Document?)))
  {
  }

  lemma MarkKept(env: Env, id: nat, c: Call, w: World)
    requires GateInvariant(env, w.markers, c) && (c.phase.Claiming? || c.phase.Marking?)
    ensures var (c', w') := GateStep(env, c, w); GateInvariant(env, w'.markers, c') && GateMoves(env, id, c, w, c', w')
  {
  }

  lemma EndedKept(env: Env, id: nat, c: Call, w: World)
    requires GateInvariant(env, w.markers, c) && Ended(c)
    ensures GateStep(env, c, w) == (c, w) && GateMoves(env, id, c, w, c, w)
  {
  }

  lemma GateKept(env: Env, id: nat, c: Call, w: World)
    requires GateInvariant(env, w.markers, c) && (c.phase.Recording? || c.phase.Preparing?)
    ensures var (c', w') := GateStep(env, c, w); GateInvariant(env, w'.markers, c') && GateMoves(env, id, c, w, c', w')
  {
  }

  /** What an inspection may lead to: only a mutating call goes on to its claim, and only without having made one. */
  predicate GoesOn(c: Call, next: Phase) {
    match next
    case Done(report) => report.Planned? || report.Satisfied? || report.Public?
    case Normalizing => c.action.Document? && Mutating(c)
    case Claiming => c.pending.Some? && Mutating(c)
    case Inspecting(again) => again && c.pending.Some? && Mutating(c)
    case Downloading(_, _) => c.action.Document? || c.action.Retrieval?
    case _ => next.Failed?
  }

  lemma DocumentGoesOn(env: Env, c: Call, seen: Seen, again: bool)
    requires PhaseFits(env, c) && c.phase == Inspecting(again) && c.action.Document?
    ensures GoesOn(c, DocumentInspected(c, seen, again))
  {
  }

  lemma GrantGoesOn(env: Env, c: Call, missing: seq<Text>, again: bool)
    requires PhaseFits(env, c) && c.phase == Inspecting(again) && c.action.CoManager?
    ensures GoesOn(c, GrantInspected(c, missing, again))
  {
  }

  lemma ItemGoesOn(env: Env, c: Call, seen: Seen, again: bool)
    requires PhaseFits(env, c) && c.phase == Inspecting(again) && (c.action.SecretItem? || c.action.KeyItem?)
    ensures GoesOn(c, ItemInspected(c, seen))
  {
  }

  lemma InspectionGoesOn(env: Env, c: Call, p: Provider, again: bool)
    requires PhaseFits(env, c) && c.phase == Inspecting(again)
    ensures GoesOn(c, Inspected(env, c, p, again))
  {
    match c.action
    case Document(where, package, _, _) =>
      DocumentGoesOn(env, c, InspectDocument(p.items, where, env.hash(Canonical(package))), again);
    case CoManager(vault, user, required, _) => GrantGoesOn(env, c, Missing(required, Granted(p, vault, user)), again);
    case Retrieval(_, _) =>
    case Delivery =>
    case _ => ItemGoesOn(env, c, InspectItem(p.items, c.action), again);
  }

  lemma InspectionKept(env: Env, c: Call, w: World, again: bool)
    requires GateInvariant(env, w.markers, c) && c.phase == Inspecting(again)
    ensures GateInvariant(env, w.markers, c.(phase := Inspected(env, c, w.provider, again)))
  {
    InspectionGoesOn(env, c, w.provider, again);
  }

  lemma ConfirmationGoesOn(env: Env, c: Call, p: Provider)
    ensures match Confirmed(env, c, p)
            case Done(report) => Made(report) && !report.InCustody? && (report == GrantedAll([]) || !c.action.CoManager?)
            case Downloading(_, _) => c.action.Document?
            case phase => phase.Failed?
  {
  }

  lemma ConfirmationKept(env: Env, c: Call, w: World)
    requires GateInvariant(env, w.markers, c) && c.phase.Confirming?
    ensures GateInvariant(env, w.markers, c.(phase := Confirmed(env, c, w.provider)))
  {
    ConfirmationGoesOn(env, c, w.provider);
  }

  lemma DownloadGoesOn(env: Env, c: Call, p: Provider)
    requires c.phase.Downloading? && (c.action.Document? || c.action.Retrieval?)
    ensures Downloaded(env, c, p).Failed? || Downloaded(env, c, p).Rechecking?
  {
  }

  lemma RecheckGoesOn(env: Env, c: Call, p: Provider)
    requires c.phase.Rechecking?
    ensures match Rechecked(env, c, p)
            case Done(InCustody(created, _, _)) => created == c.acted
            case Done(Retrieved(_, _, _)) => c.action.Retrieval?
            case phase => phase.Failed?
  {
  }

  lemma DownloadKept(env: Env, c: Call, w: World, phase: Phase)
    requires GateInvariant(env, w.markers, c) && (c.spent ==> c.acted)
    requires match phase
             case Done(InCustody(created, _, _)) => created == c.acted
             case Done(Retrieved(_, _, _)) => c.action.Retrieval?
             case _ => phase.Failed? || phase.Rechecking?
    ensures GateInvariant(env, w.markers, c.(phase := phase))
  {
  }

  /** The steps that ask the provider. */
  lemma ProviderStepKept(env: Env, id: nat, c: Call, w: World, pick: Pick)
    requires GateInvariant(env, w.markers, c)
    requires c.phase.Inspecting? || c.phase.Confirming? || c.phase.Downloading? || c.phase.Rechecking?
    ensures var (c', w') := CallStep(env, id, c, w, pick);
            w' == w && c' == c.(phase := c'.phase) && GateInvariant(env, w.markers, c')
  {
    match c.phase
    case Inspecting(again) => InspectionKept(env, c, w, again);
    case Confirming => ConfirmationKept(env, c, w);
    case Downloading(_, _) =>
      if c.action.Document? || c.action.Retrieval? {
        DownloadGoesOn(env, c, w.provider);
        DownloadKept(env, c, w, Downloaded(env, c, w.provider));
      }
    case Rechecking(_, _, _) =>
      RecheckGoesOn(env, c, w.provider);
      DownloadKept(env, c, w, Rechecked(env, c, w.provider));
    case _ =>
  }

  lemma ActShape(env: Env, id: nat, c: Call, w: World, pick: Pick)
    requires c.phase.Acting?
    ensures var (c', w') := ActStep(env, id, c, w, pick);
            || (c' == c && w' == w)
            || (&& c' == c.(acted := true, made := c'.made, phase := c'.phase) && (c'.phase.Confirming? || c'.phase.Failed?)
                && w'.markers == w.markers && w'.effects == w.effects + [id])
  {
  }

  lemma ActedKept(env: Env, markers: set<Marker>, c: Call, made: Option<nat>, phase: Phase)
    requires GateInvariant(env, markers, c) && c.phase.Acting? && (phase.Confirming? || phase.Failed?)
    ensures GateInvariant(env, markers, c.(acted := true, made := made, phase := phase))
  {
  }

  lemma ActKept(env: Env, id: nat, c: Call, w: World, pick: Pick)
    requires GateInvariant(env, w.markers, c) && c.phase.Acting?
    ensures var (c', w') := ActStep(env, id, c, w, pick);
            GateInvariant(env, w'.markers, c') && GateMoves(env, id, c, w, c', w')
  {
    var c' := ActStep(env, id, c, w, pick).0;
    ActShape(env, id, c, w, pick);
    if c' != c { ActedKept(env, w.markers, c, c'.made, c'.phase); }
  }

  lemma StepMoves(env: Env, id: nat, c: Call, w: World, pick: Pick)
    requires GateInvariant(env, w.markers, c)
    ensures var (c', w') := CallStep(env, id, c, w, pick);
            GateInvariant(env, w'.markers, c') && GateMoves(env, id, c, w, c', w')
  {
    if c.phase.Inspecting? || c.phase.Confirming? || c.phase.Downloading? || c.phase.Rechecking? {
      ProviderStepKept(env, id, c, w, pick);
    } else if c.phase.Normalizing? {
      NormalizedFromApproval(env, id, c, w);
    } else if c.phase.Acting? {
      ActKept(env, id, c, w, pick);
    } else if c.phase.Claiming? || c.phase.Marking? {
      MarkKept(env, id, c, w);
    } else if Ended(c) {
      EndedKept(env, id, c, w);
    } else {
      GateKept(env, id, c, w);
    }
  }

  // -------------------------------------------------------------- the system's

  function Spent(s: System): set<nat> { set id | id in s.calls && s.calls[id].spent }

  predicate MarkersDistinct(env: Env, s: System) {
    forall i, j :: i in s.calls && j in s.calls && s.calls[i].spent && s.calls[j].spent && i != j
      ==> MarkerOf(env, s.calls[i]) != MarkerOf(env, s.calls[j])
  }

  predicate Logged(s: System) {
    && Distinct(s.world.effects)
    && (forall i :: 0 <= i < |s.world.effects| ==> s.world.effects[i] in s.calls && s.calls[s.world.effects[i]].acted)
    && (forall id :: id in s.calls && s.calls[id].acted ==> id in s.world.effects)
  }

  predicate Gated(env: Env, s: System) {
    && (forall id :: id in s.calls ==> GateInvariant(env, s.world.markers, s.calls[id]))
    && MarkersDistinct(env, s) && Logged(s)
    && |s.world.markers| == |Spent(s)|
  }

  lemma StaysInvariant(env: Env, c: Call, markers: set<Marker>, markers': set<Marker>)
    requires GateInvariant(env, markers, c) && markers <= markers'
    ensures GateInvariant(env, markers', c)
  {
  }

  lemma CallMoves(env: Env, s: System, id: nat, c': Call, w': World)
    requires Gated(env, s) && id in s.calls
    requires GateInvariant(env, w'.markers, c') && GateMoves(env, id, s.calls[id], s.world, c', w')
    ensures Gated(env, System(w', s.calls[id := c']))
  {
    OthersStay(env, s, id, c', w'.markers, s.calls[id := c']);
    SpentCounted(env, s, id, c', w');
    MarkersStayDistinct(env, s, id, c', w');
    LogGrows(env, s, id, c', w');
  }

  lemma OthersStay(env: Env, s: System, id: nat, c': Call, markers: set<Marker>, calls: map<nat, Call>)
    requires calls == s.calls[id := c']
    requires forall j :: j in s.calls ==> GateInvariant(env, s.world.markers, s.calls[j])
    requires s.world.markers <= markers && GateInvariant(env, markers, c')
    ensures forall j :: j in calls ==> GateInvariant(env, markers, calls[j])
  {
    forall j | j in calls ensures GateInvariant(env, markers, calls[j]) {
      if j != id { StaysInvariant(env, s.calls[j], s.world.markers, markers); }
    }
  }

  lemma SpentCounted(env: Env, s: System, id: nat, c': Call, w': World)
    requires |s.world.markers| == |Spent(s)| && id in s.calls && GateMoves(env, id, s.calls[id], s.world, c', w')
    ensures |w'.markers| == |Spent(System(w', s.calls[id := c']))|
  {
    var s' := System(w', s.calls[id := c']);
    if c'.spent && !s.calls[id].spent {
      assert Spent(s') == Spent(s) + {id};
    } else {
      assert Spent(s') == Spent(s);
    }
  }

  lemma MarkersStayDistinct(env: Env, s: System, id: nat, c': Call, w': World)
    requires Gated(env, s) && id in s.calls && GateMoves(env, id, s.calls[id], s.world, c', w')
    ensures MarkersDistinct(env, System(w', s.calls[id := c']))
  {
    assert MarkerOf(env, c') == MarkerOf(env, s.calls[id]);
    forall j | j in s.calls && j != id && s.calls[j].spent && c'.spent
      ensures MarkerOf(env, s.calls[j]) != MarkerOf(env, c')
    {
      assert GateInvariant(env, s.world.markers, s.calls[j]);
    }
  }

  lemma LogGrows(env: Env, s: System, id: nat, c': Call, w': World)
    requires Gated(env, s) && id in s.calls && GateMoves(env, id, s.calls[id], s.world, c', w')
    ensures Logged(System(w', s.calls[id := c']))
  {
    if c'.acted && !s.calls[id].acted {
      assert id in w'.effects by { assert w'.effects[|s.world.effects|] == id; }
      forall j | j in s.world.effects ensures j in w'.effects {
      }
    }
  }

  lemma StepKeepsGate(env: Env, s: System, id: nat, pick: Pick)
    requires Gated(env, s)
    ensures Gated(env, After(env, s, Step(id, pick)))
  {
    if id in s.calls {
      StepMoves(env, id, s.calls[id], s.world, pick);
      var (c', w') := CallStep(env, id, s.calls[id], s.world, pick);
      CallMoves(env, s, id, c', w');
    }
  }

  lemma StopKeepsGate(env: Env, s: System, id: nat, phase: Phase)
    requires Gated(env, s) && id in s.calls && (phase.Failed? || phase.Crashed?)
    ensures Gated(env, s.(calls := s.calls[id := s.calls[id].(phase := phase)]))
  {
    CallMoves(env, s, id, s.calls[id].(phase := phase), s.world);
  }

  lemma FreshIsGated(env: Env, c: Call, markers: set<Marker>)
    requires Fresh(env, c)
    ensures GateInvariant(env, markers, c)
  {
  }

  lemma StartedIsGated(env: Env, s: System, id: nat, call: Call)
    requires Gated(env, s) && id !in s.calls && !call.spent && !call.acted && GateInvariant(env, s.world.markers, call)
    ensures Gated(env, s.(calls := s.calls[id := call]))
  {
    assert Spent(s.(calls := s.calls[id := call])) == Spent(s);
    OthersStay(env, s, id, call, s.world.markers, s.calls[id := call]);
    StartedIsNew(env, s, id, call);
  }

  lemma StartedIsNew(env: Env, s: System, id: nat, call: Call)
    requires MarkersDistinct(env, s) && Logged(s) && id !in s.calls && !call.spent && !call.acted
    ensures MarkersDistinct(env, s.(calls := s.calls[id := call])) && Logged(s.(calls := s.calls[id := call]))
  {
  }

  lemma StartKeepsGate(env: Env, s: System, id: nat, call: Call)
    requires Gated(env, s)
    ensures Gated(env, After(env, s, Start(id, call)))
  {
    if id !in s.calls && Fresh(env, call) {
      FreshIsGated(env, call, s.world.markers);
      StartedIsGated(env, s, id, call);
    }
  }

  /** Time, and other users of the provider, do not touch the gate. */
  lemma ElsewhereKeepsGate(env: Env, s: System, w': World)
    requires Gated(env, s) && w'.markers == s.world.markers && w'.effects == s.world.effects
    ensures Gated(env, s.(world := w'))
  {
    assert Spent(s.(world := w')) == Spent(s);
  }

  lemma ElsewhereEvent(env: Env, s: System, e: Event)
    requires !e.Start? && !e.Step? && !e.Fault? && !e.Crash?
    ensures var s' := After(env, s, e);
            s' == s.(world := s'.world) && s'.world.markers == s.world.markers && s'.world.effects == s.world.effects
  {
  }

  lemma EventKeepsGate(env: Env, s: System, e: Event)
    requires Gated(env, s)
    ensures Gated(env, After(env, s, e))
  {
    match e
    case Start(id, call) => StartKeepsGate(env, s, id, call);
    case Step(id, pick) => StepKeepsGate(env, s, id, pick);
    case Fault(id) => if id in s.calls && !Ended(s.calls[id]) { StopKeepsGate(env, s, id, Failed); }
    case Crash(id) => if id in s.calls && !Ended(s.calls[id]) { StopKeepsGate(env, s, id, Crashed); }
    case _ =>
      ElsewhereEvent(env, s, e);
      ElsewhereKeepsGate(env, s, After(env, s, e).world);
  }

  lemma {:induction false} RunKeepsGate(env: Env, s: System, events: seq<Event>)
    requires Gated(env, s)
    ensures Gated(env, Run(env, s, events))
    decreases |events|
  {
    if events != [] {
      RunKeepsGate(env, s, events[..|events| - 1]);
      EventKeepsGate(env, Run(env, s, events[..|events| - 1]), events[|events| - 1]);
    }
  }

  lemma Reachable(env: Env, start: int, events: seq<Event>)
    ensures Gated(env, Run(env, Empty(start), events))
  {
    assert Spent(Empty(start)) == {};
    RunKeepsGate(env, Empty(start), events);
  }

  // ------------------------------------------------------------- main results

  /** At most one call consumes an approval identity in a directory, even when its claim then fails. */
  lemma OneClaim(env: Env, start: int, events: seq<Event>, i: nat, j: nat)
    requires var s := Run(env, Empty(start), events);
             && i in s.calls && j in s.calls && s.calls[i].spent && s.calls[j].spent
             && s.calls[i].directory == s.calls[j].directory && CallIdentity(s.calls[i]) == CallIdentity(s.calls[j])
    ensures i == j
  {
    Reachable(env, start, events);
    var s := Run(env, Empty(start), events);
    assert MarkerOf(env, s.calls[i]) == MarkerOf(env, s.calls[j]);
  }

  /** A successful claim lies inside the approval's window, which is at most 960 seconds long. */
  lemma ClaimInWindow(env: Env, start: int, events: seq<Event>, id: nat)
    requires id in Run(env, Empty(start), events).calls && Run(env, Empty(start), events).calls[id].claimed.Some?
    ensures var c := Run(env, Empty(start), events).calls[id];
            && c.spent
            && env.calendar(c.approval.issuedAt).Some? && env.calendar(c.approval.expiresAt).Some?
            && var issued, expires := env.calendar(c.approval.issuedAt).value, env.calendar(c.approval.expiresAt).value;
               && issued - 60 * SECOND <= c.claimed.value < expires
               && expires - (issued - 60 * SECOND) <= 960 * SECOND
  {
    Reachable(env, start, events);
    var s := Run(env, Empty(start), events);
    assert GateInvariant(env, s.world.markers, s.calls[id]);
  }

  lemma {:induction false} DistinctBelow(ids: seq<nat>, all: set<nat>)
    requires Distinct(ids) && forall i :: 0 <= i < |ids| ==> ids[i] in all
    ensures |ids| <= |all|
  {
    if ids != [] {
      var last := ids[|ids| - 1];
      DistinctBelow(ids[..|ids| - 1], all - {last});
    }
  }

  /** Every mutation or delivery is its call's only one, after its own claim; so they never outnumber the markers. */
  lemma MutationBudget(env: Env, start: int, events: seq<Event>)
    ensures var s := Run(env, Empty(start), events);
            && Distinct(s.world.effects)
            && (forall i :: 0 <= i < |s.world.effects| ==>
                  var id := s.world.effects[i];
                  id in s.calls && s.calls[id].claimed.Some? && Mutating(s.calls[id])
                  && MarkerOf(env, s.calls[id]) in s.world.markers)
            && |s.world.effects| <= |s.world.markers|
  {
    Reachable(env, start, events);
    var s := Run(env, Empty(start), events);
    forall i | 0 <= i < |s.world.effects|
      ensures s.world.effects[i] in s.calls && s.world.effects[i] in Spent(s)
      ensures s.calls[s.world.effects[i]].claimed.Some? && Mutating(s.calls[s.world.effects[i]])
      ensures MarkerOf(env, s.calls[s.world.effects[i]]) in s.world.markers
    {
      assert GateInvariant(env, s.world.markers, s.calls[s.world.effects[i]]);
    }
    DistinctBelow(s.world.effects, Spent(s));
  }

  /** Plan, check-mode and satisfied calls consume no approval and mutate nothing; a call that reports its effect had it. */
  lemma OnlyClaimsChange(env: Env, start: int, events: seq<Event>, id: nat)
    requires id in Run(env, Empty(start), events).calls
    ensures var s := Run(env, Empty(start), events);
            && (!Mutating(s.calls[id]) ==> !s.calls[id].spent && id !in s.world.effects)
            && (s.calls[id].phase.Done? ==>
                  if Made(s.calls[id].phase.report) then id in s.world.effects && s.calls[id].claimed.Some?
                  else !s.calls[id].spent && id !in s.world.effects)
  {
    Reachable(env, start, events);
    var s := Run(env, Empty(start), events);
    assert GateInvariant(env, s.world.markers, s.calls[id]);
    if id in s.world.effects { assert s.calls[id].acted; }
  }
}
