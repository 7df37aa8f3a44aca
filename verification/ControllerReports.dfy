/** What the result of an approval-gated call says, in terms of what it did and of what it saw. */

module ControllerReports {
  import opened Text
  import opened Controllers
  import opened ControllerGate

  // ----------------------------------------------------------- when a call returned

  predicate HasReturned(s: System, id: nat) { id in s.calls && s.calls[id].phase.Done? }

  /** Event n is the step with which id's call returned what it reports at the end. */
  predicate ReturnsAt(env: Env, start: int, events: seq<Event>, id: nat, n: nat) {
    && n < |events| && events[n].Step? && events[n].id == id
    && var s, m := Run(env, Empty(start), events), Run(env, Empty(start), events[..n]);
       && HasReturned(s, id) && id in m.calls && !Ended(m.calls[id])
       && s.calls[id] == CallStep(env, id, m.calls[id], m.world, events[n].pick).0
  }

  lemma ReturnsByStep(env: Env, s: System, e: Event, id: nat)
    requires HasReturned(After(env, s, e), id) && !HasReturned(s, id)
    ensures e.Step? && e.id == id && id in s.calls && !Ended(s.calls[id])
    ensures After(env, s, e).calls[id] == CallStep(env, id, s.calls[id], s.world, e.pick).0
  {
  }

  lemma StaysReturned(env: Env, s: System, e: Event, id: nat)
    requires HasReturned(s, id)
    ensures HasReturned(After(env, s, e), id) && After(env, s, e).calls[id] == s.calls[id]
  {
  }

  lemma {:induction false} Returned(env: Env, start: int, events: seq<Event>, id: nat) returns (n: nat)
    requires HasReturned(Run(env, Empty(start), events), id)
    ensures ReturnsAt(env, start, events, id, n)
    decreases |events|
  {
    var before, e := events[..|events| - 1], events[|events| - 1];
    var m := Run(env, Empty(start), before);
    if HasReturned(m, id) {
      n := Returned(env, start, before, id);
      StaysReturned(env, m, e, id);
      assert events[..n] == before[..n];
    } else {
      ReturnsByStep(env, m, e, id);
      n := |events| - 1;
    }
  }

  // ------------------------------------------------------------------ one step

  /** The result tells what the call would do: a plan, or an application in check mode, of an item or of permissions. */
  predicate Forecasts(c: Call) {
    match c.action
    case SecretItem(_, _, _, operation) => operation.Plan? || (operation.Apply? && c.checkMode)
    case KeyItem(_, _, operation) => operation.Plan? || (operation.Apply? && c.checkMode)
    case CoManager(_, _, _, operation) => !operation.Apply? || c.checkMode
    case _ => false
  }

  predicate HasAll(p: Provider, vault: Text, user: Text, required: seq<Text>) {
    forall permission :: permission in required ==> permission in Granted(p, vault, user)
  }

  /** The item with the title, or one of the required permissions, is not there. */
  predicate Lacks(p: Provider, action: Action) {
    match action
    case SecretItem(where, _, _, _) => forall k :: 0 <= k < |p.items| ==> !Titled(p.items[k], where)
    case KeyItem(where, _, _) => forall k :: 0 <= k < |p.items| ==> !Titled(p.items[k], where)
    case CoManager(vault, user, required, _) => !HasAll(p, vault, user, required)
    case _ => false
  }

  lemma MissingNone(p: Provider, vault: Text, user: Text, required: seq<Text>)
    ensures Missing(required, Granted(p, vault, user)) == [] <==> HasAll(p, vault, user, required)
  {
    var missing := Missing(required, Granted(p, vault, user));
    if missing != [] { assert missing[0] in missing; }
  }

  lemma GrantSays(c: Call, p: Provider, again: bool)
    requires c.action.CoManager? && (again ==> Mutating(c))
    requires GrantInspected(c, Missing(c.action.required, Granted(p, c.action.vault, c.action.user)), again).Done?
    ensures var report := GrantInspected(c, Missing(c.action.required, Granted(p, c.action.vault, c.action.user)), again).report;
            && (Changed(report) <==> Forecasts(c) && Lacks(p, c.action))
            && (!Forecasts(c) ==> report == Satisfied([]) && HasAll(p, c.action.vault, c.action.user, c.action.required))
  {
    MissingNone(p, c.action.vault, c.action.user, c.action.required);
  }

  lemma ItemSeen(p: Provider, action: Action)
    requires action.SecretItem? || action.KeyItem?
    ensures match InspectItem(p.items, action)
            case Nothing => Lacks(p, action)
            case One(_, _) => !Lacks(p, action)
            case Drift => true
  {
    var rows := Matches(p.items, action.where, false, |p.items|);
    if rows != [] { assert Titled(p.items[rows[0]], action.where); }
  }

  lemma ItemSays(c: Call, seen: Seen)
    requires (c.action.SecretItem? || c.action.KeyItem?) && ItemInspected(c, seen).Done?
    ensures !seen.Drift? && (Changed(ItemInspected(c, seen).report) <==> Forecasts(c) && seen.Nothing?)
  {
  }

  lemma InspectionSays(env: Env, c: Call, p: Provider, again: bool)
    requires PhaseFits(env, c) && c.phase == Inspecting(again) && Inspected(env, c, p, again).Done?
    ensures Changed(Inspected(env, c, p, again).report) <==> Forecasts(c) && Lacks(p, c.action)
  {
    if c.action.CoManager? {
      GrantSays(c, p, again);
    } else if c.action.SecretItem? || c.action.KeyItem? {
      ItemSeen(p, c.action);
      ItemSays(c, InspectItem(p.items, c.action));
    }
  }

  /** The result of a step: changed means an effect of the call, or a forecast of something missing. */
  lemma StepSays(env: Env, id: nat, c: Call, w: World, pick: Pick)
    requires GateInvariant(env, w.markers, c) && !Ended(c) && CallStep(env, id, c, w, pick).0.phase.Done?
    ensures var c' := CallStep(env, id, c, w, pick).0;
            Changed(c'.phase.report) <==> c'.acted || (Forecasts(c) && Lacks(w.provider, c.action))
  {
    if c.phase.Inspecting? {
      InspectionSays(env, c, w.provider, c.phase.again);
    } else {
      ReturnsLate(env, id, c, w, pick);
      LateSays(env, c, w, CallStep(env, id, c, w, pick).0.phase);
    }
  }

  /** A call that returns after its inspections: it had its effect, or is one for a native document. */
  lemma ReturnsLate(env: Env, id: nat, c: Call, w: World, pick: Pick)
    requires GateInvariant(env, w.markers, c) && !Ended(c) && CallStep(env, id, c, w, pick).0.phase.Done?
    requires !c.phase.Inspecting?
    ensures c.phase.Confirming? || (c.phase.Rechecking? && (c.action.Document? || c.action.Retrieval?))
  {
    if c.phase.Downloading? {
      if c.action.Document? || c.action.Retrieval? { DownloadGoesOn(env, c, w.provider); }
    } else if c.phase.Acting? {
      ActShape(env, id, c, w, pick);
    }
  }

  lemma LateSays(env: Env, c: Call, w: World, phase: Phase)
    requires GateInvariant(env, w.markers, c) && phase.Done?
    requires if c.phase.Confirming? then phase == Confirmed(env, c, w.provider)
             else c.phase.Rechecking? && phase == Rechecked(env, c, w.provider)
    ensures (Changed(phase.report) <==> c.acted) && (c.acted ==> !Forecasts(c))
  {
    if c.phase.Confirming? { ConfirmationGoesOn(env, c, w.provider); } else { RecheckGoesOn(env, c, w.provider); }
  }

  // ------------------------------------------------------------- main results

  /**
   * Over every run: a call returned `changed` exactly when it had its effect, or it was a plan or in check mode and
   * saw, when it returned, that the item or a permission is missing; never both.
   */
  lemma ChangedExactly(env: Env, start: int, events: seq<Event>, id: nat) returns (n: nat)
    requires HasReturned(Run(env, Empty(start), events), id)
    ensures ReturnsAt(env, start, events, id, n)
    ensures var s, m := Run(env, Empty(start), events), Run(env, Empty(start), events[..n]);
            var c := s.calls[id];
            && (Changed(c.phase.report) <==> id in s.world.effects || (Forecasts(c) && Lacks(m.world.provider, c.action)))
            && !(id in s.world.effects && Forecasts(c))
  {
    n := Returned(env, start, events, id);
    var s, m := Run(env, Empty(start), events), Run(env, Empty(start), events[..n]);
    Reachable(env, start, events);
    Reachable(env, start, events[..n]);
    StepSays(env, id, m.calls[id], m.world, events[n].pick);
    StepMoves(env, id, m.calls[id], m.world, events[n].pick);
    assert GateInvariant(env, s.world.markers, s.calls[id]);
    assert id in s.world.effects <==> s.calls[id].acted;
  }

  /**
   * Over every run: when an application of permissions outside check mode has returned, every required permission was
   * granted at that moment and none is reported missing, whether it found or granted them.
   */
  lemma GrantIsComplete(env: Env, start: int, events: seq<Event>, id: nat) returns (n: nat)
    requires HasReturned(Run(env, Empty(start), events), id)
    requires var c := Run(env, Empty(start), events).calls[id];
             c.action.CoManager? && c.action.operation.Apply? && !c.checkMode
    ensures ReturnsAt(env, start, events, id, n)
    ensures var s, m := Run(env, Empty(start), events), Run(env, Empty(start), events[..n]);
            var action := s.calls[id].action;
            && HasAll(m.world.provider, action.vault, action.user, action.required)
            && s.calls[id].phase.report == if id in s.world.effects then GrantedAll([]) else Satisfied([])
  {
    n := Returned(env, start, events, id);
    var s, m := Run(env, Empty(start), events), Run(env, Empty(start), events[..n]);
    Reachable(env, start, events);
    Reachable(env, start, events[..n]);
    StepMoves(env, id, m.calls[id], m.world, events[n].pick);
    StepGrants(env, id, m.calls[id], m.world, events[n].pick);
    assert GateInvariant(env, s.world.markers, s.calls[id]);
    assert id in s.world.effects <==> s.calls[id].acted;
  }

  lemma StepGrants(env: Env, id: nat, c: Call, w: World, pick: Pick)
    requires GateInvariant(env, w.markers, c) && !Ended(c) && CallStep(env, id, c, w, pick).0.phase.Done?
    requires c.action.CoManager? && c.action.operation.Apply? && !c.checkMode
    ensures var c' := CallStep(env, id, c, w, pick).0;
            && HasAll(w.provider, c.action.vault, c.action.user, c.action.required)
            && c'.phase.report == if c'.acted then GrantedAll([]) else Satisfied([])
  {
    if c.phase.Inspecting? {
      GrantSays(c, w.provider, c.phase.again);
    } else {
      ReturnsLate(env, id, c, w, pick);
      ConfirmationGoesOn(env, c, w.provider);
      MissingNone(w.provider, c.action.vault, c.action.user, c.action.required);
    }
  }
}
