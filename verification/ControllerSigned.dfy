/** Nothing is claimed, mutated or delivered without the authority's signature over exactly that; and what is signed passes. */

module ControllerSigned {
  import opened Outcomes
  import opened Text
  import opened Json
  import opened JsonProofs
  import opened Package
  import opened Approvals
  import opened Controllers
  import opened ControllerGate

  /** The contract that a call needs signed: its own authority, approval, operation, target and binding. */
  function OrderOf(c: Call): Contract { ContractOf(c.authority, c.approval, OperationName(c.action), c.target, c.binding) }

  function SignedBytes(c: Call): Bytes { Canonical(Payload(OrderOf(c))) }

  predicate Signed(env: Env, c: Call) { env.verify(c.authority, c.approval.signature, SignedBytes(c)) }

  predicate SignedIfPending(env: Env, c: Call) { c.pending.Some? ==> Signed(env, c) }

  // ------------------------------------------------------------------- runs

  lemma NormalizeSigned(env: Env, c: Call, now: int, markers: set<Marker>)
    requires Normalize(env.hash, env.calendar, env.verify, c.approval, c.authority, OperationName(c.action), c.target,
                       c.binding, now, c.directory, markers).Ok?
    ensures Signed(env, c)
  {
  }

  /** A call gets what it claims with only from a normalization. */
  lemma PendingFromNormalizing(env: Env, id: nat, c: Call, w: World, pick: Pick)
    ensures var c' := CallStep(env, id, c, w, pick).0;
            && c'.authority == c.authority && c'.approval == c.approval && c'.action == c.action
            && c'.target == c.target && c'.binding == c.binding
            && (c'.pending != c.pending ==>
                  c.phase.Normalizing?
                  && Normalize(env.hash, env.calendar, env.verify, c.approval, c.authority, OperationName(c.action), c.target,
                               c.binding, w.now, c.directory, w.markers).Ok?)
  {
  }

  lemma SameSigned(env: Env, c: Call, c': Call)
    requires c'.authority == c.authority && c'.approval == c.approval && c'.action == c.action
    requires c'.target == c.target && c'.binding == c.binding
    ensures Signed(env, c') == Signed(env, c)
  {
  }

  lemma StepSigned(env: Env, id: nat, c: Call, w: World, pick: Pick)
    requires SignedIfPending(env, c)
    ensures SignedIfPending(env, CallStep(env, id, c, w, pick).0)
  {
    var c' := CallStep(env, id, c, w, pick).0;
    PendingFromNormalizing(env, id, c, w, pick);
    SameSigned(env, c, c');
    if c'.pending != c.pending { NormalizeSigned(env, c, w.now, w.markers); }
  }

  /** An event that is not id's own step changes at most the phase of its call. */
  lemma OnlyPhase(env: Env, s: System, e: Event, id: nat)
    requires id in s.calls && !(e.Step? && e.id == id)
    ensures id in After(env, s, e).calls
    ensures After(env, s, e).calls[id] == s.calls[id].(phase := After(env, s, e).calls[id].phase)
  {
    if e.Step? && e.id in s.calls {
      var c := CallStep(env, e.id, s.calls[e.id], s.world, e.pick).0;
      assert After(env, s, e).calls == s.calls[e.id := c];
    }
  }

  lemma OwnStep(env: Env, s: System, id: nat, pick: Pick)
    requires id in s.calls
    ensures After(env, s, Step(id, pick)).calls == s.calls[id := CallStep(env, id, s.calls[id], s.world, pick).0]
  {
  }

  lemma EventSigned(env: Env, s: System, e: Event, id: nat)
    requires id in After(env, s, e).calls && (id in s.calls ==> SignedIfPending(env, s.calls[id]))
    ensures SignedIfPending(env, After(env, s, e).calls[id])
  {
    if e.Step? && e.id == id && id in s.calls {
      OwnStep(env, s, id, e.pick);
      StepSigned(env, id, s.calls[id], s.world, e.pick);
    } else if id in s.calls {
      OnlyPhase(env, s, e, id);
      SameSigned(env, s.calls[id], After(env, s, e).calls[id]);
    }
  }

  lemma {:induction false} RunSigned(env: Env, start: int, events: seq<Event>, id: nat)
    requires id in Run(env, Empty(start), events).calls
    ensures SignedIfPending(env, Run(env, Empty(start), events).calls[id])
    decreases |events|
  {
    var before := events[..|events| - 1];
    var m := Run(env, Empty(start), before);
    if id in m.calls { RunSigned(env, start, before, id); }
    EventSigned(env, m, events[|events| - 1], id);
  }

  // ------------------------------------------------------------- main results

  /** Over every run: a call that consumed an approval was signed for exactly what it does; so was every effect. */
  lemma ClaimsAreSigned(env: Env, start: int, events: seq<Event>, id: nat)
    requires id in Run(env, Empty(start), events).calls
    ensures var s := Run(env, Empty(start), events);
            s.calls[id].spent || s.calls[id].claimed.Some? || s.calls[id].acted || id in s.world.effects ==>
              Signed(env, s.calls[id])
  {
    var s := Run(env, Empty(start), events);
    Reachable(env, start, events);
    RunSigned(env, start, events, id);
    assert GateInvariant(env, s.world.markers, s.calls[id]);
  }

  /** Over every run: a document is created only under a signature over its own digest and its package's subject. */
  lemma DocumentsAreSigned(env: Env, start: int, events: seq<Event>, id: nat)
    requires id in Run(env, Empty(start), events).calls
    ensures var c := Run(env, Empty(start), events).calls[id];
            c.acted && c.action.Document? ==> Signed(env, c) && BoundToPackage(env.hash, c)
  {
    ClaimsAreSigned(env, start, events, id);
    RunBound(env, start, events, id);
  }

  lemma EventBound(env: Env, s: System, e: Event, id: nat)
    requires id in After(env, s, e).calls && (id in s.calls ==> BoundToPackage(env.hash, s.calls[id]))
    ensures BoundToPackage(env.hash, After(env, s, e).calls[id])
  {
    if e.Step? && e.id == id && id in s.calls {
      PendingFromNormalizing(env, id, s.calls[id], s.world, e.pick);
    }
  }

  lemma {:induction false} RunBound(env: Env, start: int, events: seq<Event>, id: nat)
    requires id in Run(env, Empty(start), events).calls
    ensures BoundToPackage(env.hash, Run(env, Empty(start), events).calls[id])
    decreases |events|
  {
    var before := events[..|events| - 1];
    if id in Run(env, Empty(start), before).calls { RunBound(env, start, before, id); }
    EventBound(env, Run(env, Empty(start), before), events[|events| - 1], id);
  }

  /** Over every run: each marker was made by one call, which was signed for exactly what it does. */
  lemma MarkersAreSigned(env: Env, start: int, events: seq<Event>, marker: Marker) returns (id: nat)
    requires marker in Run(env, Empty(start), events).world.markers
    ensures var s := Run(env, Empty(start), events);
            id in s.calls && s.calls[id].spent && MarkerOf(env, s.calls[id]) == marker && Signed(env, s.calls[id])
  {
    id := MarkerMadeBy(env, start, events, marker);
    ClaimsAreSigned(env, start, events, id);
  }

  lemma {:induction false} MarkerMadeBy(env: Env, start: int, events: seq<Event>, marker: Marker) returns (id: nat)
    requires marker in Run(env, Empty(start), events).world.markers
    ensures var s := Run(env, Empty(start), events);
            id in s.calls && s.calls[id].spent && MarkerOf(env, s.calls[id]) == marker
    decreases |events|
  {
    var before, e := events[..|events| - 1], events[|events| - 1];
    var m := Run(env, Empty(start), before);
    Reachable(env, start, before);
    if marker in m.world.markers {
      id := MarkerMadeBy(env, start, before, marker);
      StaysSpent(env, m, e, id);
    } else {
      id := MarkerAppears(env, m, e, marker);
    }
  }

  lemma SpenderSteps(env: Env, s: System, id: nat, pick: Pick)
    requires Gated(env, s) && id in s.calls && s.calls[id].spent
    ensures var c' := CallStep(env, id, s.calls[id], s.world, pick).0;
            c'.spent && MarkerOf(env, c') == MarkerOf(env, s.calls[id])
  {
    StepMoves(env, id, s.calls[id], s.world, pick);
    SameMarker(env, s.calls[id], CallStep(env, id, s.calls[id], s.world, pick).0);
  }

  lemma StaysSpent(env: Env, s: System, e: Event, id: nat)
    requires Gated(env, s) && id in s.calls && s.calls[id].spent
    ensures var s' := After(env, s, e);
            id in s'.calls && s'.calls[id].spent && MarkerOf(env, s'.calls[id]) == MarkerOf(env, s.calls[id])
  {
    if e.Step? && e.id == id {
      OwnStep(env, s, id, e.pick);
      SpenderSteps(env, s, id, e.pick);
    } else {
      OnlyPhase(env, s, e, id);
      SameMarker(env, s.calls[id], After(env, s, e).calls[id]);
    }
  }

  lemma SameMarker(env: Env, c: Call, c': Call)
    requires c'.authority == c.authority && c'.approval == c.approval && c'.directory == c.directory
    ensures MarkerOf(env, c') == MarkerOf(env, c)
  {
  }

  lemma MarkerAppears(env: Env, s: System, e: Event, marker: Marker) returns (id: nat)
    requires Gated(env, s) && marker !in s.world.markers && marker in After(env, s, e).world.markers
    ensures var s' := After(env, s, e); id in s'.calls && s'.calls[id].spent && MarkerOf(env, s'.calls[id]) == marker
  {
    if e.Step? && e.id in s.calls {
      id := e.id;
      StepMoves(env, id, s.calls[id], s.world, e.pick);
    } else {
      id := 0;
      if !e.Start? && !e.Step? && !e.Fault? && !e.Crash? { ElsewhereEvent(env, s, e); }
    }
  }

  // --------------------------------------------------- what is signed passes

  /** Everything an approval needs, besides its moment. */
  predicate Sanctioned(env: Env, c: Call) {
    && ValidApproval(env.calendar, c.approval) && ValidAuthority(c.authority)
    && c.approval.replayDirectory == c.authority.replayDirectory
    && c.target != [] && Bindable(c.binding) && Signed(env, c)
  }

  /** Its moment: at most 60 seconds before it was issued, and before it expires; times are microseconds. */
  predicate AtItsTime(env: Env, c: Call, now: int) {
    && env.calendar(c.approval.issuedAt).Some? && env.calendar(c.approval.expiresAt).Some?
    && env.calendar(c.approval.issuedAt).value - 60_000_000 <= now < env.calendar(c.approval.expiresAt).value
  }

  lemma OperationsAreNamed(action: Action)
    ensures OperationName(action) != [] <==> !action.Retrieval?
  {
  }

  /**
   * A normalization goes on exactly with a sanctioned approval at its time whose marker is not there; otherwise it fails.
   */
  lemma NormalizesExactly(env: Env, id: nat, c: Call, w: World, pick: Pick)
    requires c.phase.Normalizing? && !c.action.Retrieval?
    ensures var (c', w') := CallStep(env, id, c, w, pick);
            && w' == w
            && if Sanctioned(env, c) && AtItsTime(env, c, w.now) && MarkerOf(env, c) !in w.markers
               then c'.pending.Some? && c' == c.(pending := c'.pending, phase := Inspecting(c.action.Document?))
               else c' == c.(phase := Failed)
  {
    OperationsAreNamed(c.action);
    NormalizeExactly(env, c, w.now, w.markers);
  }

  lemma NormalizeExactly(env: Env, c: Call, now: int, markers: set<Marker>)
    requires OperationName(c.action) != []
    ensures Normalize(env.hash, env.calendar, env.verify, c.approval, c.authority, OperationName(c.action), c.target,
                      c.binding, now, c.directory, markers).Ok?
            <==> Sanctioned(env, c) && AtItsTime(env, c, now) && MarkerOf(env, c) !in markers
  {
  }

  /** A claim begins exactly at its time, and consumes its marker exactly when that is not there. */
  lemma ClaimsExactly(env: Env, id: nat, c: Call, w: World, pick: Pick)
    requires GateInvariant(env, w.markers, c) && (c.phase.Claiming? || c.phase.Marking?)
    ensures var (c', w') := CallStep(env, id, c, w, pick);
            if c.phase.Claiming?
            then w' == w && c' == c.(phase := if AtItsTime(env, c, w.now) then Marking(w.now) else Failed)
            else if MarkerOf(env, c) in w.markers then w' == w && c' == c.(phase := Failed)
            else w' == w.(markers := w.markers + {MarkerOf(env, c)}) && c' == c.(phase := Recording(c.phase.at), spent := true)
  {
  }

  // ------------------------------------------------- one signature, one order

  predicate SameKind(a: Action, b: Action) {
    && a.Document? == b.Document? && a.Retrieval? == b.Retrieval? && a.SecretItem? == b.SecretItem?
    && a.KeyItem? == b.KeyItem? && a.CoManager? == b.CoManager? && a.Delivery? == b.Delivery?
  }

  lemma NamesTellKinds(a: Action, b: Action)
    ensures OperationName(a) == OperationName(b) <==> SameKind(a, b)
  {
    assert S("create-onepassword-secret")[20] == 101 && S("create-onepassword-ssh-key")[20] == 115;
  }

  lemma ContractTellsOrder(c: Call, d: Call)
    requires OrderOf(c) == OrderOf(d)
    ensures SameKind(c.action, d.action) && c.target == d.target && c.binding == d.binding && c.authority == d.authority
    ensures c.approval.(signature := d.approval.signature) == d.approval
  {
    NamesTellKinds(c.action, d.action);
  }

  lemma SameBytesSameContract(x: Contract, y: Contract)
    requires WholeContract(x) && WholeContract(y) && Canonical(Payload(x)) == Canonical(Payload(y))
    ensures x == y
  {
    WholeValueIsJoined(Payload(x));
    WholeValueIsJoined(Payload(y));
    EqualBytesEqualContracts(x, y);
  }

  /**
   * One signature signs one order: calls that need the same bytes signed are of the same kind, for the same target and
   * binding, under the same authority and approval.
   */
  lemma OneSignatureOneOrder(c: Call, d: Call)
    requires WholeContract(OrderOf(c)) && WholeContract(OrderOf(d)) && SignedBytes(c) == SignedBytes(d)
    ensures SameKind(c.action, d.action) && c.target == d.target && c.binding == d.binding && c.authority == d.authority
    ensures c.approval.(signature := d.approval.signature) == d.approval
  {
    SameBytesSameContract(OrderOf(c), OrderOf(d));
    ContractTellsOrder(c, d);
  }
}
