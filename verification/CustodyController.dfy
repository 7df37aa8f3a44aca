/** `onepassword_custody` and `claim_approval` as programs: others run before each call, and each call may raise. */

module CustodyController {
  import opened Outcomes
  import opened Text
  import opened Json
  import opened Package
  import opened Approvals
  import opened Controllers
  import opened ControllerItems
  import opened ControllerSigned
  import opened ControllerProgress

  // -------------------------------------------------------------- claim_approval

  /** The replay directory: markers by name, with the evidence written into them. */
  class ReplayDirectory {
    var markers: map<Text, Bytes>

    /** How many system calls have failed, or written nothing. */
    ghost var faults: nat

    constructor ()
      ensures markers == map[] && faults == 0
    {
      markers, faults := map[], 0;
    }

    /** A system call that may fail. */
    method Attempt() returns (ok: bool)
      modifies this`faults
      ensures faults == if ok then old(faults) else old(faults) + 1
    {
      ok := *;
      if !ok { faults := faults + 1; }
    }

    /**
     * `claim_approval`: outside its window, or with a marker, an approval is not claimed and nothing changes. Otherwise
     * the marker is there afterwards, and holds all the evidence when the claim succeeds; it does when no system call
     * fails.
     */
    method Claim(calendar: Calendar, pending: Pending, evidence: Bytes, now: int, sameDirectory: bool) returns (ok: bool)
      requires calendar(pending.issuedAt).Some? && calendar(pending.expiresAt).Some?
      modifies this
      ensures ok ==> InWindow(calendar, pending.issuedAt, pending.expiresAt, now) && sameDirectory
      ensures ok ==> pending.replayDigest !in old(markers) && markers == old(markers)[pending.replayDigest := evidence]
      ensures !ok ==>
                || markers == old(markers)
                || (pending.replayDigest !in old(markers) && pending.replayDigest in markers
                    && markers[pending.replayDigest] <= evidence
                    && markers == old(markers)[pending.replayDigest := markers[pending.replayDigest]])
      ensures faults == old(faults) ==>
                (ok <==> && InWindow(calendar, pending.issuedAt, pending.expiresAt, now) && sameDirectory
                         && pending.replayDigest !in old(markers))
    {
      if !InWindow(calendar, pending.issuedAt, pending.expiresAt, now) || !sameDirectory { return false; }
      ok := Attempt();
      if !ok || pending.replayDigest in markers { return false; }
      markers := markers[pending.replayDigest := []];
      var offset := 0;
      while offset < |evidence|
        invariant offset <= |evidence|
        invariant markers == old(markers)[pending.replayDigest := evidence[..offset]] && faults == old(faults)
      {
        ok := Attempt();
        if !ok { return; }
        var written: nat :| written <= |evidence| - offset;
        if written == 0 {
          faults := faults + 1;
          return false;
        }
        markers := markers[pending.replayDigest := markers[pending.replayDigest] + evidence[offset..offset + written]];
        assert evidence[..offset] + evidence[offset..offset + written] == evidence[..offset + written];
        offset := offset + written;
      }
      assert evidence[..offset] == evidence;
      ok := Attempt();
    }
  }

  // --------------------------------------------------------- onepassword_custody

  const NO_PICK := Pick([], [], true, true)

  /** One controller, with where each call is, for the specification. */
  class Controller {
    const env: Env
    const id: nat
    var world: World
    var calls: map<nat, Call>
    ghost const start: System
    ghost var trace: seq<Event>

    ghost predicate Valid()
      reads this
    {
      Run(env, start, trace) == System(world, calls) && id in calls
    }

    constructor (env: Env, id: nat, system: System)
      requires id in system.calls
      ensures Valid() && this.env == env && this.id == id && start == system && trace == []
      ensures world == system.world && calls == system.calls
    {
      this.env := env;
      this.id := id;
      world, calls := system.world, system.calls;
      start, trace := system, [];
    }

    /** The world becomes w, as it does under e. */
    method Happens(e: Event, w: World)
      requires Valid() && After(env, System(world, calls), e).world == w
      modifies this
      ensures Valid() && world == w && calls == After(env, System(old(world), old(calls)), e).calls
    {
      RunMore(env, start, trace, e);
      calls := After(env, System(world, calls), e).calls;
      world := w;
      trace := trace + [e];
    }

    /** Any events of other calls and other users, and the passing of time. */
    method Others()
      requires Valid()
      modifies this
      ensures Valid() && calls[id] == old(calls[id]) && Grows(old(world.provider.items), world.provider.items)
    {
      var n: nat :| 0 <= n;
      for i := 0 to n
        invariant Valid() && calls[id] == old(calls[id]) && Grows(old(world.provider.items), world.provider.items)
      {
        var e: Event := *;
        if !((e.Start? || e.Step? || e.Fault? || e.Crash?) && e.id == id) {
          EventGrows(env, System(world, calls), e);
          Happens(e, After(env, System(world, calls), e).world);
        }
      }
    }

    /** Others run; then the call may raise. */
    method MayRaise() returns (raised: bool)
      requires Valid() && !Ended(calls[id])
      modifies this
      ensures Valid() && calls[id] == if raised then old(calls[id]).(phase := Failed) else old(calls[id])
      ensures Grows(old(world.provider.items), world.provider.items)
    {
      Others();
      raised := *;
      if raised { Happens(Fault(id), world); }
    }

    /** A step that leaves the world alone. */
    method Step()
      requires Valid() && CallStep(env, id, calls[id], world, NO_PICK).1 == world
      modifies this
      ensures Valid() && world == old(world) && calls[id] == CallStep(env, id, old(calls[id]), world, NO_PICK).0
    {
      Happens(Event.Step(id, NO_PICK), world);
    }

    /** `inspect` */
    method Inspect(again: bool, where: Place, sha: Text) returns (seen: Seen, raised: bool)
      requires Valid() && calls[id].phase == Inspecting(again) && calls[id].action.Document?
      requires where == calls[id].action.where && sha == env.hash(Canonical(calls[id].action.package))
      modifies this
      ensures Valid()
      ensures calls[id] == old(calls[id]).(phase := if raised then Failed else DocumentInspected(old(calls[id]), seen, again))
    {
      seen := Drift;
      raised := MayRaise();
      if !raised {
        seen := InspectDocument(world.provider.items, where, sha);
        Step();
      }
    }

    /** `normalize_approval`, at the time and with the markers of the moment */
    method NormalizeApproval(approval: Approval, authority: Authority, target: Text, binding: Json, directory: Directory)
      returns (pending: Result<Pending>)
      requires Valid() && calls[id].phase == Normalizing && calls[id].action.Document?
      requires approval == calls[id].approval && authority == calls[id].authority && target == calls[id].target
      requires binding == calls[id].binding && directory == calls[id].directory
      modifies this
      ensures Valid()
      ensures calls[id] == if pending.Ok? then old(calls[id]).(pending := Some(pending.value), phase := Inspecting(true))
                           else old(calls[id]).(phase := Failed)
    {
      var raised := MayRaise();
      if raised { return Raised; }
      pending := Normalize(env.hash, env.calendar, env.verify, approval, authority, S("create-onepassword-header-document"),
                           target, binding, world.now, directory, world.markers);
      Step();
    }

    /** `claim_approval`: the clock, the exclusive marker, the evidence. */
    method Claim(pending: Pending) returns (ok: bool)
      requires Valid() && calls[id].phase == Claiming && calls[id].pending == Some(pending) && calls[id].action.Document?
      modifies this
      ensures Valid()
      ensures calls[id] == old(calls[id]).(phase := calls[id].phase, spent := calls[id].spent, claimed := calls[id].claimed)
      ensures calls[id].phase == (if ok then Acting else Failed)
    {
      ok := InTime(pending);
      if !ok { return; }
      var raised := MayRaise();
      if raised { return false; }
      ok := Mark((pending.directory, pending.replayDigest));
      if !ok { return; }
      ok := Record();
    }

    method InTime(pending: Pending) returns (ok: bool)
      requires Valid() && calls[id].phase == Claiming && calls[id].pending == Some(pending)
      modifies this
      ensures Valid() && (ok ==> calls[id].phase.Marking?)
      ensures calls[id] == old(calls[id]).(phase := if ok then calls[id].phase else Failed)
    {
      var raised := MayRaise();
      if raised { return false; }
      var issued, expires := env.calendar(pending.issuedAt), env.calendar(pending.expiresAt);
      ok := issued.Some? && expires.Some? && issued.value - world.now <= MAX_SKEW && world.now < expires.value;
      Step();
    }

    method Record() returns (ok: bool)
      requires Valid() && calls[id].phase.Recording? && calls[id].action.Document?
      modifies this
      ensures Valid()
      ensures calls[id] == if ok then old(calls[id]).(phase := Acting, claimed := Some(old(calls[id].phase.at)))
                           else old(calls[id]).(phase := Failed)
    {
      var raised := MayRaise();
      if !raised { Step(); }
      ok := !raised;
    }

    method Mark(marker: Marker) returns (ok: bool)
      requires Valid() && calls[id].phase.Marking? && calls[id].pending.Some?
      requires marker == (calls[id].pending.value.directory, calls[id].pending.value.replayDigest)
      modifies this
      ensures Valid()
      ensures calls[id] == if ok then old(calls[id]).(phase := Recording(old(calls[id].phase.at)), spent := true)
                           else old(calls[id]).(phase := Failed)
    {
      ok := marker !in world.markers;
      if ok { Happens(Event.Step(id, NO_PICK), world.(markers := world.markers + {marker})); } else { Step(); }
    }

    /** The step that asks for the creation, after which the world is w. */
    method Acts(pick: Pick, w: World)
      requires Valid() && calls[id].phase == Acting && ActStep(env, id, calls[id], world, pick).1 == w
      modifies this
      ensures Valid() && world == w && calls[id] == ActStep(env, id, old(calls[id]), old(world), pick).0
    {
      Happens(Event.Step(id, pick), w);
    }

    /** `document create`: the identity the provider answers with, when it does. */
    method Create(where: Place, package: Json, sha: Text) returns (created: Option<Text>)
      requires Valid() && calls[id].phase == Acting && calls[id].action.Document?
      requires where == calls[id].action.where && package == calls[id].action.package && sha == env.hash(Canonical(package))
      modifies this
      ensures Valid()
      ensures calls[id] == old(calls[id]).(phase := calls[id].phase, acted := calls[id].acted, made := calls[id].made)
      ensures if created.None? then calls[id].phase.Failed?
              else calls[id].phase.Confirming? && calls[id].acted && MadeAs(created.value)
    {
      var raised := MayRaise();
      if raised { return None; }
      var pick: Pick := *;
      var effects := world.effects + [id];
      if !pick.happens {
        Acts(pick, world.(effects := effects));
        return None;
      }
      if !UnusedId(world.provider.items, pick.id) {
        Happens(Fault(id), world);
        return None;
      }
      var item := Item(pick.id, where.vault, where.title, DOCUMENT_CATEGORY, CustodyTags(sha), [Canonical(package)]);
      var items := world.provider.items + [item];
      Acts(pick, world.(effects := effects, provider := world.provider.(items := items)));
      created := if pick.answered then Some(pick.id) else None;
    }

    /** The item the call made has this identity. */
    predicate MadeAs(identity: Text)
      requires id in calls
      reads this
    {
      && calls[id].made.Some? && calls[id].made.value < |world.provider.items|
      && world.provider.items[calls[id].made.value].id == identity
    }

    /** The inspection after the creation: the one document is the created one. */
    method Confirm(where: Place, sha: Text, created: Text) returns (seen: Seen)
      requires Valid() && calls[id].phase == Confirming && calls[id].action.Document? && MadeAs(created)
      requires where == calls[id].action.where && sha == env.hash(Canonical(calls[id].action.package))
      modifies this
      ensures Valid()
      ensures calls[id] == old(calls[id]).(phase := if seen.One? then Downloading(seen.id, seen.version) else Failed)
    {
      var raised := MayRaise();
      if raised { return Drift; }
      seen := InspectDocument(world.provider.items, where, sha);
      Step();
      if seen.One? && seen.id != created { seen := Drift; }
    }

    /** The readback: download, decode against the expected bytes, inspect again. */
    method ReadBack(where: Place, package: Json, sha: Text, current: Seen) returns (ok: bool)
      requires Valid() && current.One? && calls[id].phase == Downloading(current.id, current.version)
      requires calls[id].action.Document? && where == calls[id].action.where && package == calls[id].action.package
      requires sha == env.hash(Canonical(package))
      modifies this
      ensures Valid()
      ensures calls[id] == old(calls[id]).(phase :=
                if ok then Done(InCustody(old(calls[id].acted), current.id, current.version)) else Failed)
    {
      var raised := MayRaise();
      if raised { return false; }
      var raw := Download(where, package, current);
      if raw.None? { return false; }
      ok := Recheck(where, sha, current);
    }

    method Recheck(where: Place, sha: Text, current: Seen) returns (ok: bool)
      requires Valid() && current.One? && calls[id].action.Document? && where == calls[id].action.where
      requires calls[id].phase.Rechecking? && calls[id].phase.id == current.id && calls[id].phase.version == current.version
      requires sha == env.hash(Canonical(calls[id].action.package))
      modifies this
      ensures Valid()
      ensures calls[id] == old(calls[id]).(phase :=
                if ok then Done(InCustody(old(calls[id].acted), current.id, current.version)) else Failed)
    {
      var raised := MayRaise();
      if raised { return false; }
      ok := InspectDocument(world.provider.items, where, sha) == current;
      Step();
    }

    method Download(where: Place, package: Json, current: Seen) returns (raw: Option<Bytes>)
      requires Valid() && current.One? && calls[id].phase == Downloading(current.id, current.version)
      requires calls[id].action.Document? && where == calls[id].action.where && package == calls[id].action.package
      modifies this
      ensures Valid()
      ensures calls[id] == old(calls[id]).(phase :=
                if raw.Some? then Rechecking(current.id, current.version, raw.value) else Failed)
    {
      var items := world.provider.items;
      var k := Find(items, where.vault, current.id, |items|);
      raw := None;
      if k < |items| && items[k].versions != [] {
        var bytes := items[k].versions[|items[k].versions| - 1];
        if DecodePackage(env.hash, bytes, Canonical(package)).Ok? { raw := Some(bytes); }
      }
      Downloads(current, raw);
    }

    method Downloads(current: Seen, ghost raw: Option<Bytes>)
      requires Valid() && current.One? && calls[id].phase == Downloading(current.id, current.version) && calls[id].action.Document?
      requires Downloaded(env, calls[id], world.provider) ==
               if raw.Some? then Rechecking(current.id, current.version, raw.value) else Failed
      modifies this
      ensures Valid()
      ensures calls[id] == old(calls[id]).(phase :=
                if raw.Some? then Rechecking(current.id, current.version, raw.value) else Failed)
    {
      Step();
    }

    /** `onepassword_custody` */
    method Custody(c: Call) returns (r: Result<Report>)
      requires Valid() && calls[id] == c && Fresh(env, c) && c.action.Document?
      modifies this
      ensures Valid() && calls[id].action == c.action && calls[id].checkMode == c.checkMode
      ensures if r.Ok? then calls[id].phase == Done(r.value) else calls[id].phase == Failed
      ensures r.Ok? && !r.value.InCustody? ==> r.value == Planned(false) && (c.checkMode || c.action.operation.Plan?)
    {
      var where, package, operation := c.action.where, c.action.package, c.action.operation;
      var sha := env.hash(Canonical(package));
      var current, raised := Inspect(false, where, sha);
      if raised || current.Drift? { return Raised; }
      if current.Nothing? {
        if operation.Verify? { return Raised; }
        if operation.Plan? || c.checkMode { return Ok(Planned(false)); }
        if !c.action.allowCreate { return Raised; }
        current := CreateApproved(c, where, package, sha);
        if !current.One? { return Raised; }
      }
      var changed := calls[id].acted;
      var ok := ReadBack(where, package, sha, current);
      r := if ok then Ok(InCustody(changed, current.id, current.version)) else Raised;
    }

    /** From any reachable state: a custody report names a version that holds the package's canonical bytes. */
    method VerifiedCustody(c: Call, began: int) returns (r: Result<Report>)
      requires Valid() && calls[id] == c && Fresh(env, c) && c.action.Document? && start == Empty(began)
      modifies this
      ensures Valid() && (r.Ok? ==> calls[id].phase == Done(r.value))
      ensures r.Ok? && r.value.InCustody? ==>
                Holds(world.provider.items, c.action.where, r.value.id, r.value.version, Canonical(c.action.package))
      ensures r.Ok? && !r.value.InCustody? ==> r.value == Planned(false) && (c.checkMode || c.action.operation.Plan?)
      ensures Mutating(c) && Sanctioned(env, calls[id]) && Favoured(env, Empty(began), trace, id) ==>
                r.Ok? && r.value.InCustody? && r.value.created && r.value.version == 1
    {
      r := Custody(c);
      CustodyEnds(env, began, trace, id, System(world, calls));
    }

    /** The creating branch: normalize, inspect again, claim, create, confirm. */
    method CreateApproved(c: Call, where: Place, package: Json, sha: Text) returns (current: Seen)
      requires Valid() && calls[id] == c.(phase := Normalizing) && c.action.Document?
      requires where == c.action.where && package == c.action.package && sha == env.hash(Canonical(package))
      modifies this
      ensures Valid() && calls[id].action == c.action && calls[id].checkMode == c.checkMode
      ensures calls[id].phase == if current.One? then Downloading(current.id, current.version) else Failed
    {
      current := Drift;
      var pending := NormalizeApproval(c.approval, c.authority, c.target, c.binding, c.directory);
      if pending.Raised? { return; }
      var again, raised := Inspect(true, where, sha);
      if raised || !again.Nothing? { return; }
      var claimed := Claim(pending.value);
      if !claimed { return; }
      var created := Create(where, package, sha);
      if created.None? { return; }
      current := Confirm(where, sha, created.value);
      if !current.One? { current := Drift; }
    }
  }

  /** What a document call that has ended has reported, and when it has reported its own creation. */
  lemma CustodyEnds(env: Env, began: int, trace: seq<Event>, id: nat, s: System)
    requires s == Run(env, Empty(began), trace) && id in s.calls && Ended(s.calls[id]) && s.calls[id].action.Document?
    ensures var c := s.calls[id];
            && (c.phase.Done? && c.phase.report.InCustody? ==>
                  Holds(s.world.provider.items, c.action.where, c.phase.report.id, c.phase.report.version,
                        Canonical(c.action.package)))
            && (Mutating(c) && Sanctioned(env, c) && Favoured(env, Empty(began), trace, id) ==>
                  c.phase.Done? && c.phase.report.InCustody? && c.phase.report.created && c.phase.report.version == 1)
  {
    var c := s.calls[id];
    if c.phase.Done? && c.phase.report.InCustody? { CustodyIsVerified(env, began, trace, id); }
    if Mutating(c) && Sanctioned(env, c) && Favoured(env, Empty(began), trace, id) { FavouredEnds(env, began, trace, id, s); }
  }

  lemma FavouredEnds(env: Env, began: int, trace: seq<Event>, id: nat, s: System)
    requires s == Run(env, Empty(began), trace) && id in s.calls && Favoured(env, Empty(began), trace, id)
    requires var c := s.calls[id]; Mutating(c) && Sanctioned(env, c) && Ended(c) && c.action.Document?
    ensures var c := s.calls[id];
            c.phase.Done? && c.phase.report.InCustody? && c.phase.report.created && c.phase.report.version == 1
  {
    FavouredCallSucceeds(env, began, trace, id);
  }

  lemma RunMore(env: Env, s: System, trace: seq<Event>, e: Event)
    ensures Run(env, s, trace + [e]) == After(env, Run(env, s, trace), e)
  {
    assert (trace + [e])[..|trace|] == trace;
  }
}
