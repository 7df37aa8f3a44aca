/** Every provider result passes the response check, and a response belongs to one request. */

module HandoffProofs {
  import opened Outcomes
  import opened Text
  import opened Json
  import opened JsonProofs
  import opened JsonExact
  import opened Package
  import opened Controllers
  import opened ControllerGate
  import opened ControllerItems
  import opened Handoff

  // ------------------------------------------------- what the provider calls report

  /** A reported identity is a provider's, at a positive version, and the pinned one when there is a pin. */
  predicate PinnedTo(where: Place, id: Text, version: nat) {
    SafeId(id) && version > 0 && (where.itemId != [] ==> id == where.itemId && version == where.itemVersion)
  }

  lemma SeenIsPinned(items: seq<Item>, where: Place, sha: Text)
    requires InspectDocument(items, where, sha).One?
    ensures PinnedTo(where, InspectDocument(items, where, sha).id, InspectDocument(items, where, sha).version)
  {
  }

  /** The reports of a native call, and what they say. */
  predicate ReportFits(c: Call) {
    Native(c.action) && c.phase.Done? ==>
      match c.phase.report
      case Planned(_) => c.action.Document? && (c.action.operation.Plan? || c.checkMode)
      case InCustody(created, id, version) => c.action.Document? && PinnedTo(c.action.where, id, version)
      case Retrieved(id, version, package) => c.action.Retrieval? && PinnedTo(c.action.where, id, version)
      case _ => false
  }

  lemma InspectionReports(env: Env, c: Call, p: Provider, again: bool)
    requires Native(c.action) && c.phase == Inspecting(again)
    ensures ReportFits(c.(phase := Inspected(env, c, p, again)))
  {
  }

  lemma ConfirmationReports(env: Env, c: Call, p: Provider)
    requires Native(c.action)
    ensures ReportFits(c.(phase := Confirmed(env, c, p)))
  {
  }

  lemma RecheckReports(env: Env, c: Call, p: Provider)
    requires Native(c.action) && c.phase.Rechecking?
    ensures ReportFits(c.(phase := Rechecked(env, c, p)))
  {
    if Rechecked(env, c, p).Done? {
      var sha := if c.action.Document? then env.hash(Canonical(c.action.package)) else c.action.pins.packageSha256;
      SeenIsPinned(p.items, c.action.where, sha);
    }
  }

  lemma StepReports(env: Env, id: nat, c: Call, w: World, pick: Pick)
    requires Native(c.action) && ReportFits(c)
    ensures ReportFits(CallStep(env, id, c, w, pick).0)
  {
    match c.phase
    case Inspecting(again) => InspectionReports(env, c, w.provider, again);
    case Confirming => ConfirmationReports(env, c, w.provider);
    case Downloading(_, _) => DownloadGoesOn(env, c, w.provider);
    case Rechecking(_, _, _) => RecheckReports(env, c, w.provider);
    case _ =>
  }

  lemma EventReports(env: Env, s: System, e: Event, id: nat)
    requires id in After(env, s, e).calls && Native(After(env, s, e).calls[id].action)
    requires id in s.calls ==> (Native(s.calls[id].action) ==> ReportFits(s.calls[id]))
    ensures ReportFits(After(env, s, e).calls[id])
    ensures id in s.calls ==> After(env, s, e).calls[id].checkMode == s.calls[id].checkMode
    ensures id in s.calls ==> After(env, s, e).calls[id].action == s.calls[id].action
  {
    if e.Step? && e.id == id && id in s.calls {
      StepReports(env, id, s.calls[id], s.world, e.pick);
    }
  }

  lemma {:induction false} RunReports(env: Env, start: int, events: seq<Event>, id: nat)
    requires var s := Run(env, Empty(start), events); id in s.calls && Native(s.calls[id].action)
    ensures ReportFits(Run(env, Empty(start), events).calls[id])
    decreases |events|
  {
    var before := events[..|events| - 1];
    var m := Run(env, Empty(start), before);
    if id in m.calls && Native(m.calls[id].action) { RunReports(env, start, before, id); }
    EventReports(env, m, events[|events| - 1], id);
  }

  // ----------------------------------------------------------- the response check

  lemma ResultFields(changed: bool, verified: bool, sha: Text, id: Option<Text>, version: Option<int>, name: Text, extra: Json)
    requires name in {S("planned"), S("package")}
    ensures var fields := ResultValue(changed, verified, sha, id, version, name, extra).fields;
            && fields.Keys == {S("changed"), S("verified"), S("package_sha256"), S("item_id"), S("item_version"), name}
            && fields[S("changed")] == JBool(changed) && fields[S("verified")] == JBool(verified)
            && fields[S("package_sha256")] == JString(sha) && fields[S("item_id")] == OptionalText(id)
            && fields[S("item_version")] == OptionalInt(version) && fields[name] == extra
  {
    assert S("changed")[0] == 99 && S("item_id")[0] == 105 && S("planned")[0] == 112 && S("package")[0] == 112;
    assert S("planned")[1] == 108 && S("package")[1] == 97;
  }

  /** A request with a package pins its digest. */
  lemma PinsPackage(env: Env, r: Request)
    requires WellRequested(env, r) && r.operation != READ
    ensures env.hash(Canonical(r.package)) == PinsOf(r.pins).packageSha256
  {
  }

  lemma RetrievedIsValid(hash: Digest, r: Request, id: Text, version: nat, package: Json)
    requires ValidConfig(r.config) && IsPins(r.pins) && ValidPins(PinsOf(r.pins))
    requires r.operation == READ && PinnedTo(PlaceOf(r.config), id, version)
    requires ValidPackage(hash, package) && hash(Canonical(package)) == PinsOf(r.pins).packageSha256
    requires SameSource(package, PinsOf(r.pins))
    ensures ValidResult(hash, r, ResultValue(false, true, PinsOf(r.pins).packageSha256, Some(id), Some(version), S("package"), package))
  {
    ResultFields(false, true, PinsOf(r.pins).packageSha256, Some(id), Some(version), S("package"), package);
    DownloadsExactly(hash, package, PinsOf(r.pins));
  }

  lemma CustodyIsValid(hash: Digest, r: Request, created: bool, id: Text, version: nat)
    requires ValidConfig(r.config) && IsPins(r.pins) && r.operation != READ && PinnedTo(PlaceOf(r.config), id, version)
    requires created ==> r.operation == APPLY
    ensures ValidResult(hash, r, ResultValue(created, true, PinsOf(r.pins).packageSha256, Some(id), Some(version),
                                             S("planned"), JBool(false)))
  {
    ResultFields(created, true, PinsOf(r.pins).packageSha256, Some(id), Some(version), S("planned"), JBool(false));
  }

  lemma PlannedIsValid(hash: Digest, r: Request)
    requires ValidConfig(r.config) && IsPins(r.pins) && r.operation == PLAN
    ensures ValidResult(hash, r, ResultValue(false, false, PinsOf(r.pins).packageSha256, None, None, S("planned"), JBool(true)))
  {
    assert PLAN[0] == 112 && READ[0] == 114;
    ResultFields(false, false, PinsOf(r.pins).packageSha256, None, None, S("planned"), JBool(true));
  }

  /** What a report of a native call that is not in check mode comes to under a request. */
  lemma ReportIsValid(env: Env, r: Request, c: Call)
    requires WellRequested(env, r) && c.action == ActionOf(r) && !c.checkMode
    requires c.phase.Done? && ReportFits(c)
    requires c.phase.report.InCustody? && c.phase.report.created ==> r.operation == APPLY
    requires c.phase.report.Retrieved? ==>
               && ValidPackage(env.hash, c.phase.report.package)
               && env.hash(Canonical(c.phase.report.package)) == c.action.pins.packageSha256
               && SameSource(c.phase.report.package, c.action.pins)
    ensures ValidResult(env.hash, r, ResultOf(env.hash, c.action, c.phase.report))
  {
    if r.operation != READ { PinsPackage(env, r); }
    ReportIsResult(env.hash, r, c.phase.report);
  }

  /** What a provider call made for the request can report. */
  predicate Reportable(hash: Digest, r: Request, report: Report)
    requires ValidConfig(r.config) && IsPins(r.pins)
  {
    match report
    case Planned(_) => r.operation == PLAN
    case InCustody(created, id, version) =>
      r.operation != READ && PinnedTo(PlaceOf(r.config), id, version) && (created ==> r.operation == APPLY)
    case Retrieved(id, version, package) =>
      && r.operation == READ && PinnedTo(PlaceOf(r.config), id, version) && ValidPackage(hash, package)
      && hash(Canonical(package)) == PinsOf(r.pins).packageSha256 && SameSource(package, PinsOf(r.pins))
    case _ => false
  }

  lemma ReportIsResult(hash: Digest, r: Request, report: Report)
    requires ValidConfig(r.config) && IsPins(r.pins) && ValidPins(PinsOf(r.pins))
    requires r.operation != READ ==> hash(Canonical(r.package)) == PinsOf(r.pins).packageSha256
    requires Reportable(hash, r, report)
    ensures ValidResult(hash, r, ResultOf(hash, ActionOf(r), report))
  {
    assert PLAN[0] == 112 && READ[0] == 114;
    match report
    case Retrieved(id, version, package) => RetrievedIsValid(hash, r, id, version, package);
    case InCustody(created, id, version) => CustodyIsValid(hash, r, created, id, version);
    case Planned(_) => PlannedIsValid(hash, r);
  }

  lemma ValidUnlessLate(env: Env, r: Request, result: Json, now: int)
    requires WellRequested(env, r) && ValidResult(env.hash, r, result)
    ensures ValidateResponse(env, r, Response(env.hash(Canonical(RequestValue(r))), result), now).Ok? <==> Timely(env, r, now)
  {
  }

  /**
   * Over every run: whatever a native call made for a request returns, the response passes the check exactly while
   * the exchange is timely.
   */
  lemma ResponsesPass(env: Env, start: int, events: seq<Event>, id: nat, r: Request, now: int)
    requires WellRequested(env, r)
    requires var s := Run(env, Empty(start), events);
             id in s.calls && s.calls[id].action == ActionOf(r) && !s.calls[id].checkMode && s.calls[id].phase.Done?
    ensures var c := Run(env, Empty(start), events).calls[id];
            var response := Response(env.hash(Canonical(RequestValue(r))), ResultOf(env.hash, c.action, c.phase.report));
            ValidateResponse(env, r, response, now).Ok? <==> Timely(env, r, now)
  {
    var c := Run(env, Empty(start), events).calls[id];
    RunReports(env, start, events, id);
    if c.phase.report.InCustody? && c.phase.report.created { CreationIsApplied(env, start, events, id, r); }
    if c.phase.report.Retrieved? { RetrievalIsPinned(env, start, events, id); }
    ReportIsValid(env, r, c);
    ValidUnlessLate(env, r, ResultOf(env.hash, c.action, c.phase.report), now);
  }

  lemma CreationIsApplied(env: Env, start: int, events: seq<Event>, id: nat, r: Request)
    requires WellRequested(env, r)
    requires var s := Run(env, Empty(start), events);
             id in s.calls && s.calls[id].action == ActionOf(r) && s.calls[id].phase.Done?
             && s.calls[id].phase.report.InCustody? && s.calls[id].phase.report.created
    ensures r.operation == APPLY
  {
    OnlyClaimsChange(env, start, events, id);
  }

  // --------------------------------------------------------- one response, one request

  /** Its floats are lexemes that Python prints, and its keys hold no split surrogate pairs. */
  predicate Writable(r: Request) { Printable(RequestValue(r)) && WholeKeys(RequestValue(r)) }

  lemma SameRequestParts(r: Request, q: Request)
    requires RequestValue(r) == RequestValue(q)
    ensures r.exchange == q.exchange && r.operation == q.operation && r.config == q.config && r.package == q.package
  {
    var v, w := RequestValue(r).fields, RequestValue(q).fields;
    assert S("exchange")[0] == 101 && S("approval")[0] == 97 && S("operation")[0] == 111 && S("read_pins")[0] == 114;
    assert v[S("exchange")] == w[S("exchange")] && v[S("operation")] == w[S("operation")];
    assert v[S("provider_config")] == w[S("provider_config")] && v[S("package")] == w[S("package")];
  }

  lemma SameRequestPermissions(r: Request, q: Request)
    requires RequestValue(r) == RequestValue(q)
    ensures r.pins == q.pins && r.allowCreate == q.allowCreate && r.authority == q.authority && r.approval == q.approval
  {
    var v, w := RequestValue(r).fields, RequestValue(q).fields;
    assert S("read_pins")[0] == 114 && S("operation")[0] == 111 && S("exchange")[0] == 101 && S("approval")[0] == 97;
    assert v[S("read_pins")] == w[S("read_pins")] && v[S("allow_create")] == w[S("allow_create")];
    assert v[S("approval_authority")] == w[S("approval_authority")] && v[S("approval")] == w[S("approval")];
  }

  predicate NoRequestCollision(env: Env, r: Request, q: Request) {
    var a, b := Canonical(RequestValue(r)), Canonical(RequestValue(q));
    env.hash(a) == env.hash(b) ==> a == b
  }

  /**
   * Without a digest collision, one response is accepted, whenever it is checked, only for requests that JSON delivers
   * alike; these are equal when no text in them holds a split surrogate pair.
   */
  lemma OneRequest(env: Env, r: Request, q: Request, response: Response, now: int, later: int)
    requires Writable(r) && Writable(q)
    requires NoRequestCollision(env, r, q)
    requires ValidateResponse(env, r, response, now).Ok? && ValidateResponse(env, q, response, later).Ok?
    ensures JoinedValue(RequestValue(r)) == JoinedValue(RequestValue(q))
    ensures WholeValue(RequestValue(r)) && WholeValue(RequestValue(q)) ==> r == q
  {
    PrintedAlikeExactly(RequestValue(r), RequestValue(q));
    if WholeValue(RequestValue(r)) && WholeValue(RequestValue(q)) {
      WholeValueIsJoined(RequestValue(r));
      WholeValueIsJoined(RequestValue(q));
      SameRequestParts(r, q);
      SameRequestPermissions(r, q);
    }
  }

  /** So a response is accepted for at most one of all the requests that were read from files. */
  lemma OneDecodedRequest(env: Env, r: Request, q: Request, file: Bytes, file': Bytes, response: Response, now: int, later: int)
    requires Parse(file) == Some(RequestValue(r)) && Parse(file') == Some(RequestValue(q))
    requires NoRequestCollision(env, r, q)
    requires ValidateResponse(env, r, response, now).Ok? && ValidateResponse(env, q, response, later).Ok?
    ensures r == q
  {
    ParsedIsWhole(file);
    ParsedIsWhole(file');
    WholeValueIsJoined(RequestValue(r));
    WholeValueIsJoined(RequestValue(q));
    OneRequest(env, r, q, response, now, later);
  }
}
