/** At most one creator for a title, and verified results name the version that holds the bytes: over every run. */

module ControllerItems {
  import opened Outcomes
  import opened Text
  import opened Json
  import opened Package
  import opened Controllers
  import opened ControllerGate

  // ------------------------------------------------------------------- listing

  /** The item keeps its identity, vault and title; it may get new contents. */
  predicate Continues(item: Item, item': Item) {
    item'.id == item.id && item'.vault == item.vault && item'.title == item.title && item.versions <= item'.versions
  }

  predicate Grows(items: seq<Item>, items': seq<Item>) {
    |items| <= |items'| && forall k :: 0 <= k < |items| ==> Continues(items[k], items'[k])
  }

  predicate DistinctIds(items: seq<Item>) {
    forall j, k :: 0 <= j < k < |items| ==> items[j].id != items[k].id
  }

  /** k is the first item with the title. */
  predicate First(items: seq<Item>, where: Place, k: nat) {
    k < |items| && Titled(items[k], where) && forall j :: 0 <= j < k ==> !Titled(items[j], where)
  }

  predicate IsAt(item: Item, where: Place, id: Text, version: nat) {
    item.vault == where.vault && item.id == id && 1 <= version <= |item.versions|
  }

  /** An item with this identity has had this version. */
  ghost predicate Exists(items: seq<Item>, where: Place, id: Text, version: nat) {
    exists k :: 0 <= k < |items| && IsAt(items[k], where, id, version)
  }

  /** That version is raw. */
  ghost predicate Holds(items: seq<Item>, where: Place, id: Text, version: nat, raw: Bytes) {
    exists k :: 0 <= k < |items| && IsAt(items[k], where, id, version) && items[k].versions[version - 1] == raw
  }

  /** That version, or a later one, is raw. */
  ghost predicate HoldsSince(items: seq<Item>, where: Place, id: Text, version: nat, raw: Bytes) {
    exists v :: version <= v && Holds(items, where, id, v, raw)
  }

  lemma HoldsInGrown(items: seq<Item>, items': seq<Item>, where: Place, id: Text, version: nat, raw: Bytes)
    requires Grows(items, items') && Holds(items, where, id, version, raw)
    ensures Holds(items', where, id, version, raw)
  {
    var k :| 0 <= k < |items| && IsAt(items[k], where, id, version) && items[k].versions[version - 1] == raw;
    assert Continues(items[k], items'[k]);
  }

  lemma ExistsInGrown(items: seq<Item>, items': seq<Item>, where: Place, id: Text, version: nat)
    requires Grows(items, items') && Exists(items, where, id, version)
    ensures Exists(items', where, id, version)
  {
    var k :| 0 <= k < |items| && IsAt(items[k], where, id, version);
    assert Continues(items[k], items'[k]);
  }

  /** A unique match is the item the call made, and no earlier item has its title. */
  lemma OnlyMatchIsFirst(items: seq<Item>, where: Place, byId: bool, k: nat)
    requires |Matches(items, where, byId, |items|)| == 1 && k < |items| && Titled(items[k], where)
    ensures First(items, where, k) && Matches(items, where, byId, |items|)[0] == k
  {
    var rows := Matches(items, where, byId, |items|);
    assert Matching(items[k], where, byId) && k in rows;
    forall j | 0 <= j < |items| && Titled(items[j], where) ensures j == k {
      assert Matching(items[j], where, byId) && j in rows;
    }
  }

  /** What an inspection reports is an item of the vault, at its current version. */
  lemma SeenRow(items: seq<Item>, where: Place, sha: Text) returns (k: nat)
    requires InspectDocument(items, where, sha).One?
    ensures var seen := InspectDocument(items, where, sha);
            k < |items| && IsAt(items[k], where, seen.id, seen.version) && |items[k].versions| == seen.version
            && Matches(items, where, true, |items|) == [k]
  {
    k := Matches(items, where, true, |items|)[0];
  }

  // ------------------------------------------------------ one call's invariant

  /** The item the call made is where it put it. */
  predicate MadeFits(items: seq<Item>, c: Call) {
    && (c.made.Some? ==> Creates(c.action) && c.made.value < |items| && Titled(items[c.made.value], c.action.where))
    && (c.phase.Confirming? && Creates(c.action) ==> c.made.Some?)
    && (c.acted ==> c.phase.Confirming? || c.phase.Downloading? || c.phase.Rechecking? || Ended(c))
    && (c.phase.Downloading? || c.phase.Rechecking? ==> c.acted == c.made.Some?)
    && (!c.acted ==> c.made.None?)
  }

  /** A created item the call found alone under its title. */
  predicate MadeFirst(items: seq<Item>, c: Call) {
    c.made.Some? && Creates(c.action) && First(items, c.action.where, c.made.value)
  }

  predicate Native(action: Action) { action.Document? || action.Retrieval? }

  predicate Acceptable(env: Env, action: Action, raw: Bytes)
    requires Native(action)
  {
    if action.Document? then raw == Canonical(action.package) else VerifyDownload(env.hash, raw, action.pins).Ok?
  }

  ghost predicate ProviderFits(env: Env, items: seq<Item>, c: Call) {
    match c.phase
    case Downloading(id, version) =>
      Native(c.action) && Exists(items, c.action.where, id, version) && (c.made.Some? ==> MadeFirst(items, c))
    case Rechecking(id, version, raw) =>
      && Native(c.action) && HoldsSince(items, c.action.where, id, version, raw) && Acceptable(env, c.action, raw)
      && (c.made.Some? ==> MadeFirst(items, c))
    case Done(InCustody(created, id, version)) =>
      && c.action.Document? && Holds(items, c.action.where, id, version, Canonical(c.action.package))
      && (created ==> MadeFirst(items, c))
    case Done(Retrieved(id, version, package)) =>
      && c.action.Retrieval?
      && exists raw :: Holds(items, c.action.where, id, version, raw) && VerifyDownload(env.hash, raw, c.action.pins) == Ok(package)
    case Done(CreatedItem(_, _)) => MadeFirst(items, c)
    case Done(GrantedAll(_)) => !Creates(c.action)
    case Done(Delivered) => !Creates(c.action)
    case _ => true
  }

  lemma FitsGrown(env: Env, items: seq<Item>, items': seq<Item>, c: Call)
    requires MadeFits(items, c) && ProviderFits(env, items, c) && Grows(items, items')
    ensures MadeFits(items', c) && ProviderFits(env, items', c)
  {
    if c.made.Some? && MadeFirst(items, c) { assert MadeFirst(items', c); }
    match c.phase
    case Downloading(id, version) => ExistsInGrown(items, items', c.action.where, id, version);
    case Rechecking(id, version, raw) =>
      var v :| version <= v && Holds(items, c.action.where, id, v, raw);
      HoldsInGrown(items, items', c.action.where, id, v, raw);
    case Done(InCustody(_, id, version)) =>
      HoldsInGrown(items, items', c.action.where, id, version, Canonical(c.action.package));
    case Done(Retrieved(id, version, package)) =>
      var raw :| Holds(items, c.action.where, id, version, raw) && VerifyDownload(env.hash, raw, c.action.pins) == Ok(package);
      HoldsInGrown(items, items', c.action.where, id, version, raw);
    case _ =>
  }

  // --------------------------------------------------------------------- steps

  /** A phase that promises nothing about the provider. */
  predicate Silent(phase: Phase) {
    match phase
    case Done(report) => report.Planned? || report.Satisfied? || report.Public?
    case _ => phase.Failed? || phase.Normalizing? || phase.Claiming? || phase.Inspecting?
  }

  lemma SilentFits(env: Env, items: seq<Item>, c: Call, phase: Phase)
    requires MadeFits(items, c) && !c.acted && Silent(phase)
    ensures MadeFits(items, c.(phase := phase)) && ProviderFits(env, items, c.(phase := phase))
  {
  }

  lemma SeenFits(env: Env, items: seq<Item>, c: Call, sha: Text)
    requires MadeFits(items, c) && !c.acted && Native(c.action) && InspectDocument(items, c.action.where, sha).One?
    ensures var seen := InspectDocument(items, c.action.where, sha);
            var c' := c.(phase := Downloading(seen.id, seen.version));
            MadeFits(items, c') && ProviderFits(env, items, c')
  {
    var k := SeenRow(items, c.action.where, sha);
  }

  lemma InspectionFits(env: Env, c: Call, p: Provider, again: bool)
    requires MadeFits(p.items, c) && PhaseFits(env, c) && c.phase == Inspecting(again)
    ensures var c' := c.(phase := Inspected(env, c, p, again)); MadeFits(p.items, c') && ProviderFits(env, p.items, c')
  {
    InspectionGoesOn(env, c, p, again);
    var next := Inspected(env, c, p, again);
    if next.Downloading? {
      var sha := if c.action.Document? then env.hash(Canonical(c.action.package)) else c.action.pins.packageSha256;
      SeenFits(env, p.items, c, sha);
    } else {
      SilentFits(env, p.items, c, next);
    }
  }

  lemma ConfirmationFits(env: Env, c: Call, p: Provider)
    requires MadeFits(p.items, c) && c.phase.Confirming? && c.acted
    ensures var c' := c.(phase := Confirmed(env, c, p)); MadeFits(p.items, c') && ProviderFits(env, p.items, c')
  {
    var next := Confirmed(env, c, p);
    if next.Downloading? {
      var k := SeenRow(p.items, c.action.where, env.hash(Canonical(c.action.package)));
      OnlyMatchIsFirst(p.items, c.action.where, true, c.made.value);
    } else if next.Done? && Creates(c.action) {
      assert Matches(p.items, c.action.where, false, |p.items|) != [] by {
        assert Matching(p.items[c.made.value], c.action.where, false);
      }
      OnlyMatchIsFirst(p.items, c.action.where, false, c.made.value);
    }
  }

  lemma FindsIt(items: seq<Item>, where: Place, id: Text, version: nat) returns (k: nat)
    requires DistinctIds(items) && Exists(items, where, id, version)
    ensures k == Find(items, where.vault, id, |items|) && k < |items| && IsAt(items[k], where, id, version)
  {
    k := Find(items, where.vault, id, |items|);
    var j :| 0 <= j < |items| && IsAt(items[j], where, id, version);
  }

  lemma DownloadFits(env: Env, c: Call, p: Provider)
    requires MadeFits(p.items, c) && ProviderFits(env, p.items, c) && DistinctIds(p.items) && c.phase.Downloading?
    ensures var c' := c.(phase := Downloaded(env, c, p)); MadeFits(p.items, c') && ProviderFits(env, p.items, c')
  {
    var where, id, version := c.action.where, c.phase.id, c.phase.version;
    var k := FindsIt(p.items, where, id, version);
    var raw := p.items[k].versions[|p.items[k].versions| - 1];
    assert Holds(p.items, where, id, |p.items[k].versions|, raw);
  }

  /** The version seen before and after the download is the one that was downloaded. */
  lemma SameVersion(items: seq<Item>, where: Place, sha: Text, id: Text, version: nat, raw: Bytes)
    requires DistinctIds(items) && InspectDocument(items, where, sha) == One(id, version)
    requires HoldsSince(items, where, id, version, raw)
    ensures Holds(items, where, id, version, raw)
  {
    var k := SeenRow(items, where, sha);
    var v :| version <= v && Holds(items, where, id, v, raw);
    var j :| 0 <= j < |items| && IsAt(items[j], where, id, v) && items[j].versions[v - 1] == raw;
    assert j == k;
  }

  lemma RecheckFits(env: Env, c: Call, p: Provider)
    requires MadeFits(p.items, c) && ProviderFits(env, p.items, c) && DistinctIds(p.items) && c.phase.Rechecking?
    ensures var c' := c.(phase := Rechecked(env, c, p)); MadeFits(p.items, c') && ProviderFits(env, p.items, c')
  {
    if Rechecked(env, c, p).Done? {
      var sha := if c.action.Document? then env.hash(Canonical(c.action.package)) else c.action.pins.packageSha256;
      SameVersion(p.items, c.action.where, sha, c.phase.id, c.phase.version, c.phase.raw);
    }
  }

  lemma GateFits(env: Env, c: Call, w: World)
    requires MadeFits(w.provider.items, c) && ProviderFits(env, w.provider.items, c)
    requires !c.phase.Inspecting? && !c.phase.Acting? && !c.phase.Confirming? && !c.phase.Downloading? && !c.phase.Rechecking?
    ensures var (c', w') := GateStep(env, c, w);
            && MadeFits(w.provider.items, c') && ProviderFits(env, w.provider.items, c')
            && w'.provider == w.provider && c'.made == c.made
  {
  }

  /** A step that leaves the provider alone. */
  lemma LookFits(env: Env, id: nat, c: Call, w: World, pick: Pick)
    requires MadeFits(w.provider.items, c) && ProviderFits(env, w.provider.items, c) && DistinctIds(w.provider.items)
    requires !c.phase.Acting? && PhaseFits(env, c)
    ensures var (c', w') := CallStep(env, id, c, w, pick);
            && MadeFits(w.provider.items, c') && ProviderFits(env, w.provider.items, c')
            && w'.provider == w.provider && c'.made == c.made
  {
    match c.phase
    case Inspecting(again) => InspectionFits(env, c, w.provider, again);
    case Confirming => ConfirmationFits(env, c, w.provider);
    case Downloading(_, _) => DownloadFits(env, c, w.provider);
    case Rechecking(_, _, _) => RecheckFits(env, c, w.provider);
    case _ => GateFits(env, c, w);
  }

  lemma ActFits(env: Env, id: nat, c: Call, w: World, pick: Pick)
    requires MadeFits(w.provider.items, c) && DistinctIds(w.provider.items) && c.phase.Acting?
    ensures var (c', w') := ActStep(env, id, c, w, pick);
            && MadeFits(w'.provider.items, c') && ProviderFits(env, w'.provider.items, c')
            && Grows(w.provider.items, w'.provider.items) && DistinctIds(w'.provider.items)
            && (c'.made != c.made ==> c'.made == Some(|w.provider.items|))
  {
    ActItems(env, id, c, w, pick);
    var (c', w') := ActStep(env, id, c, w, pick);
    if c'.made != c.made { NewItemGrows(w.provider.items, NewItem(env, c.action, pick.id)); }
  }

  /** Acting makes one item at most. */
  lemma ActItems(env: Env, id: nat, c: Call, w: World, pick: Pick)
    requires c.phase.Acting? && c.made.None?
    ensures var (c', w') := ActStep(env, id, c, w, pick);
            || (c' == c && w' == w)
            || (&& c' == c.(acted := true, made := c'.made, phase := c'.phase) && (c'.phase.Confirming? || c'.phase.Failed?)
                && if c'.made.Some?
                   then && Creates(c.action) && c'.made.value == |w.provider.items| && UnusedId(w.provider.items, pick.id)
                        && w'.provider.items == w.provider.items + [NewItem(env, c.action, pick.id)]
                   else w'.provider.items == w.provider.items && (c'.phase.Confirming? ==> !Creates(c.action)))
  {
  }

  lemma NewItemGrows(items: seq<Item>, item: Item)
    requires DistinctIds(items) && UnusedId(items, item.id)
    ensures Grows(items, items + [item]) && DistinctIds(items + [item])
  {
  }

  // -------------------------------------------------------------- the system's

  predicate DistinctMade(s: System) {
    forall i, j :: i in s.calls && j in s.calls && i != j && s.calls[i].made.Some? ==> s.calls[i].made != s.calls[j].made
  }

  ghost predicate Kept(env: Env, s: System) {
    && DistinctIds(s.world.provider.items) && DistinctMade(s)
    && forall id :: id in s.calls ==>
         MadeFits(s.world.provider.items, s.calls[id]) && ProviderFits(env, s.world.provider.items, s.calls[id])
  }

  lemma OthersFit(env: Env, s: System, id: nat, c': Call, w': World)
    requires Kept(env, s) && id in s.calls && Grows(s.world.provider.items, w'.provider.items)
    requires DistinctIds(w'.provider.items) && MadeFits(w'.provider.items, c') && ProviderFits(env, w'.provider.items, c')
    requires c'.made == s.calls[id].made || c'.made == Some(|s.world.provider.items|)
    ensures Kept(env, System(w', s.calls[id := c']))
  {
    forall j | j in s.calls && j != id
      ensures MadeFits(w'.provider.items, s.calls[j]) && ProviderFits(env, w'.provider.items, s.calls[j])
    {
      FitsGrown(env, s.world.provider.items, w'.provider.items, s.calls[j]);
    }
  }

  lemma StepKeepsItems(env: Env, s: System, id: nat, pick: Pick)
    requires Kept(env, s) && Gated(env, s) && id in s.calls
    ensures Kept(env, After(env, s, Step(id, pick)))
  {
    var c := s.calls[id];
    assert GateInvariant(env, s.world.markers, c);
    var (c', w') := CallStep(env, id, c, s.world, pick);
    if c.phase.Acting? {
      ActFits(env, id, c, s.world, pick);
    } else {
      LookFits(env, id, c, s.world, pick);
    }
    OthersFit(env, s, id, c', w');
  }

  lemma ItemsGrowKept(env: Env, s: System, items: seq<Item>)
    requires Kept(env, s) && Grows(s.world.provider.items, items) && DistinctIds(items)
    ensures Kept(env, WithItems(s, items))
  {
    forall j | j in s.calls ensures MadeFits(items, s.calls[j]) && ProviderFits(env, items, s.calls[j]) {
      FitsGrown(env, s.world.provider.items, items, s.calls[j]);
    }
  }

  lemma StopKeepsItems(env: Env, s: System, id: nat, phase: Phase)
    requires Kept(env, s) && id in s.calls && (phase.Failed? || phase.Crashed?)
    ensures Kept(env, s.(calls := s.calls[id := s.calls[id].(phase := phase)]))
  {
    OthersFit(env, s, id, s.calls[id].(phase := phase), s.world);
  }

  lemma StartKeepsItems(env: Env, s: System, id: nat, call: Call)
    requires Kept(env, s) && id !in s.calls && Fresh(env, call)
    ensures Kept(env, s.(calls := s.calls[id := call]))
  {
    assert MadeFits(s.world.provider.items, call) && ProviderFits(env, s.world.provider.items, call);
  }

  lemma EventKeepsItems(env: Env, s: System, e: Event)
    requires Kept(env, s) && Gated(env, s)
    ensures Kept(env, After(env, s, e))
  {
    match e
    case Start(id, call) => if id !in s.calls && Fresh(env, call) { StartKeepsItems(env, s, id, call); }
    case Step(id, pick) => if id in s.calls { StepKeepsItems(env, s, id, pick); }
    case Fault(id) => if id in s.calls && !Ended(s.calls[id]) { StopKeepsItems(env, s, id, Failed); }
    case Crash(id) => if id in s.calls && !Ended(s.calls[id]) { StopKeepsItems(env, s, id, Crashed); }
    case OtherItem(item) =>
      if UnusedId(s.world.provider.items, item.id) { ItemsGrowKept(env, s, s.world.provider.items + [item]); }
    case OtherEdit(k, category, tags, bytes) =>
      if k < |s.world.provider.items| { ItemsGrowKept(env, s, Edited(s.world.provider.items, k, category, tags, bytes)); }
    case _ =>
  }

  lemma {:induction false} RunKeepsItems(env: Env, start: int, events: seq<Event>)
    ensures Kept(env, Run(env, Empty(start), events))
    decreases |events|
  {
    if events != [] {
      var before := events[..|events| - 1];
      RunKeepsItems(env, start, before);
      Reachable(env, start, before);
      EventKeepsItems(env, Run(env, Empty(start), before), events[|events| - 1]);
    }
  }

  /** Items are only added, or given new contents. */
  lemma EventGrows(env: Env, s: System, e: Event)
    ensures Grows(s.world.provider.items, After(env, s, e).world.provider.items)
  {
    if e.Step? && e.id in s.calls {
      var c := s.calls[e.id];
      if c.phase.Acting? {
        var w := ActStep(env, e.id, c, s.world, e.pick).1;
        assert |s.world.provider.items| <= |w.provider.items|;
      } else {
        StepKeepsProvider(env, e.id, c, s.world, e.pick);
      }
    }
  }

  lemma StepKeepsProvider(env: Env, id: nat, c: Call, w: World, pick: Pick)
    requires !c.phase.Acting?
    ensures CallStep(env, id, c, w, pick).1.provider == w.provider
  {
  }

  // ------------------------------------------------------------- main results

  /** The call reports that it created the item. */
  predicate Creator(s: System, id: nat) {
    && id in s.calls && s.calls[id].phase.Done? && Creates(s.calls[id].action)
    && Made(s.calls[id].phase.report)
  }

  /** For one vault and title at most one call ever reports a creation, whichever of the three actions it runs. */
  lemma OneCreator(env: Env, start: int, events: seq<Event>, i: nat, j: nat)
    requires var s := Run(env, Empty(start), events); Creator(s, i) && Creator(s, j)
    requires var s := Run(env, Empty(start), events);
             var a, b := s.calls[i].action.where, s.calls[j].action.where;
             a.vault == b.vault && a.title == b.title
    ensures i == j
  {
    RunKeepsItems(env, start, events);
    var s := Run(env, Empty(start), events);
    CreatorMadeFirst(env, s, i);
    CreatorMadeFirst(env, s, j);
    FirstIsUnique(s.world.provider.items, s.calls[i].action.where, s.calls[j].action.where,
                  s.calls[i].made.value, s.calls[j].made.value);
  }

  lemma CreatorMadeFirst(env: Env, s: System, id: nat)
    requires Kept(env, s) && Creator(s, id)
    ensures MadeFirst(s.world.provider.items, s.calls[id])
  {
    assert MadeFits(s.world.provider.items, s.calls[id]) && ProviderFits(env, s.world.provider.items, s.calls[id]);
  }

  lemma FirstIsUnique(items: seq<Item>, a: Place, b: Place, j: nat, k: nat)
    requires a.vault == b.vault && a.title == b.title && First(items, a, j) && First(items, b, k)
    ensures j == k
  {
    assert Titled(items[j], b) && Titled(items[k], a);
  }

  /** A verified custody result names a version of an item whose content is the package's canonical bytes. */
  lemma CustodyIsVerified(env: Env, start: int, events: seq<Event>, id: nat)
    requires var s := Run(env, Empty(start), events);
             id in s.calls && s.calls[id].phase.Done? && s.calls[id].phase.report.InCustody?
    ensures var s := Run(env, Empty(start), events);
            var c := s.calls[id];
            && c.action.Document?
            && Holds(s.world.provider.items, c.action.where, c.phase.report.id, c.phase.report.version,
                     Canonical(c.action.package))
  {
    RunKeepsItems(env, start, events);
    var s := Run(env, Empty(start), events);
    assert ProviderFits(env, s.world.provider.items, s.calls[id]);
  }

  /** A retrieved package is what that version holds, and is the one the receipt pins. */
  lemma RetrievalIsPinned(env: Env, start: int, events: seq<Event>, id: nat)
    requires var s := Run(env, Empty(start), events);
             id in s.calls && s.calls[id].phase.Done? && s.calls[id].phase.report.Retrieved?
    ensures var s := Run(env, Empty(start), events);
            var c := s.calls[id];
            && c.action.Retrieval?
            && ValidPackage(env.hash, c.phase.report.package)
            && env.hash(Canonical(c.phase.report.package)) == c.action.pins.packageSha256
            && SameSource(c.phase.report.package, c.action.pins)
            && Holds(s.world.provider.items, c.action.where, c.phase.report.id, c.phase.report.version,
                     Canonical(c.phase.report.package))
  {
    RunKeepsItems(env, start, events);
    var s := Run(env, Empty(start), events);
    var c := s.calls[id];
    assert ProviderFits(env, s.world.provider.items, c);
    var raw :| Holds(s.world.provider.items, c.action.where, c.phase.report.id, c.phase.report.version, raw)
            && VerifyDownload(env.hash, raw, c.action.pins) == Ok(c.phase.report.package);
    DownloadIsPinned(env.hash, raw, c.action.pins);
  }
}
