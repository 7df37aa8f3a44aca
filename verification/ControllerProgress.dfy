/** A sanctioned call that nothing hinders has its one effect and returns it, in at most twelve of its own steps. */

module ControllerProgress {
  import opened Outcomes
  import opened Text
  import opened Json
  import opened Package
  import opened Lists
  import opened Controllers
  import opened ControllerGate
  import opened ControllerItems
  import opened ControllerReports
  import opened ControllerSigned
  import opened ControllerLooks

  // --------------------------------------------------------------- in its way

  /** No item is in the way of the one that the call makes; the one it made is alone, and as it was made. */
  predicate ItemClear(env: Env, items: seq<Item>, c: Call, byId: bool)
    requires Creates(c.action)
  {
    && c.action.where.itemId == [] && c.action.where.itemVersion == 0
    && match c.made
       case None => NoRow(items, c.action.where, byId)
       case Some(k) =>
         && OnlyRow(items, c.action.where, byId, k) && SafeId(items[k].id) && items[k] == NewItem(env, c.action, items[k].id)
         && forall j :: 0 <= j < |items| && j != k ==> items[j].id != items[k].id
  }

  /** Until its claim the call is at its time and its marker is free; nothing at the provider is in its way. */
  predicate Clear(env: Env, w: World, c: Call) {
    && (c.phase.Normalizing? || c.phase.Inspecting? || c.phase.Claiming? ==> AtItsTime(env, c, w.now))
    && (!c.spent ==> MarkerOf(env, c) !in w.markers)
    && match c.action
       case Document(_, _, _, _) => ItemClear(env, w.provider.items, c, true)
       case SecretItem(_, _, _, _) => ItemClear(env, w.provider.items, c, false)
       case KeyItem(_, tags, _) => ItemClear(env, w.provider.items, c, false) && Distinct(tags)
       case CoManager(vault, user, required, _) => c.acted <==> HasAll(w.provider, vault, user, required)
       case Delivery => true
       case Retrieval(_, _) => false
  }

  /** The provider does what it is asked for, and answers. */
  predicate Obliging(w: World, c: Call, pick: Pick) {
    c.phase.Acting? ==> pick.happens && pick.answered && (Creates(c.action) ==> UnusedId(w.provider.items, pick.id))
  }

  /** Through all these events nothing is in the way of id's call, and it meets no error. */
  predicate Unhindered(env: Env, s: System, events: seq<Event>, id: nat)
    decreases |events|
  {
    && id in Run(env, s, events).calls && Clear(env, Run(env, s, events).world, Run(env, s, events).calls[id])
    && (events != [] ==>
          var before, e := events[..|events| - 1], events[|events| - 1];
          && Unhindered(env, s, before, id)
          && ((e.Fault? || e.Crash?) ==> e.id != id)
          && (e.Step? && e.id == id ==> Obliging(Run(env, s, before).world, Run(env, s, before).calls[id], e.pick)))
  }

  // ---------------------------------------------------------------- on course

  /** The result it will return: its own item at its first version, all permissions, or the delivery. */
  predicate IsExpected(items: seq<Item>, c: Call, report: Report) {
    match c.action
    case Document(_, _, _, _) => c.made.Some? && c.made.value < |items| && report == InCustody(true, items[c.made.value].id, 1)
    case SecretItem(_, _, _, _) => c.made.Some? && c.made.value < |items| && report == CreatedItem(items[c.made.value].id, 1)
    case KeyItem(_, _, _) => c.made.Some? && c.made.value < |items| && report == CreatedItem(items[c.made.value].id, 1)
    case CoManager(_, _, _, _) => report == GrantedAll([])
    case Delivery => report == Delivered
    case Retrieval(_, _) => false
  }

  predicate OnCourse(items: seq<Item>, c: Call) {
    && Mutating(c)
    && match c.phase
       case Confirming => Creates(c.action) ==> c.made.Some?
       case Downloading(id, version) =>
         c.action.Document? && c.made.Some? && c.made.value < |items| && id == items[c.made.value].id && version == 1
       case Rechecking(id, version, raw) =>
         c.action.Document? && c.made.Some? && c.made.value < |items| && id == items[c.made.value].id && version == 1
       case Done(report) => IsExpected(items, c, report)
       case Failed => false
       case Crashed => false
       case _ => true
  }

  /** The steps it still takes, at most. */
  function StepsToGo(c: Call): int {
    match c.phase
    case Normalizing => if c.action.Document? then 10 else 12
    case Inspecting(again) => if again then 9 else 11
    case Claiming => 8
    case Marking(_) => 7
    case Recording(_) => 6
    case Preparing => 5
    case Acting => 4
    case Confirming => 3
    case Downloading(_, _) => 2
    case Rechecking(_, _, _) => 1
    case _ => 0
  }

  /** Where a step of a call on its course leads. */
  predicate Proceeds(items: seq<Item>, c: Call, c': Call) {
    OnCourse(items, c') && (c'.phase.Done? || StepsToGo(c') < StepsToGo(c))
  }

  // --------------------------------------------------------------- inspections

  lemma InspectsOn(env: Env, c: Call, w: World)
    requires GateInvariant(env, w.markers, c) && OnCourse(w.provider.items, c) && Clear(env, w, c) && c.phase.Inspecting?
    ensures var phase := Inspected(env, c, w.provider, c.phase.again);
            if c.phase.again then phase.Claiming?
            else if c.action.Document? then phase.Normalizing?
            else if c.action.CoManager? then phase == Inspecting(true)
            else phase.Claiming?
  {
    match c.action
    case Document(where, package, _, _) =>
      InspectDocumentExactly(w.provider.items, where, env.hash(Canonical(package)), 0);
    case CoManager(vault, user, required, _) => MissingNone(w.provider, vault, user, required);
    case Delivery =>
    case Retrieval(_, _) =>
    case _ => InspectItemExactly(w.provider.items, c.action, 0);
  }

  lemma NormalizesOn(env: Env, id: nat, c: Call, w: World, pick: Pick)
    requires Sanctioned(env, c)
    requires GateInvariant(env, w.markers, c) && OnCourse(w.provider.items, c) && Clear(env, w, c) && c.phase.Normalizing?
    ensures var (c', w') := CallStep(env, id, c, w, pick); w' == w && Proceeds(w'.provider.items, c, c')
  {
    NormalizesExactly(env, id, c, w, pick);
  }

  lemma LooksOn(env: Env, id: nat, c: Call, w: World, pick: Pick)
    requires GateInvariant(env, w.markers, c) && OnCourse(w.provider.items, c) && Clear(env, w, c) && c.phase.Inspecting?
    ensures var (c', w') := CallStep(env, id, c, w, pick); w' == w && Proceeds(w'.provider.items, c, c')
  {
    InspectsOn(env, c, w);
  }

  lemma ClaimsOn(env: Env, id: nat, c: Call, w: World, pick: Pick)
    requires GateInvariant(env, w.markers, c) && OnCourse(w.provider.items, c) && Clear(env, w, c)
    requires c.phase.Claiming? || c.phase.Marking?
    ensures var (c', w') := CallStep(env, id, c, w, pick);
            w'.provider == w.provider && Proceeds(w'.provider.items, c, c')
  {
    ClaimsExactly(env, id, c, w, pick);
  }

  lemma RecordsOn(env: Env, id: nat, c: Call, w: World, pick: Pick)
    requires OnCourse(w.provider.items, c) && (c.phase.Recording? || c.phase.Preparing?)
    ensures var (c', w') := CallStep(env, id, c, w, pick); w' == w && Proceeds(w'.provider.items, c, c')
  {
  }

  lemma ActsOn(env: Env, id: nat, c: Call, w: World, pick: Pick)
    requires GateInvariant(env, w.markers, c) && OnCourse(w.provider.items, c) && c.phase.Acting? && Obliging(w, c, pick)
    requires !c.action.Retrieval?
    ensures var (c', w') := CallStep(env, id, c, w, pick); Proceeds(w'.provider.items, c, c')
  {
    var c' := CallStep(env, id, c, w, pick).0;
    assert c'.phase.Confirming? && (Creates(c.action) ==> c'.made.Some?);
  }

  // ------------------------------------------------------------ after the effect

  /** What an inspection finds of the item that the call made. */
  lemma FindsItsItem(env: Env, c: Call, w: World)
    requires OnCourse(w.provider.items, c) && Clear(env, w, c) && c.made.Some? && Creates(c.action)
    ensures c.made.value < |w.provider.items|
    ensures var identity := w.provider.items[c.made.value].id;
            if c.action.Document?
            then InspectDocument(w.provider.items, c.action.where, env.hash(Canonical(c.action.package))) == One(identity, 1)
            else InspectItem(w.provider.items, c.action) == One(identity, 1)
  {
    var k := c.made.value;
    if c.action.Document? {
      InspectDocumentExactly(w.provider.items, c.action.where, env.hash(Canonical(c.action.package)), k);
    } else {
      InspectItemExactly(w.provider.items, c.action, k);
      if c.action.KeyItem? { DistinctTags(c.action.tags); }
    }
  }

  lemma {:induction false} DistinctTags(tags: seq<Text>)
    requires Distinct(tags)
    ensures multiset(set tag | tag in tags) == multiset(tags)
    decreases |tags|
  {
    if tags != [] {
      var last, rest := tags[|tags| - 1], tags[..|tags| - 1];
      DistinctTags(rest);
      assert tags == rest + [last];
      assert (set tag | tag in tags) == (set tag | tag in rest) + {last};
      assert last !in rest;
    } else {
      assert (set tag | tag in tags) == {};
    }
  }

  lemma ConfirmsOn(env: Env, id: nat, c: Call, w: World, pick: Pick)
    requires OnCourse(w.provider.items, c) && Clear(env, w, c) && c.phase.Confirming? && c.acted
    ensures var (c', w') := CallStep(env, id, c, w, pick); w' == w && Proceeds(w'.provider.items, c, c')
  {
    ConfirmsAs(env, c, w);
  }

  lemma ConfirmsAs(env: Env, c: Call, w: World)
    requires OnCourse(w.provider.items, c) && Clear(env, w, c) && c.phase.Confirming? && c.acted
    ensures var phase := Confirmed(env, c, w.provider);
            if c.action.Document?
            then c.made.Some? && c.made.value < |w.provider.items| && phase == Downloading(w.provider.items[c.made.value].id, 1)
            else phase.Done? && IsExpected(w.provider.items, c, phase.report)
  {
    if Creates(c.action) {
      FindsItsItem(env, c, w);
    } else if c.action.CoManager? {
      MissingNone(w.provider, c.action.vault, c.action.user, c.action.required);
    }
  }

  lemma DownloadsOn(env: Env, id: nat, c: Call, w: World, pick: Pick)
    requires OnCourse(w.provider.items, c) && Clear(env, w, c) && c.phase.Downloading?
    requires ValidPackage(env.hash, c.action.package)
    ensures var (c', w') := CallStep(env, id, c, w, pick); w' == w && Proceeds(w'.provider.items, c, c')
  {
    DownloadsItsItem(env, c, w);
  }

  lemma DownloadsItsItem(env: Env, c: Call, w: World)
    requires c.action.Document? && c.phase.Downloading? && ValidPackage(env.hash, c.action.package)
    requires ItemClear(env, w.provider.items, c, true) && c.made.Some? && c.phase.id == w.provider.items[c.made.value].id
    ensures Downloaded(env, c, w.provider) == Rechecking(c.phase.id, c.phase.version, Canonical(c.action.package))
  {
    FindsOnly(w.provider.items, c.action.where.vault, c.made.value);
    DecodeUndoesValidate(env.hash, c.action.package);
  }

  lemma FindsOnly(items: seq<Item>, vault: Text, k: nat)
    requires k < |items| && items[k].vault == vault && forall j :: 0 <= j < |items| && j != k ==> items[j].id != items[k].id
    ensures Find(items, vault, items[k].id, |items|) == k
  {
    var n := Find(items, vault, items[k].id, |items|);
    assert n < |items| ==> items[n].id == items[k].id;
  }

  lemma RechecksOn(env: Env, id: nat, c: Call, w: World, pick: Pick)
    requires OnCourse(w.provider.items, c) && Clear(env, w, c) && c.phase.Rechecking? && c.acted
    ensures var (c', w') := CallStep(env, id, c, w, pick); w' == w && Proceeds(w'.provider.items, c, c')
  {
    FindsItsItem(env, c, w);
  }

  // ------------------------------------------------------------------- runs

  predicate KeepsPackage(env: Env, c: Call) { c.action.Document? ==> ValidPackage(env.hash, c.action.package) }

  /** The arguments of a call, and what it was signed for. */
  predicate SameOrder(c: Call, c': Call) {
    && c'.action == c.action && c'.authority == c.authority && c'.approval == c.approval
    && c'.target == c.target && c'.binding == c.binding
  }

  lemma StaysSanctioned(env: Env, c: Call, c': Call)
    requires Sanctioned(env, c) && SameOrder(c, c')
    ensures Sanctioned(env, c')
  {
    SameSigned(env, c, c');
  }

  lemma StepProceeds(env: Env, id: nat, c: Call, w: World, pick: Pick)
    requires GateInvariant(env, w.markers, c) && OnCourse(w.provider.items, c) && Clear(env, w, c) && KeepsPackage(env, c)
    requires Obliging(w, c, pick) && !c.phase.Done? && (c.phase.Normalizing? ==> Sanctioned(env, c))
    ensures var (c', w') := CallStep(env, id, c, w, pick); Proceeds(w'.provider.items, c, c')
  {
    if c.phase.Normalizing? {
      NormalizesOn(env, id, c, w, pick);
    } else if c.phase.Confirming? || c.phase.Downloading? || c.phase.Rechecking? {
      EndProceeds(env, id, c, w, pick);
    } else {
      MiddleProceeds(env, id, c, w, pick);
    }
  }

  lemma MiddleProceeds(env: Env, id: nat, c: Call, w: World, pick: Pick)
    requires GateInvariant(env, w.markers, c) && OnCourse(w.provider.items, c) && Clear(env, w, c) && Obliging(w, c, pick)
    requires c.phase.Inspecting? || c.phase.Claiming? || c.phase.Marking? || c.phase.Recording? || c.phase.Preparing?
             || c.phase.Acting?
    ensures var (c', w') := CallStep(env, id, c, w, pick); Proceeds(w'.provider.items, c, c')
  {
    match c.phase
    case Inspecting(_) => LooksOn(env, id, c, w, pick);
    case Claiming => ClaimsOn(env, id, c, w, pick);
    case Marking(_) => ClaimsOn(env, id, c, w, pick);
    case Acting => ActsOn(env, id, c, w, pick);
    case _ => RecordsOn(env, id, c, w, pick);
  }

  lemma EndProceeds(env: Env, id: nat, c: Call, w: World, pick: Pick)
    requires GateInvariant(env, w.markers, c) && OnCourse(w.provider.items, c) && Clear(env, w, c) && KeepsPackage(env, c)
    requires c.phase.Confirming? || c.phase.Downloading? || c.phase.Rechecking?
    ensures var (c', w') := CallStep(env, id, c, w, pick); Proceeds(w'.provider.items, c, c')
  {
    match c.phase
    case Confirming => ConfirmsOn(env, id, c, w, pick);
    case Downloading(_, _) => DownloadsOn(env, id, c, w, pick);
    case Rechecking(_, _, _) => RechecksOn(env, id, c, w, pick);
  }

  lemma StaysOnCourse(items: seq<Item>, items': seq<Item>, c: Call)
    requires OnCourse(items, c) && Grows(items, items')
    ensures OnCourse(items', c)
  {
    if c.made.Some? && c.made.value < |items| { assert Continues(items[c.made.value], items'[c.made.value]); }
  }

  function StepsOf(events: seq<Event>, id: nat): nat
    decreases |events|
  {
    if events == [] then 0 else
      StepsOf(events[..|events| - 1], id)
      + if events[|events| - 1].Step? && events[|events| - 1].id == id then 1 else 0
  }

  /** id's call is c on its course and needs at most that many steps. */
  predicate Nears(s: System, id: nat, c: Call, most: int) {
    && id in s.calls && OnCourse(s.world.provider.items, s.calls[id]) && SameOrder(c, s.calls[id])
    && (s.calls[id].phase.Done? || StepsToGo(s.calls[id]) <= most)
  }

  lemma OthersLeave(env: Env, s: System, e: Event, id: nat)
    requires id in s.calls && ((e.Start? || e.Step? || e.Fault? || e.Crash?) ==> e.id != id)
    ensures id in After(env, s, e).calls && After(env, s, e).calls[id] == s.calls[id]
  {
  }

  lemma StepNears(env: Env, s: System, id: nat, pick: Pick, c: Call, most: int)
    requires Gated(env, s) && Nears(s, id, c, most) && Clear(env, s.world, s.calls[id]) && !s.calls[id].phase.Done?
    requires Obliging(s.world, s.calls[id], pick) && KeepsPackage(env, s.calls[id])
    requires s.calls[id].phase.Normalizing? ==> Sanctioned(env, s.calls[id])
    ensures Nears(After(env, s, Step(id, pick)), id, c, most - 1)
  {
    StepProceeds(env, id, s.calls[id], s.world, pick);
  }

  lemma OtherNears(env: Env, s: System, e: Event, id: nat, c: Call, most: int)
    requires Nears(s, id, c, most) && ((e.Step? || e.Fault? || e.Crash?) ==> e.id != id)
    ensures Nears(After(env, s, e), id, c, most)
  {
    EventGrows(env, s, e);
    if !(e.Start? && e.id == id) { OthersLeave(env, s, e, id); }
    StaysOnCourse(s.world.provider.items, After(env, s, e).world.provider.items, s.calls[id]);
  }

  lemma EventNears(env: Env, s: System, e: Event, id: nat, c: Call, most: int)
    requires Gated(env, s) && Nears(s, id, c, most) && Clear(env, s.world, s.calls[id])
    requires Sanctioned(env, c) && KeepsPackage(env, c)
    requires ((e.Fault? || e.Crash?) ==> e.id != id) && (e.Step? && e.id == id ==> Obliging(s.world, s.calls[id], e.pick))
    ensures Nears(After(env, s, e), id, c, most - if e.Step? && e.id == id then 1 else 0)
  {
    if !(e.Step? && e.id == id) {
      OtherNears(env, s, e, id, c, most);
    } else if s.calls[id].phase.Done? {
      EndedKept(env, id, s.calls[id], s.world);
    } else {
      StaysSanctioned(env, c, s.calls[id]);
      StepNears(env, s, id, e.pick, c, most);
    }
  }

  lemma {:induction false} RunNears(env: Env, s: System, events: seq<Event>, id: nat, c: Call, most: int)
    requires Gated(env, s) && Nears(s, id, c, most) && Unhindered(env, s, events, id)
    requires Sanctioned(env, c) && KeepsPackage(env, c)
    ensures Nears(Run(env, s, events), id, c, most - StepsOf(events, id))
    decreases |events|
  {
    if events != [] {
      var before, e := events[..|events| - 1], events[|events| - 1];
      RunNears(env, s, before, id, c, most);
      RunKeepsGate(env, s, before);
      ClearBefore(env, s, before, id);
      EventNears(env, Run(env, s, before), e, id, c, most - StepsOf(before, id));
    }
  }

  lemma ClearBefore(env: Env, s: System, events: seq<Event>, id: nat)
    requires Unhindered(env, s, events, id)
    ensures id in Run(env, s, events).calls && Clear(env, Run(env, s, events).world, Run(env, s, events).calls[id])
  {
  }

  lemma StartsOnCourse(env: Env, items: seq<Item>, c: Call)
    requires Fresh(env, c) && Mutating(c)
    ensures OnCourse(items, c) && StepsToGo(c) <= 12 && KeepsPackage(env, c)
  {
  }

  // ------------------------------------------------------------- main result

  /**
   * A sanctioned call outside check mode that applies: if nothing gets in its way and the provider does what it is asked
   * for, it has returned after twelve of its own steps, with its own new item, all permissions, or the delivery; whatever
   * the others do meanwhile, it has had its one effect, after its claim.
   */
  lemma SanctionedCallSucceeds(env: Env, start: int, events: seq<Event>, more: seq<Event>, id: nat)
    requires var s := Run(env, Empty(start), events);
             && id in s.calls && Fresh(env, s.calls[id]) && Mutating(s.calls[id]) && Sanctioned(env, s.calls[id])
             && Unhindered(env, s, more, id) && StepsOf(more, id) >= 12
    ensures var s := Run(env, Run(env, Empty(start), events), more);
            && id in s.calls && s.calls[id].phase.Done?
            && IsExpected(s.world.provider.items, s.calls[id], s.calls[id].phase.report)
            && id in s.world.effects && s.calls[id].claimed.Some?
  {
    var s := Run(env, Empty(start), events);
    Reachable(env, start, events);
    StartsOnCourse(env, s.world.provider.items, s.calls[id]);
    RunNears(env, s, more, id, s.calls[id], 12);
    RunKeepsGate(env, s, more);
    NearEnd(env, Run(env, s, more), id, s.calls[id]);
  }

  lemma NearEnd(env: Env, s: System, id: nat, c: Call)
    requires Nears(s, id, c, 0) && Gated(env, s)
    ensures s.calls[id].phase.Done? && IsExpected(s.world.provider.items, s.calls[id], s.calls[id].phase.report)
    ensures id in s.world.effects && s.calls[id].claimed.Some?
  {
    assert GateInvariant(env, s.world.markers, s.calls[id]);
    ExpectedIsMade(s.world.provider.items, s.calls[id], s.calls[id].phase.report);
  }

  lemma ExpectedIsMade(items: seq<Item>, c: Call, report: Report)
    requires IsExpected(items, c, report)
    ensures Made(report)
  {
  }

  // -------------------------------------------- from the beginning of a run

  /** Since it began, nothing was in the way of id's call, and it met no error. */
  predicate Favoured(env: Env, s: System, events: seq<Event>, id: nat)
    decreases |events|
  {
    && (id in Run(env, s, events).calls ==> Clear(env, Run(env, s, events).world, Run(env, s, events).calls[id]))
    && (events != [] ==>
          var before, e := events[..|events| - 1], events[|events| - 1];
          && Favoured(env, s, before, id)
          && ((e.Fault? || e.Crash?) ==> e.id != id)
          && (e.Step? && e.id == id && id in Run(env, s, before).calls ==>
                Obliging(Run(env, s, before).world, Run(env, s, before).calls[id], e.pick)))
  }

  lemma EventSameOrder(env: Env, s: System, e: Event, id: nat)
    requires id in s.calls
    ensures id in After(env, s, e).calls && SameOrder(s.calls[id], After(env, s, e).calls[id])
    ensures After(env, s, e).calls[id].checkMode == s.calls[id].checkMode
  {
  }

  lemma SameMutating(c: Call, c': Call)
    requires SameOrder(c, c') && c'.checkMode == c.checkMode
    ensures Mutating(c') == Mutating(c)
  {
  }

  lemma Begins(env: Env, s: System, e: Event, id: nat)
    requires id !in s.calls && id in After(env, s, e).calls
    ensures Fresh(env, After(env, s, e).calls[id])
  {
  }

  lemma {:induction false} FavouredNears(env: Env, start: int, events: seq<Event>, id: nat)
    requires Favoured(env, Empty(start), events, id) && id in Run(env, Empty(start), events).calls
    requires var c := Run(env, Empty(start), events).calls[id]; Mutating(c) && Sanctioned(env, c)
    ensures var s := Run(env, Empty(start), events); Nears(s, id, s.calls[id], 12) && KeepsPackage(env, s.calls[id])
    decreases |events|
  {
    var before, e := events[..|events| - 1], events[|events| - 1];
    var m, s := Run(env, Empty(start), before), Run(env, Empty(start), events);
    if id in m.calls {
      EventSameOrder(env, m, e, id);
      SameMutating(m.calls[id], s.calls[id]);
      StaysSanctioned(env, s.calls[id], m.calls[id]);
      FavouredNears(env, start, before, id);
      Reachable(env, start, before);
      ClearThen(env, start, events, id);
      EventNears(env, m, e, id, m.calls[id], 12);
      NearsItself(s, id, m.calls[id], 12);
    } else {
      Begins(env, m, e, id);
      StartsOnCourse(env, s.world.provider.items, s.calls[id]);
    }
  }

  lemma ClearThen(env: Env, start: int, events: seq<Event>, id: nat)
    requires events != [] && Favoured(env, Empty(start), events, id)
    requires id in Run(env, Empty(start), events[..|events| - 1]).calls
    ensures var m, e := Run(env, Empty(start), events[..|events| - 1]), events[|events| - 1];
            && Clear(env, m.world, m.calls[id]) && ((e.Fault? || e.Crash?) ==> e.id != id)
            && (e.Step? && e.id == id ==> Obliging(m.world, m.calls[id], e.pick))
  {
  }

  lemma NearsItself(s: System, id: nat, c: Call, most: int)
    requires Nears(s, id, c, most) || Nears(s, id, c, most - 1)
    ensures Nears(s, id, s.calls[id], most)
  {
  }

  /** A favoured call that has ended has returned what was expected. */
  lemma FavouredCallSucceeds(env: Env, start: int, events: seq<Event>, id: nat)
    requires Favoured(env, Empty(start), events, id) && id in Run(env, Empty(start), events).calls
    requires var c := Run(env, Empty(start), events).calls[id]; Mutating(c) && Sanctioned(env, c) && Ended(c)
    ensures var s := Run(env, Empty(start), events);
            s.calls[id].phase.Done? && IsExpected(s.world.provider.items, s.calls[id], s.calls[id].phase.report)
  {
    FavouredNears(env, start, events, id);
    EndsExpected(Run(env, Empty(start), events), id, Run(env, Empty(start), events).calls[id]);
  }

  lemma EndsExpected(s: System, id: nat, c: Call)
    requires Nears(s, id, c, 12) && Ended(s.calls[id])
    ensures s.calls[id].phase.Done? && IsExpected(s.world.provider.items, s.calls[id], s.calls[id].phase.report)
  {
  }
}
