/** Approval-gated controllers on one provider account and one set of replay markers, a provider call per step. */

module Controllers {
  import opened Outcomes
  import opened Text
  import opened Json
  import opened Package
  import opened Approvals

  // ----------------------------------------------------------------- provider

  /** A stored item; its version is the number of contents it has had. */
  datatype Item = Item(id: Text, vault: Text, title: Text, category: Text, tags: seq<Text>, versions: seq<Bytes>)

  /** Permissions of a user in a vault. */
  datatype Provider = Provider(items: seq<Item>, grants: map<(Text, Text), seq<Text>>)

  /** A vault, a title, and a pinned identity and version when the item is already known. */
  datatype Place = Place(vault: Text, title: Text, itemId: Text, itemVersion: nat)

  predicate Titled(item: Item, where: Place) { item.vault == where.vault && item.title == where.title }

  predicate Matching(item: Item, where: Place, byId: bool) {
    item.vault == where.vault && (item.title == where.title || (byId && where.itemId != [] && item.id == where.itemId))
  }

  /** The rows of a listing that an inspection looks at. */
  function Matches(items: seq<Item>, where: Place, byId: bool, n: nat): (rows: seq<nat>)
    requires n <= |items|
    ensures forall i :: 0 <= i < |rows| ==> rows[i] < n && Matching(items[rows[i]], where, byId)
    ensures forall k :: 0 <= k < n && Matching(items[k], where, byId) ==> k in rows
    ensures |rows| <= n
  {
    if n == 0 then [] else
      Matches(items, where, byId, n - 1) + if Matching(items[n - 1], where, byId) then [n - 1] else []
  }

  lemma IncreasingMore(rows: seq<nat>, n: nat)
    requires Increasing(rows) && forall i :: 0 <= i < |rows| ==> rows[i] < n
    ensures Increasing(rows + [n])
  {
  }

  predicate Increasing(rows: seq<nat>) { forall i, j :: 0 <= i < j < |rows| ==> rows[i] < rows[j] }

  /** Each such row occurs once, in the order of the listing. */
  lemma {:induction false} MatchesInOrder(items: seq<Item>, where: Place, byId: bool, n: nat)
    requires n <= |items|
    ensures Increasing(Matches(items, where, byId, n))
  {
    if n > 0 {
      MatchesInOrder(items, where, byId, n - 1);
      var before := Matches(items, where, byId, n - 1);
      IncreasingMore(before, n - 1);
    }
  }

  // ------------------------------------------------------------------ actions

  datatype Operation = Plan | Apply | Verify

  datatype Action =
    | Document(where: Place, package: Json, operation: Operation, allowCreate: bool)
    | Retrieval(where: Place, pins: Pins)
    | SecretItem(where: Place, category: Text, tags: seq<Text>, operation: Operation)
    | KeyItem(where: Place, tags: seq<Text>, operation: Operation)
    | CoManager(vault: Text, user: Text, required: seq<Text>, operation: Operation)
    | Delivery

  /** What an inspection finds: no item, the one item, or something it refuses. */
  datatype Seen = Nothing | One(id: Text, version: nat) | Drift

  predicate SafeId(id: Text) {
    |id| == 26 && forall i :: 0 <= i < 26 ==> 48 <= id[i] <= 57 || 97 <= id[i] <= 122
  }

  const DOCUMENT_CATEGORY: Text := S("DOCUMENT")
  const KEY_CATEGORY: Text := S("SSH_KEY")

  function CustodyTags(sha: Text): seq<Text> { [S("luks-header-custody"), sha] }

  /** `inspect` of a native document: the only row by title or pinned identity, tagged with the checksum. */
  function InspectDocument(items: seq<Item>, where: Place, sha: Text): Seen {
    var rows := Matches(items, where, true, |items|);
    if rows == [] then (if where.itemId != [] then Drift else Nothing)
    else if |rows| != 1 then Drift
    else
      var row := items[rows[0]];
      if row.title != where.title || row.category != DOCUMENT_CATEGORY || !SafeId(row.id) || row.versions == []
        || multiset(row.tags) != multiset(CustodyTags(sha))
        || (where.itemId != [] && (row.id != where.itemId || |row.versions| != where.itemVersion))
      then Drift else One(row.id, |row.versions|)
  }

  predicate SameTags(action: Action, observed: seq<Text>)
    requires action.SecretItem? || action.KeyItem?
  {
    if action.SecretItem? then multiset(observed) == multiset(action.tags)
    else multiset(set tag | tag in observed) == multiset(action.tags)
  }

  /** `inspect` of a secret or key item: the only row by title; the checks of its fields can only refuse it. */
  function InspectItem(items: seq<Item>, action: Action): Seen
    requires action.SecretItem? || action.KeyItem?
  {
    var where := action.where;
    var rows := Matches(items, where, false, |items|);
    if |rows| > 1 then Drift
    else if rows == [] then (if where.itemId != [] then Drift else Nothing)
    else
      var row := items[rows[0]];
      if !SafeId(row.id) || row.versions == [] || row.category != (if action.SecretItem? then action.category else KEY_CATEGORY)
        || (where.itemId != [] && row.id != where.itemId)
        || (where.itemVersion != 0 && |row.versions| != where.itemVersion)
        || !SameTags(action, row.tags)
      then Drift else One(row.id, |row.versions|)
  }

  /** The required permissions a user does not have, in order. */
  function Missing(required: seq<Text>, observed: seq<Text>): (missing: seq<Text>)
    ensures forall p :: p in missing <==> p in required && p !in observed
  {
    if required == [] then [] else
      (if required[0] in observed then [] else [required[0]]) + Missing(required[1..], observed)
  }

  function Granted(p: Provider, vault: Text, user: Text): seq<Text> {
    if (vault, user) in p.grants then p.grants[(vault, user)] else []
  }

  // -------------------------------------------------------------------- calls

  /** What a call returns. */
  datatype Report =
    | Planned(wouldChange: bool)
    | Satisfied(missing: seq<Text>)
    | InCustody(created: bool, id: Text, version: nat)
    | Retrieved(id: Text, version: nat, package: Json)
    | Public(id: Text, version: nat)
    | CreatedItem(id: Text, version: nat)
    | GrantedAll(missing: seq<Text>)
    | Delivered

  /** The value of `changed` in the result. */
  function Changed(report: Report): bool {
    match report
    case Planned(wouldChange) => wouldChange
    case Satisfied(_) => false
    case InCustody(created, _, _) => created
    case Retrieved(_, _, _) => false
    case Public(_, _) => false
    case CreatedItem(_, _) => true
    case GrantedAll(_) => true
    case Delivered => true
  }

  datatype Phase =
    | Normalizing
    | Inspecting(again: bool)
    | Claiming
    | Marking(at: int)
    | Recording(at: int)
    | Preparing
    | Acting
    | Confirming
    | Downloading(id: Text, version: nat)
    | Rechecking(id: Text, version: nat, raw: Bytes)
    | Done(report: Report)
    | Failed
    | Crashed

  /** A run of an action; spent says that it made its marker, made is the item it made. */
  datatype Call = Call(
    action: Action, checkMode: bool, approval: Approval, authority: Authority, target: Text, binding: Json,
    directory: Directory, pending: Option<Pending>, spent: bool, claimed: Option<int>, acted: bool, made: Option<nat>,
    phase: Phase)

  datatype World = World(now: int, markers: set<Marker>, provider: Provider, effects: seq<nat>)

  /** SHA-256, the calendar and ssh-keygen. */
  datatype Env = Env(hash: Digest, calendar: Calendar, verify: Verifier)

  /** What the provider and the system pick: an identity, permissions, and whether a request worked and was answered. */
  datatype Pick = Pick(id: Text, permissions: seq<Text>, happens: bool, answered: bool)

  /** The actions whose arguments carry an approval, normalized before they look at the provider. */
  predicate ApprovedFirst(action: Action) {
    match action
    case SecretItem(_, _, _, operation) => operation.Apply?
    case KeyItem(_, _, operation) => operation.Apply?
    case CoManager(_, _, _, operation) => operation.Apply?
    case Delivery => true
    case _ => false
  }

  /** The call may mutate: it applies, outside check mode. */
  predicate Mutating(c: Call) {
    && !c.checkMode
    && (ApprovedFirst(c.action) || (c.action.Document? && c.action.operation.Apply? && c.action.allowCreate))
  }

  function OperationName(action: Action): Text {
    match action
    case Document(_, _, _, _) => S("create-onepassword-header-document")
    case Retrieval(_, _) => []
    case SecretItem(_, _, _, _) => S("create-onepassword-secret")
    case KeyItem(_, _, _) => S("create-onepassword-ssh-key")
    case CoManager(_, _, _, _) => S("grant-onepassword-vault-co-manager")
    case Delivery => S("unlock-luks-over-ssh-stdin")
  }

  /** What `onepassword_custody` has signed: the package's subject, its digest and the permission to create. */
  predicate BoundToPackage(hash: Digest, c: Call) {
    c.action.Document? ==>
      && (match Field(c.action.package, "manifest")
          case Some(manifest) => Field(manifest, "subject") == Some(JString(c.target))
          case None => false)
      && Field(c.binding, "package_sha256") == Some(JString(hash(Canonical(c.action.package))))
      && Field(c.binding, "allow_create") == Some(JBool(true))
  }

  predicate Fresh(env: Env, c: Call) {
    && c.pending.None? && !c.spent && c.claimed.None? && !c.acted && c.made.None?
    && c.phase == (if ApprovedFirst(c.action) then Normalizing else Inspecting(false))
    && (c.action.Document? ==> ValidPackage(env.hash, c.action.package)) && BoundToPackage(env.hash, c)
    && (c.action.Retrieval? ==> ValidPins(c.action.pins) && c.action.where.itemId != [] && c.action.where.itemVersion > 0)
    && (c.action.SecretItem? ==> !c.action.operation.Verify?)
    && (c.action.CoManager? ==> !c.action.operation.Verify?)
    && ((c.action.SecretItem? || c.action.KeyItem?) && c.action.operation.Apply? ==> c.action.where.itemId == [])
  }

  /** What follows an inspection for a native document. */
  function DocumentInspected(c: Call, seen: Seen, again: bool): Phase
    requires c.action.Document?
  {
    if again then (if seen.Nothing? then Claiming else Failed)
    else
      match seen
      case Drift => Failed
      case One(id, version) => Downloading(id, version)
      case Nothing =>
        if c.action.operation.Verify? then Failed
        else if c.action.operation.Plan? || c.checkMode then Done(Planned(false))
        else if !c.action.allowCreate then Failed
        else Normalizing
  }

  /** What follows an inspection for a secret or key item. */
  function ItemInspected(c: Call, seen: Seen): Phase
    requires c.action.SecretItem? || c.action.KeyItem?
  {
    if seen.Drift? || (c.action.operation.Apply? && seen.One?) then Failed
    else if c.action.operation.Plan? || (c.action.operation.Apply? && c.checkMode) then Done(Planned(seen.Nothing?))
    else if c.action.operation.Apply? then Claiming
    else if seen.One? then Done(Public(seen.id, seen.version)) else Failed
  }

  /** What follows an inspection of permissions. */
  function GrantInspected(c: Call, missing: seq<Text>, again: bool): Phase
    requires c.action.CoManager?
  {
    if !again && (!c.action.operation.Apply? || c.checkMode) then Done(Planned(missing != []))
    else if missing == [] then Done(Satisfied(missing))
    else if again then Claiming else Inspecting(true)
  }

  function Inspected(env: Env, c: Call, p: Provider, again: bool): Phase {
    match c.action
    case Document(where, package, _, _) =>
      DocumentInspected(c, InspectDocument(p.items, where, env.hash(Canonical(package))), again)
    case Retrieval(where, pins) =>
      (match InspectDocument(p.items, where, pins.packageSha256)
       case One(id, version) => Downloading(id, version)
       case _ => Failed)
    case CoManager(vault, user, required, _) => GrantInspected(c, Missing(required, Granted(p, vault, user)), again)
    case Delivery => if c.checkMode then Done(Planned(false)) else Claiming
    case _ => ItemInspected(c, InspectItem(p.items, c.action))
  }

  /** `normalize_approval` and `claim_approval`, step by step: clock, exclusive marker, evidence. */
  function GateStep(env: Env, c: Call, w: World): (r: (Call, World))
    ensures r.0 == c.(pending := r.0.pending, spent := r.0.spent, claimed := r.0.claimed, phase := r.0.phase)
    ensures r.1 == w.(markers := r.1.markers) && (r.0.phase.Done? ==> r.0 == c)
  {
    match c.phase
    case Normalizing =>
      (match Normalize(env.hash, env.calendar, env.verify, c.approval, c.authority, OperationName(c.action),
                       c.target, c.binding, w.now, c.directory, w.markers)
       case Raised => c.(phase := Failed)
       case Ok(pending) => c.(pending := Some(pending), phase := Inspecting(c.action.Document?)),
       w)
    case Claiming =>
      (if c.pending.Some? && env.calendar(c.pending.value.issuedAt).Some? && env.calendar(c.pending.value.expiresAt).Some?
         && InWindow(env.calendar, c.pending.value.issuedAt, c.pending.value.expiresAt, w.now)
       then c.(phase := Marking(w.now)) else c.(phase := Failed),
       w)
    case Marking(at) =>
      if c.pending.None? then (c, w) else
        var marker := (c.pending.value.directory, c.pending.value.replayDigest);
        if marker in w.markers then (c.(phase := Failed), w)
        else (c.(phase := Recording(at), spent := true), w.(markers := w.markers + {marker}))
    case Recording(at) => (c.(phase := if c.action.Delivery? then Preparing else Acting, claimed := Some(at)), w)
    case Preparing => (c.(phase := Acting), w)
    case _ => (c, w)
  }

  predicate UnusedId(items: seq<Item>, id: Text) { forall k :: 0 <= k < |items| ==> items[k].id != id }

  /** The item a creating action asks the provider for. */
  function NewItem(env: Env, action: Action, id: Text): Item
    requires action.Document? || action.SecretItem? || action.KeyItem?
  {
    match action
    case Document(where, package, _, _) =>
      Item(id, where.vault, where.title, DOCUMENT_CATEGORY, CustodyTags(env.hash(Canonical(package))), [Canonical(package)])
    case SecretItem(where, category, tags, _) => Item(id, where.vault, where.title, category, tags, [[]])
    case KeyItem(where, tags, _) => Item(id, where.vault, where.title, KEY_CATEGORY, tags, [[]])
  }

  predicate Creates(action: Action) { action.Document? || action.SecretItem? || action.KeyItem? }

  /** The one mutation or transport of a call, which may fail, or work without being answered. */
  function ActStep(env: Env, id: nat, c: Call, w: World, pick: Pick): (r: (Call, World))
    ensures r.0 == c.(acted := r.0.acted, made := r.0.made, phase := r.0.phase)
    ensures r.0 == c || r.0.phase.Confirming? || r.0.phase.Failed?
  {
    var w' := w.(effects := w.effects + [id]);
    var c' := c.(acted := true, phase := if pick.happens && pick.answered then Confirming else Failed);
    if !pick.happens then (c', w')
    else if Creates(c.action) then
      if !UnusedId(w.provider.items, pick.id) then (c, w) else
        (c'.(made := Some(|w.provider.items|)),
         w'.(provider := w.provider.(items := w.provider.items + [NewItem(env, c.action, pick.id)])))
    else if c.action.CoManager? then
      var grants := w.provider.grants[(c.action.vault, c.action.user) := pick.permissions];
      (c', w'.(provider := w.provider.(grants := grants)))
    else (c', w')
  }

  /** The inspection after the mutation. */
  function Confirmed(env: Env, c: Call, p: Provider): Phase {
    match c.action
    case Document(where, package, _, _) =>
      (match InspectDocument(p.items, where, env.hash(Canonical(package)))
       case One(id, version) =>
         if c.made.Some? && c.made.value < |p.items| && p.items[c.made.value].id == id then Downloading(id, version) else Failed
       case _ => Failed)
    case CoManager(vault, user, required, _) =>
      var missing := Missing(required, Granted(p, vault, user));
      if missing != [] then Failed else Done(GrantedAll(missing))
    case Delivery => Done(Delivered)
    case Retrieval(_, _) => Failed
    case _ =>
      (match InspectItem(p.items, c.action)
       case One(id, version) => Done(CreatedItem(id, version))
       case _ => Failed)
  }

  /** The index of the item with an identity, or the number of items. */
  function Find(items: seq<Item>, vault: Text, id: Text, n: nat): (k: nat)
    requires n <= |items|
    ensures k <= n && (k < n ==> items[k].vault == vault && items[k].id == id)
    ensures k == n ==> forall j :: 0 <= j < n ==> !(items[j].vault == vault && items[j].id == id)
  {
    if n == 0 then 0 else
      var k := Find(items, vault, id, n - 1);
      if k < n - 1 then k else if items[n - 1].vault == vault && items[n - 1].id == id then n - 1 else n
  }

  /** The check of a download: against the expected bytes, or against the pins. */
  function Accepted(env: Env, action: Action, raw: Bytes): Result<Json>
    requires action.Document? || action.Retrieval?
  {
    if action.Document? then DecodePackage(env.hash, raw, Canonical(action.package)) else VerifyDownload(env.hash, raw, action.pins)
  }

  /** `document get` of the current content, and the check of the download. */
  function Downloaded(env: Env, c: Call, p: Provider): Phase
    requires c.phase.Downloading? && (c.action.Document? || c.action.Retrieval?)
  {
    var k := Find(p.items, c.action.where.vault, c.phase.id, |p.items|);
    if k == |p.items| || p.items[k].versions == [] then Failed else
      var raw := p.items[k].versions[|p.items[k].versions| - 1];
      if Accepted(env, c.action, raw).Raised? then Failed else Rechecking(c.phase.id, c.phase.version, raw)
  }

  /** The inspection after the download: the same identity and version. */
  function Rechecked(env: Env, c: Call, p: Provider): Phase
    requires c.phase.Rechecking?
  {
    match c.action
    case Document(where, package, _, _) =>
      if InspectDocument(p.items, where, env.hash(Canonical(package))) != One(c.phase.id, c.phase.version) then Failed
      else Done(InCustody(c.acted, c.phase.id, c.phase.version))
    case Retrieval(where, pins) =>
      if InspectDocument(p.items, where, pins.packageSha256) != One(c.phase.id, c.phase.version) then Failed
      else (match Accepted(env, c.action, c.phase.raw)
            case Ok(package) => Done(Retrieved(c.phase.id, c.phase.version, package))
            case Raised => Failed)
    case _ => Failed
  }

  /** One step of a call. */
  function CallStep(env: Env, id: nat, c: Call, w: World, pick: Pick): (r: (Call, World))
    ensures r.0 == c.(pending := r.0.pending, spent := r.0.spent, claimed := r.0.claimed, acted := r.0.acted,
                      made := r.0.made, phase := r.0.phase)
  {
    match c.phase
    case Inspecting(again) => (c.(phase := Inspected(env, c, w.provider, again)), w)
    case Acting => ActStep(env, id, c, w, pick)
    case Confirming => (c.(phase := Confirmed(env, c, w.provider)), w)
    case Downloading(_, _) =>
      (if c.action.Document? || c.action.Retrieval? then c.(phase := Downloaded(env, c, w.provider)) else c, w)
    case Rechecking(_, _, _) => (c.(phase := Rechecked(env, c, w.provider)), w)
    case _ => GateStep(env, c, w)
  }

  predicate Ended(c: Call) { c.phase.Done? || c.phase.Failed? || c.phase.Crashed? }

  // --------------------------------------------------------------------- runs

  datatype System = System(world: World, calls: map<nat, Call>)

  function Empty(now: int): System { System(World(now, {}, Provider([], map[]), []), map[]) }

  /** Other users create items, give items new contents and tags, and change permissions; nothing is deleted or retitled. */
  datatype Event =
    | Start(id: nat, call: Call)
    | Step(id: nat, pick: Pick)
    | Fault(id: nat)
    | Crash(id: nat)
    | Tick(elapsed: nat)
    | OtherItem(item: Item)
    | OtherEdit(k: nat, category: Text, tags: seq<Text>, bytes: Bytes)
    | OtherGrant(vault: Text, user: Text, permissions: seq<Text>)

  function Edited(items: seq<Item>, k: nat, category: Text, tags: seq<Text>, bytes: Bytes): seq<Item>
    requires k < |items|
  {
    items[k := items[k].(category := category, tags := tags, versions := items[k].versions + [bytes])]
  }

  function WithItems(s: System, items: seq<Item>): System {
    s.(world := s.world.(provider := s.world.provider.(items := items)))
  }

  /** The state after an event; an event that cannot happen changes nothing. */
  function After(env: Env, s: System, e: Event): System {
    match e
    case Start(id, call) => if id !in s.calls && Fresh(env, call) then s.(calls := s.calls[id := call]) else s
    case Step(id, pick) =>
      if id !in s.calls then s else
        var (c, w) := CallStep(env, id, s.calls[id], s.world, pick);
        System(w, s.calls[id := c])
    case Fault(id) =>
      if id !in s.calls || Ended(s.calls[id]) then s else s.(calls := s.calls[id := s.calls[id].(phase := Failed)])
    case Crash(id) =>
      if id !in s.calls || Ended(s.calls[id]) then s else s.(calls := s.calls[id := s.calls[id].(phase := Crashed)])
    case Tick(elapsed) => s.(world := s.world.(now := s.world.now + elapsed))
    case OtherItem(item) =>
      if !UnusedId(s.world.provider.items, item.id) then s else WithItems(s, s.world.provider.items + [item])
    case OtherEdit(k, category, tags, bytes) =>
      if k >= |s.world.provider.items| then s else WithItems(s, Edited(s.world.provider.items, k, category, tags, bytes))
    case OtherGrant(vault, user, permissions) =>
      s.(world := s.world.(provider := s.world.provider.(grants := s.world.provider.grants[(vault, user) := permissions])))
  }

  function Run(env: Env, s: System, events: seq<Event>): System
    decreases |events|
  {
    if events == [] then s else After(env, Run(env, s, events[..|events| - 1]), events[|events| - 1])
  }
}
