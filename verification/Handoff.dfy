/** The closed exchange with the native client: what a request must be, and which responses it accepts. */

module Handoff {
  import opened Outcomes
  import opened Text
  import opened Json
  import opened Package
  import opened Approvals
  import opened Controllers
  import opened ControllerItems

  const MAX_HANDOFF := MAX_PACKAGE + 1024 * 1024

  const CONFIG_FIELDS: set<Text> := {
    S("cli_path"), S("cli_sha256"), S("cli_version"), S("account_id"), S("account_sign_in_address"),
    S("authorized_user_uuids"), S("vault_id"), S("item_title"), S("item_id"), S("item_version"), S("executor_uid"),
    S("executor_node")
  }

  predicate Upper26(t: Text) { |t| == 26 && forall i :: 0 <= i < 26 ==> 48 <= t[i] <= 57 || 65 <= t[i] <= 90 }

  predicate Digits(t: Text) { t != [] && forall i :: 0 <= i < |t| ==> 48 <= t[i] <= 57 }

  /** Three numbers between dots. */
  predicate VersionNumber(t: Text) {
    exists i, j :: 0 <= i < j < |t| && t[i] == 46 && t[j] == 46 && Digits(t[..i]) && Digits(t[i + 1..j]) && Digits(t[j + 1..])
  }

  predicate SignInAddress(t: Text) {
    1 <= |t| <= 252 && Alphanumeric(t[0]) && forall i :: 0 <= i < |t| ==> Alphanumeric(t[i]) || t[i] == 46 || t[i] == 45
  }

  predicate Title(t: Text) {
    && 1 <= |t| <= 250 && !Whitespace(t[0]) && !Whitespace(t[|t| - 1]) && forall i :: 0 <= i < |t| ==> t[i] >= 32
  }

  predicate Users(v: Json) {
    && v.JList? && v.items != [] && (forall i :: 0 <= i < |v.items| ==> IsText(v.items[i], Upper26))
    && forall i, j :: 0 <= i < j < |v.items| ==> v.items[i] != v.items[j]
  }

  /** Python's truth of a JSON value. */
  predicate Falsy(v: Json) {
    match v
    case JNull => true
    case JBool(b) => !b
    case JInt(n) => n == 0
    case JString(s) => s == []
    case JList(items) => items == []
    case JObject(fields) => fields == map[]
    case JFloat(lexeme) => lexeme in {[48, 46, 48], [45, 48, 46, 48]}
  }

  predicate ValidExecutor(c: Json)
    requires c.JObject? && c.fields.Keys == CONFIG_FIELDS
  {
    && IsText(c.fields[S("account_id")], Upper26)
    && c.fields[S("executor_uid")].JInt? && c.fields[S("executor_uid")].n > 0
    && IsText(c.fields[S("executor_node")], t => t != [])
    && IsText(c.fields[S("cli_sha256")], t => Hex(t, 64))
    && IsText(c.fields[S("cli_version")], VersionNumber)
    && IsText(c.fields[S("cli_path")], t => t != [] && t[0] == 47)
    && IsText(c.fields[S("account_sign_in_address")], SignInAddress)
    && Users(c.fields[S("authorized_user_uuids")])
  }

  predicate ValidItem(c: Json)
    requires c.JObject? && c.fields.Keys == CONFIG_FIELDS
  {
    && IsText(c.fields[S("vault_id")], SafeId) && IsText(c.fields[S("item_title")], Title)
    && c.fields[S("item_version")].JInt? && c.fields[S("item_version")].n >= 0
    && (Falsy(c.fields[S("item_id")]) <==> c.fields[S("item_version")].n == 0)
    && (!Falsy(c.fields[S("item_id")]) ==> IsText(c.fields[S("item_id")], SafeId))
  }

  /** `validate_config` */
  predicate ValidConfig(c: Json) {
    c.JObject? && c.fields.Keys == CONFIG_FIELDS && ValidExecutor(c) && ValidItem(c)
  }

  /** Where a valid configuration says the document is. */
  function PlaceOf(c: Json): Place
    requires ValidConfig(c)
  {
    Place(c.fields[S("vault_id")].s, c.fields[S("item_title")].s,
          if c.fields[S("item_id")].JString? then c.fields[S("item_id")].s else [], c.fields[S("item_version")].n)
  }

  predicate IsPins(v: Json) {
    && v.JObject?
    && v.fields.Keys == {S("package_sha256"), S("subject"), S("source_machine_id"), S("luks_uuid")}
    && forall key :: key in v.fields ==> v.fields[key].JString?
  }

  function PinsOf(v: Json): Pins
    requires IsPins(v)
  {
    Pins(v.fields[S("package_sha256")].s, v.fields[S("subject")].s, v.fields[S("source_machine_id")].s,
         v.fields[S("luks_uuid")].s)
  }

  predicate IsExchange(v: Json) {
    && v.JObject? && v.fields.Keys == {S("execution_id"), S("nonce"), S("issued_at"), S("expires_at")}
    && IsText(v.fields[S("execution_id")], ExecutionId) && IsText(v.fields[S("nonce")], t => Hex(t, 64))
    && v.fields[S("issued_at")].JString? && v.fields[S("expires_at")].JString?
  }

  /** A request, taken apart. */
  datatype Request = Request(exchange: Json, operation: Text, config: Json, package: Json, pins: Json, allowCreate: bool,
                             authority: Json, approval: Json)

  function RequestValue(r: Request): Json {
    JObject(map[
      S("exchange") := r.exchange, S("schema_version") := JInt(1), S("operation") := JString(r.operation),
      S("provider_config") := r.config, S("package") := r.package, S("read_pins") := r.pins,
      S("allow_create") := JBool(r.allowCreate), S("approval_authority") := r.authority, S("approval") := r.approval])
  }

  const PLAN: Text := S("plan")
  const APPLY: Text := S("apply")
  const VERIFY: Text := S("verify")
  const READ: Text := S("read")

  /** Authority to create comes with an application, and with nothing else. */
  predicate Authorized(r: Request) {
    && r.authority.JObject? && r.approval.JObject?
    && (r.operation == APPLY ==> r.allowCreate && r.approval.fields != map[] && r.authority.fields != map[])
    && (r.operation != APPLY ==> !r.allowCreate && r.approval.fields == map[] && r.authority.fields == map[])
  }

  predicate Pinned(hash: Digest, r: Request)
    requires ValidConfig(r.config) && IsPins(r.pins)
  {
    if r.operation == READ then
      r.package == JObject(map[]) && PlaceOf(r.config).itemId != [] && PlaceOf(r.config).itemVersion > 0
    else ValidPackage(hash, r.package) && VerifyDownload(hash, Canonical(r.package), PinsOf(r.pins)).Ok?
  }

  /** What `validate_request` checks, but for the clock. */
  predicate WellRequested(env: Env, r: Request) {
    && IsExchange(r.exchange) && r.operation in {PLAN, APPLY, VERIFY, READ}
    && ValidConfig(r.config) && IsPins(r.pins) && ValidPins(PinsOf(r.pins)) && Pinned(env.hash, r) && Authorized(r)
    && |Canonical(RequestValue(r))| <= MAX_HANDOFF
    && var issued, expires := env.calendar(r.exchange.fields[S("issued_at")].s), env.calendar(r.exchange.fields[S("expires_at")].s);
       issued.Some? && expires.Some? && 0 < expires.value - issued.value <= MAX_LIFETIME
  }

  /** The exchange is neither expired nor issued too far ahead. */
  predicate Timely(env: Env, r: Request, now: int)
    requires WellRequested(env, r)
  {
    InWindow(env.calendar, r.exchange.fields[S("issued_at")].s, r.exchange.fields[S("expires_at")].s, now)
  }

  /** `validate_request`: the digest of the request. */
  function ValidateRequest(env: Env, r: Request, now: int): Result<Text> {
    if WellRequested(env, r) && Timely(env, r, now) then Ok(env.hash(Canonical(RequestValue(r)))) else Raised
  }

  // ----------------------------------------------------------------- responses

  function Fields(r: Request): set<Text> {
    {S("changed"), S("verified"), S("package_sha256"), S("item_id"), S("item_version")}
    + {if r.operation == READ then S("package") else S("planned")}
  }

  predicate ValidReceipt(r: Request, result: map<Text, Json>, verified: bool)
    requires ValidConfig(r.config) && result.Keys == Fields(r)
  {
    var place := PlaceOf(r.config);
    var itemId, version := result[S("item_id")], result[S("item_version")];
    if verified then
      && IsText(itemId, SafeId) && version.JInt? && version.n > 0
      && (place.itemId != [] ==> itemId.s == place.itemId && version.n == place.itemVersion)
    else itemId == JNull && version == JNull && result[S("changed")] == JBool(false)
  }

  predicate ValidExtra(hash: Digest, r: Request, result: map<Text, Json>, verified: bool)
    requires IsPins(r.pins) && result.Keys == Fields(r)
  {
    if r.operation == READ then
      match ValidatePackage(hash, result[S("package")])
      case Ok(raw) => VerifyDownload(hash, raw, PinsOf(r.pins)).Ok?
      case Raised => false
    else result[S("planned")] == JBool(!verified)
  }

  /** The checks of a provider result, under a request that is well formed. */
  predicate ValidResult(hash: Digest, r: Request, result: Json)
    requires ValidConfig(r.config) && IsPins(r.pins)
  {
    && result.JObject? && result.fields.Keys == Fields(r)
    && result.fields[S("changed")].JBool? && result.fields[S("verified")].JBool?
    && result.fields[S("package_sha256")] == JString(PinsOf(r.pins).packageSha256)
    && (r.operation != APPLY ==> !result.fields[S("changed")].b)
    && (r.operation != PLAN ==> result.fields[S("verified")].b)
    && ValidExtra(hash, r, result.fields, result.fields[S("verified")].b)
    && ValidReceipt(r, result.fields, result.fields[S("verified")].b)
  }

  datatype Response = Response(requestSha256: Text, result: Json)

  /** `validate_response` */
  function ValidateResponse(env: Env, r: Request, response: Response, now: int): Result<Json> {
    match ValidateRequest(env, r, now)
    case Raised => Raised
    case Ok(expected) =>
      if response.requestSha256 == expected && ValidResult(env.hash, r, response.result) then Ok(response.result) else Raised
  }

  // ------------------------------------------------------------- what is executed

  function OperationOf(t: Text): Operation { if t == PLAN then Plan else if t == APPLY then Apply else Verify }

  /** The provider call a request asks for. */
  function ActionOf(r: Request): Action
    requires ValidConfig(r.config) && IsPins(r.pins)
  {
    if r.operation == READ then Retrieval(PlaceOf(r.config), PinsOf(r.pins))
    else Document(PlaceOf(r.config), r.package, OperationOf(r.operation), r.allowCreate)
  }

  function OptionalText(t: Option<Text>): Json { if t.Some? then JString(t.value) else JNull }
  function OptionalInt(n: Option<int>): Json { if n.Some? then JInt(n.value) else JNull }

  function ResultValue(changed: bool, verified: bool, sha: Text, id: Option<Text>, version: Option<int>,
                       name: Text, extra: Json): Json {
    JObject(map[
      S("changed") := JBool(changed), S("verified") := JBool(verified), S("package_sha256") := JString(sha),
      S("item_id") := OptionalText(id), S("item_version") := OptionalInt(version), name := extra])
  }

  /** The dictionary that `onepassword_custody` or `onepassword_read_custody` returns. */
  function ResultOf(hash: Digest, action: Action, report: Report): Json
    requires Native(action)
  {
    var sha := if action.Document? then hash(Canonical(action.package)) else action.pins.packageSha256;
    match report
    case InCustody(created, id, version) =>
      ResultValue(created, true, sha, Some(id), Some(version), S("planned"), JBool(false))
    case Retrieved(id, version, package) => ResultValue(false, true, sha, Some(id), Some(version), S("package"), package)
    case _ => ResultValue(false, false, sha, None, None, S("planned"), JBool(true))
  }
}
