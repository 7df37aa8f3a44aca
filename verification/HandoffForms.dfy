/** Which requests and which responses the exchange admits: exactly these. */

module HandoffForms {
  import opened Outcomes
  import opened Text
  import opened Json
  import opened Package
  import opened PackageForms
  import opened Spelling
  import opened Approvals
  import opened ApprovalForms
  import opened Controllers
  import opened Handoff
  import opened HandoffProofs

  // ---------------------------------------------------------------- responses

  /** What a result says. */
  function ReportOf(r: Request, result: map<Text, Json>): Report
    requires ValidConfig(r.config) && result.Keys == Fields(r) && result[S("changed")].JBool? && result[S("verified")].JBool?
    requires ValidReceipt(r, result, result[S("verified")].b)
  {
    if !result[S("verified")].b then Planned(false)
    else if r.operation == READ then
      Retrieved(result[S("item_id")].s, result[S("item_version")].n, result[S("package")])
    else InCustody(result[S("changed")].b, result[S("item_id")].s, result[S("item_version")].n)
  }

  lemma ResultNames()
    ensures S("planned") != S("package") && READ != PLAN && READ != APPLY && PLAN != APPLY
  {
    assert S("planned")[1] == 108 && S("package")[1] == 97;
    assert PLAN[0] == 112 && READ[0] == 114 && APPLY[0] == 97;
  }

  lemma ValidIsReportable(hash: Digest, r: Request, result: Json)
    requires ValidConfig(r.config) && IsPins(r.pins) && ValidPins(PinsOf(r.pins))
    requires r.operation in {PLAN, APPLY, VERIFY, READ} && ValidResult(hash, r, result)
    ensures Reportable(hash, r, ReportOf(r, result.fields))
  {
    ResultNames();
    if r.operation == READ { DownloadsExactly(hash, result.fields[S("package")], PinsOf(r.pins)); }
  }

  lemma SameFields(m: map<Text, Json>, changed: bool, verified: bool, sha: Text, id: Option<Text>, version: Option<int>,
                   name: Text, extra: Json)
    requires name == S("planned") || name == S("package")
    requires m.Keys == {S("changed"), S("verified"), S("package_sha256"), S("item_id"), S("item_version"), name}
    requires m[S("changed")] == JBool(changed) && m[S("verified")] == JBool(verified)
    requires m[S("package_sha256")] == JString(sha) && m[S("item_id")] == OptionalText(id)
    requires m[S("item_version")] == OptionalInt(version) && m[name] == extra
    ensures JObject(m) == ResultValue(changed, verified, sha, id, version, name, extra)
  {
    ResultFields(changed, verified, sha, id, version, name, extra);
    var n := ResultValue(changed, verified, sha, id, version, name, extra).fields;
    forall key | key in m ensures m[key] == n[key] {
      assert key in {S("changed"), S("verified"), S("package_sha256"), S("item_id"), S("item_version"), name};
    }
    assert m == n;
  }

  /** The checks of a result, but for the package in it. */
  predicate Shaped(r: Request, m: map<Text, Json>)
    requires ValidConfig(r.config) && IsPins(r.pins)
  {
    && m.Keys == Fields(r) && m[S("changed")].JBool? && m[S("verified")].JBool?
    && m[S("package_sha256")] == JString(PinsOf(r.pins).packageSha256)
    && (r.operation != APPLY ==> !m[S("changed")].b) && (r.operation != PLAN ==> m[S("verified")].b)
    && (r.operation != READ ==> m[S("planned")] == JBool(!m[S("verified")].b))
    && ValidReceipt(r, m, m[S("verified")].b)
  }

  lemma ValidIsShaped(hash: Digest, r: Request, result: Json)
    requires ValidConfig(r.config) && IsPins(r.pins) && ValidResult(hash, r, result)
    ensures Shaped(r, result.fields)
  {
  }

  lemma PlanIsResult(hash: Digest, r: Request, m: map<Text, Json>)
    requires ValidConfig(r.config) && IsPins(r.pins) && Shaped(r, m) && !m[S("verified")].b
    requires hash(Canonical(r.package)) == PinsOf(r.pins).packageSha256
    ensures JObject(m) == ResultOf(hash, ActionOf(r), Planned(false))
  {
    ResultNames();
    SameFields(m, false, false, PinsOf(r.pins).packageSha256, None, None, S("planned"), JBool(true));
  }

  lemma RetrievalIsResult(hash: Digest, r: Request, m: map<Text, Json>)
    requires ValidConfig(r.config) && IsPins(r.pins) && Shaped(r, m) && r.operation == READ
    ensures JObject(m) == ResultOf(hash, ActionOf(r), ReportOf(r, m))
  {
    ResultNames();
    SameFields(m, false, true, PinsOf(r.pins).packageSha256, Some(m[S("item_id")].s), Some(m[S("item_version")].n),
               S("package"), m[S("package")]);
  }

  lemma CustodyIsResult(hash: Digest, r: Request, m: map<Text, Json>)
    requires ValidConfig(r.config) && IsPins(r.pins) && Shaped(r, m) && r.operation != READ && m[S("verified")].b
    requires hash(Canonical(r.package)) == PinsOf(r.pins).packageSha256
    ensures JObject(m) == ResultOf(hash, ActionOf(r), ReportOf(r, m))
  {
    ResultNames();
    SameFields(m, m[S("changed")].b, true, PinsOf(r.pins).packageSha256, Some(m[S("item_id")].s),
               Some(m[S("item_version")].n), S("planned"), JBool(false));
  }

  lemma ValidIsResult(hash: Digest, r: Request, result: Json)
    requires ValidConfig(r.config) && IsPins(r.pins)
    requires r.operation != READ ==> hash(Canonical(r.package)) == PinsOf(r.pins).packageSha256
    requires ValidResult(hash, r, result)
    ensures result == ResultOf(hash, ActionOf(r), ReportOf(r, result.fields))
  {
    var m := result.fields;
    ResultNames();
    ValidIsShaped(hash, r, result);
    if !m[S("verified")].b {
      PlanIsResult(hash, r, m);
    } else if r.operation == READ {
      RetrievalIsResult(hash, r, m);
    } else {
      CustodyIsResult(hash, r, m);
    }
  }

  lemma AcceptedIsReportable(env: Env, r: Request, result: Json)
    requires WellRequested(env, r) && ValidResult(env.hash, r, result)
    ensures Reportable(env.hash, r, ReportOf(r, result.fields))
    ensures result == ResultOf(env.hash, ActionOf(r), ReportOf(r, result.fields))
  {
    if r.operation != READ { PinsPackage(env, r); }
    ValidIsReportable(env.hash, r, result);
    ValidIsResult(env.hash, r, result);
  }

  lemma ReportableIsAccepted(env: Env, r: Request, report: Report)
    requires WellRequested(env, r) && Reportable(env.hash, r, report)
    ensures ValidResult(env.hash, r, ResultOf(env.hash, ActionOf(r), report))
  {
    if r.operation != READ { PinsPackage(env, r); }
    ReportIsResult(env.hash, r, report);
  }

  /** The result check accepts exactly what a provider call made for the request can report. */
  lemma ResultsExactly(env: Env, r: Request, result: Json)
    requires WellRequested(env, r)
    ensures ValidResult(env.hash, r, result) <==>
            exists report :: Reportable(env.hash, r, report) && result == ResultOf(env.hash, ActionOf(r), report)
  {
    if ValidResult(env.hash, r, result) { AcceptedIsReportable(env, r, result); }
    if report :| Reportable(env.hash, r, report) && result == ResultOf(env.hash, ActionOf(r), report) {
      ReportableIsAccepted(env, r, report);
    }
  }

  /** The JSON of a request, under the names it is checked by. */
  predicate SpellsRequest(v: Json, r: Request) {
    && v.JObject? && v.fields.Keys == {
         S("exchange"), S("schema_version"), S("operation"), S("provider_config"), S("package"), S("read_pins"),
         S("allow_create"), S("approval_authority"), S("approval")}
    && Field(v, "schema_version") == Some(JInt(1)) && Holds(Field(v, "operation"), r.operation)
    && Field(v, "exchange") == Some(r.exchange) && Field(v, "provider_config") == Some(r.config)
    && Field(v, "package") == Some(r.package) && Field(v, "read_pins") == Some(r.pins)
    && Field(v, "allow_create") == Some(JBool(r.allowCreate))
    && Field(v, "approval_authority") == Some(r.authority) && Field(v, "approval") == Some(r.approval)
  }

  lemma RequestParts(r: Request)
    ensures Field(RequestValue(r), "schema_version") == Some(JInt(1))
    ensures Field(RequestValue(r), "operation") == Some(JString(r.operation))
    ensures Field(RequestValue(r), "exchange") == Some(r.exchange)
    ensures Field(RequestValue(r), "provider_config") == Some(r.config)
    ensures Field(RequestValue(r), "package") == Some(r.package)
  {
    assert S("exchange")[0] == 101 && S("approval")[0] == 97 && S("operation")[0] == 111 && S("read_pins")[0] == 114;
  }

  lemma RequestRights(r: Request)
    ensures Field(RequestValue(r), "read_pins") == Some(r.pins)
    ensures Field(RequestValue(r), "allow_create") == Some(JBool(r.allowCreate))
    ensures Field(RequestValue(r), "approval_authority") == Some(r.authority)
    ensures Field(RequestValue(r), "approval") == Some(r.approval)
  {
    assert S("exchange")[0] == 101 && S("approval")[0] == 97 && S("operation")[0] == 111 && S("read_pins")[0] == 114;
  }

  lemma RequestSpelled(r: Request)
    ensures SpellsRequest(RequestValue(r), r)
  {
    RequestParts(r);
    RequestRights(r);
  }

  // ----------------------------------------------------------------- requests

  predicate IsUser(t: Text) { |t| == 26 && forall i :: 0 <= i < 26 ==> In(t[i], DIGITS) || In(t[i], CAPITALS) }

  predicate IsItemId(t: Text) { |t| == 26 && forall i :: 0 <= i < 26 ==> In(t[i], DIGITS) || In(t[i], LETTERS) }

  predicate IsDigits(t: Text) { t != [] && Over(t, DIGITS) }

  function Dotted(a: Text, b: Text, c: Text): Text { a + S(".") + b + S(".") + c }

  /** Three numbers with points between them. */
  ghost predicate IsVersion(t: Text) {
    exists a, b, c :: t == Dotted(a, b, c) && IsDigits(a) && IsDigits(b) && IsDigits(c)
  }

  lemma DigitsExactly(t: Text)
    ensures Digits(t) <==> IsDigits(t)
  {
    forall i | 0 <= i < |t| ensures In(t[i], DIGITS) <==> 48 <= t[i] <= 57 { DigitsAre(t[i]); }
  }

  lemma VersionApart(t: Text)
    requires VersionNumber(t)
    ensures IsVersion(t)
  {
    var i, j :| 0 <= i < j < |t| && t[i] == 46 && t[j] == 46 && Digits(t[..i]) && Digits(t[i + 1..j]) && Digits(t[j + 1..]);
    var a, b, c := t[..i], t[i + 1..j], t[j + 1..];
    DigitsExactly(a);
    DigitsExactly(b);
    DigitsExactly(c);
    FiveParts(t, i, j);
  }

  lemma AtPoint(t: Text, i: nat)
    requires i < |t| && t[i] == 46
    ensures t == t[..i] + S(".") + t[i + 1..]
  {
    assert S(".") == [t[i]];
  }

  lemma Regroup(a: Text, x: Text, b: Text, y: Text, c: Text)
    ensures a + x + (b + y + c) == a + x + b + y + c
  {
  }

  lemma FiveParts(t: Text, i: nat, j: nat)
    requires i < j < |t| && t[i] == t[j] == 46
    ensures t == Dotted(t[..i], t[i + 1..j], t[j + 1..])
  {
    var rest := t[i + 1..];
    AtPoint(t, i);
    AtPoint(rest, j - i - 1);
    assert rest[..j - i - 1] == t[i + 1..j] && rest[j - i..] == t[j + 1..];
    Regroup(t[..i], S("."), t[i + 1..j], S("."), t[j + 1..]);
  }

  lemma VersionTogether(t: Text, a: Text, b: Text, c: Text)
    requires t == Dotted(a, b, c) && IsDigits(a) && IsDigits(b) && IsDigits(c)
    ensures VersionNumber(t)
  {
    var i, j := |a|, |a| + 1 + |b|;
    DigitsExactly(a);
    DigitsExactly(b);
    DigitsExactly(c);
    assert t[..i] == a && t[i + 1..j] == b && t[j + 1..] == c && t[i] == 46 && t[j] == 46;
  }

  lemma VersionExactly(t: Text)
    ensures VersionNumber(t) <==> IsVersion(t)
  {
    if VersionNumber(t) { VersionApart(t); }
    if a, b, c :| t == Dotted(a, b, c) && IsDigits(a) && IsDigits(b) && IsDigits(c) {
      VersionTogether(t, a, b, c);
    }
  }

  lemma UserExactly(t: Text)
    ensures Upper26(t) <==> IsUser(t)
  {
    forall i | 0 <= i < |t| ensures (In(t[i], DIGITS) || In(t[i], CAPITALS)) <==> 48 <= t[i] <= 57 || 65 <= t[i] <= 90 {
      DigitsAre(t[i]);
      CapitalsAre(t[i]);
    }
  }

  lemma AddressExactly(t: Text)
    ensures SignInAddress(t) <==> Word(t, ".-", 252)
  {
    forall i | 0 <= i < |t|
      ensures IsWordCharacter(t[i]) <==> Alphanumeric(t[i])
      ensures In(t[i], ".-") <==> t[i] == 46 || t[i] == 45
    {
      WordCharactersAre(t[i]);
      assert ".-"[0] as int == 46 && ".-"[1] as int == 45;
    }
  }

  lemma ItemIdExactly(t: Text)
    ensures SafeId(t) <==> IsItemId(t)
  {
    SafeIdExactly(t);
  }

  predicate IsTitle(t: Text) {
    && 1 <= |t| <= 250 && !Whitespace(t[0]) && !Whitespace(t[|t| - 1]) && forall i :: 0 <= i < |t| ==> t[i] >= ' ' as int
  }

  ghost predicate TextIs(v: Option<Json>, ok: Text -> bool) { v.Some? && v.value.JString? && ok(v.value.s) }

  /** Different operators, at least one. */
  predicate AreUsers(v: Option<Json>) {
    && v.Some? && v.value.JList? && |v.value.items| > 0
    && (forall i :: 0 <= i < |v.value.items| ==> v.value.items[i].JString? && IsUser(v.value.items[i].s))
    && forall i, j :: 0 <= i < j < |v.value.items| ==> v.value.items[i] != v.value.items[j]
  }

  /** Neither an item nor a version is pinned, or both are. */
  predicate IsItemPin(id: Option<Json>, version: Option<Json>) {
    && id.Some? && version.Some? && version.value.JInt?
    && if version.value.n == 0 then Falsy(id.value)
       else version.value.n > 0 && id.value.JString? && IsItemId(id.value.s)
  }

  ghost predicate ConfigIs(c: Json) {
    && c.JObject? && c.fields.Keys == {
         S("cli_path"), S("cli_sha256"), S("cli_version"), S("account_id"), S("account_sign_in_address"),
         S("authorized_user_uuids"), S("vault_id"), S("item_title"), S("item_id"), S("item_version"), S("executor_uid"),
         S("executor_node")}
    && TextIs(Field(c, "account_id"), IsUser) && TextIs(Field(c, "vault_id"), IsItemId)
    && TextIs(Field(c, "item_title"), IsTitle) && TextIs(Field(c, "executor_node"), t => t != [])
    && TextIs(Field(c, "cli_sha256"), IsChecksum) && TextIs(Field(c, "cli_version"), t => IsVersion(t))
    && TextIs(Field(c, "cli_path"), t => S("/") <= t) && TextIs(Field(c, "account_sign_in_address"), t => Word(t, ".-", 252))
    && Field(c, "executor_uid").Some? && Field(c, "executor_uid").value.JInt? && Field(c, "executor_uid").value.n > 0
    && AreUsers(Field(c, "authorized_user_uuids")) && IsItemPin(Field(c, "item_id"), Field(c, "item_version"))
  }

  lemma UsersExactly(v: Json)
    ensures Users(v) <==> AreUsers(Some(v))
  {
    if v.JList? {
      forall i | 0 <= i < |v.items| && v.items[i].JString? ensures Upper26(v.items[i].s) <==> IsUser(v.items[i].s) {
        UserExactly(v.items[i].s);
      }
    }
  }

  lemma ExecutorExactly(c: Json)
    requires c.JObject? && c.fields.Keys == CONFIG_FIELDS
    ensures ValidExecutor(c) <==>
            && TextIs(Field(c, "account_id"), IsUser) && TextIs(Field(c, "executor_node"), t => t != [])
            && TextIs(Field(c, "cli_sha256"), IsChecksum) && TextIs(Field(c, "cli_version"), t => IsVersion(t))
            && TextIs(Field(c, "cli_path"), t => S("/") <= t)
            && TextIs(Field(c, "account_sign_in_address"), t => Word(t, ".-", 252))
            && Field(c, "executor_uid").value.JInt? && Field(c, "executor_uid").value.n > 0
            && AreUsers(Field(c, "authorized_user_uuids"))
  {
    UsersExactly(c.fields[S("authorized_user_uuids")]);
    if c.fields[S("account_id")].JString? { UserExactly(c.fields[S("account_id")].s); }
    if c.fields[S("cli_sha256")].JString? { HexExactly(c.fields[S("cli_sha256")].s, 64); }
    if c.fields[S("cli_version")].JString? { VersionExactly(c.fields[S("cli_version")].s); }
    if c.fields[S("account_sign_in_address")].JString? { AddressExactly(c.fields[S("account_sign_in_address")].s); }
  }

  lemma ItemExactly(c: Json)
    requires c.JObject? && c.fields.Keys == CONFIG_FIELDS
    ensures ValidItem(c) <==>
            && TextIs(Field(c, "vault_id"), IsItemId) && TextIs(Field(c, "item_title"), IsTitle)
            && IsItemPin(Field(c, "item_id"), Field(c, "item_version"))
  {
    if c.fields[S("vault_id")].JString? { ItemIdExactly(c.fields[S("vault_id")].s); }
    if c.fields[S("item_id")].JString? { ItemIdExactly(c.fields[S("item_id")].s); }
  }

  lemma ConfigsExactly(c: Json)
    ensures ValidConfig(c) <==> ConfigIs(c)
  {
    if c.JObject? && c.fields.Keys == CONFIG_FIELDS {
      ExecutorExactly(c);
      ItemExactly(c);
    }
  }

  /** The receipt that a request carries. */
  predicate PinsAre(v: Json, pins: Pins) {
    && v.JObject? && v.fields.Keys == {S("package_sha256"), S("subject"), S("source_machine_id"), S("luks_uuid")}
    && Holds(Field(v, "package_sha256"), pins.packageSha256) && Holds(Field(v, "subject"), pins.subject)
    && Holds(Field(v, "source_machine_id"), pins.sourceMachineId) && Holds(Field(v, "luks_uuid"), pins.luksUuid)
    && IsChecksum(pins.packageSha256) && Word(pins.subject, "._-", 253)
    && |pins.sourceMachineId| == 32 && Over(pins.sourceMachineId, HEX) && Grouped(pins.luksUuid)
  }

  lemma PinsExactly(v: Json, pins: Pins)
    ensures IsPins(v) && PinsOf(v) == pins && ValidPins(pins) <==> PinsAre(v, pins)
  {
    NamesExactly(pins.subject);
    HexExactly(pins.packageSha256, 64);
    HexExactly(pins.sourceMachineId, 32);
    UuidExactly(pins.luksUuid);
  }

  /** An exchange of at most 15 minutes; times are microseconds. */
  ghost predicate ExchangeIs(calendar: Calendar, v: Json, issued: int, expires: int) {
    && v.JObject? && v.fields.Keys == {S("execution_id"), S("nonce"), S("issued_at"), S("expires_at")}
    && TextIs(Field(v, "execution_id"), t => Word(t, "._:-", 128)) && TextIs(Field(v, "nonce"), IsChecksum)
    && TextIs(Field(v, "issued_at"), t => calendar(t) == Some(issued))
    && TextIs(Field(v, "expires_at"), t => calendar(t) == Some(expires))
    && issued < expires <= issued + 900_000_000
  }

  lemma ExchangesExactly(calendar: Calendar, v: Json, issued: int, expires: int)
    ensures ExchangeIs(calendar, v, issued, expires) <==>
            && IsExchange(v)
            && calendar(v.fields[S("issued_at")].s) == Some(issued) && calendar(v.fields[S("expires_at")].s) == Some(expires)
            && 0 < expires - issued <= MAX_LIFETIME
  {
    if v.JObject? && v.fields.Keys == {S("execution_id"), S("nonce"), S("issued_at"), S("expires_at")} {
      if v.fields[S("execution_id")].JString? { NamesExactly(v.fields[S("execution_id")].s); }
      if v.fields[S("nonce")].JString? { HexExactly(v.fields[S("nonce")].s, 64); }
    }
  }

  /** A package to verify or create, or the item to read; authority to create comes with an application only. */
  predicate Asks(env: Env, r: Request, pins: Pins) {
    && r.authority.JObject? && r.approval.JObject?
    && var carries := r.allowCreate && r.approval.fields != map[] && r.authority.fields != map[];
       var bare := !r.allowCreate && r.approval.fields == map[] && r.authority.fields == map[];
       || (r.operation == S("read") && bare && r.package == JObject(map[])
           && match Field(r.config, "item_version") { case Some(JInt(n)) => n > 0 case _ => false })
       || ((r.operation == S("plan") || r.operation == S("verify")) && bare && MatchesPins(env, r.package, pins))
       || (r.operation == S("apply") && carries && MatchesPins(env, r.package, pins))
  }

  /** A valid package with the digest and the source of the receipt. */
  predicate MatchesPins(env: Env, package: Json, pins: Pins) {
    && ValidatePackage(env.hash, package).Ok?
    && env.hash(Canonical(package)) == pins.packageSha256 && SameSource(package, pins)
  }

  lemma OperationsApart()
    ensures READ != PLAN && READ != APPLY && READ != VERIFY && PLAN != APPLY && PLAN != VERIFY && APPLY != VERIFY
  {
    assert PLAN[0] == 112 && READ[0] == 114 && APPLY[0] == 97 && VERIFY[0] == 118;
  }

  lemma AsksExactly(env: Env, r: Request, pins: Pins)
    requires ValidConfig(r.config) && IsPins(r.pins) && PinsOf(r.pins) == pins && ValidPins(pins)
    ensures Asks(env, r, pins) <==> r.operation in {PLAN, APPLY, VERIFY, READ} && Pinned(env.hash, r) && Authorized(r)
  {
    OperationsApart();
    if ValidPackage(env.hash, r.package) { DownloadsExactly(env.hash, r.package, pins); }
    ReadPins(r.config);
  }

  /** A read pins an item and a version of it. */
  lemma ReadPins(c: Json)
    requires ValidConfig(c)
    ensures PlaceOf(c).itemId != [] && PlaceOf(c).itemVersion > 0 <==>
            match Field(c, "item_version") case Some(JInt(n)) => n > 0 case _ => false
  {
  }

  /** A request of at most 133 MiB for this receipt and within these times. */
  ghost predicate RequestIs(env: Env, r: Request, pins: Pins, issued: int, expires: int) {
    && ExchangeIs(env.calendar, r.exchange, issued, expires) && ConfigIs(r.config) && PinsAre(r.pins, pins)
    && Asks(env, r, pins) && |Canonical(RequestValue(r))| <= 139_460_608
  }

  lemma WellRequestedIs(env: Env, r: Request) returns (issued: int, expires: int)
    requires WellRequested(env, r)
    ensures RequestIs(env, r, PinsOf(r.pins), issued, expires)
    ensures env.calendar(r.exchange.fields[S("issued_at")].s) == Some(issued)
    ensures env.calendar(r.exchange.fields[S("expires_at")].s) == Some(expires)
  {
    issued := env.calendar(r.exchange.fields[S("issued_at")].s).value;
    expires := env.calendar(r.exchange.fields[S("expires_at")].s).value;
    ExchangesExactly(env.calendar, r.exchange, issued, expires);
    ConfigsExactly(r.config);
    PinsExactly(r.pins, PinsOf(r.pins));
    AsksExactly(env, r, PinsOf(r.pins));
  }

  lemma IsWellRequested(env: Env, r: Request, pins: Pins, issued: int, expires: int)
    requires RequestIs(env, r, pins, issued, expires)
    ensures WellRequested(env, r)
    ensures env.calendar(r.exchange.fields[S("issued_at")].s) == Some(issued)
    ensures env.calendar(r.exchange.fields[S("expires_at")].s) == Some(expires)
  {
    ExchangesExactly(env.calendar, r.exchange, issued, expires);
    ConfigsExactly(r.config);
    PinsExactly(r.pins, pins);
    AsksExactly(env, r, pins);
  }

  ghost predicate RequestAt(env: Env, r: Request, pins: Pins, issued: int, expires: int, now: int) {
    RequestIs(env, r, pins, issued, expires) && issued - 60_000_000 <= now < expires
  }

  lemma AcceptedRequest(env: Env, r: Request, now: int) returns (issued: int, expires: int)
    requires ValidateRequest(env, r, now).Ok?
    ensures RequestAt(env, r, PinsOf(r.pins), issued, expires, now)
  {
    issued, expires := WellRequestedIs(env, r);
  }

  lemma RequestAccepted(env: Env, r: Request, pins: Pins, issued: int, expires: int, now: int)
    requires RequestAt(env, r, pins, issued, expires, now)
    ensures ValidateRequest(env, r, now).Ok?
  {
    IsWellRequested(env, r, pins, issued, expires);
  }

  /** A request is accepted exactly when it is one, and at most 60 seconds before it was issued, and before it expires. */
  lemma RequestsExactly(env: Env, r: Request, now: int)
    ensures ValidateRequest(env, r, now).Ok? <==> exists pins, issued, expires :: RequestAt(env, r, pins, issued, expires, now)
  {
    if ValidateRequest(env, r, now).Ok? {
      var issued, expires := AcceptedRequest(env, r, now);
      assert RequestAt(env, r, PinsOf(r.pins), issued, expires, now);
    } else {
      forall pins, issued, expires ensures !RequestAt(env, r, pins, issued, expires, now) {
        if RequestAt(env, r, pins, issued, expires, now) { RequestAccepted(env, r, pins, issued, expires, now); }
      }
    }
  }

  // ----------------------------------------------------------- what is called

  predicate IsOperation(t: Text, operation: Operation) {
    || (t == S("plan") && operation.Plan?) || (t == S("apply") && operation.Apply?) || (t == S("verify") && operation.Verify?)
  }

  /** The vault, the title and the pinned item of a configuration. */
  predicate PlaceIs(c: Json, where: Place) {
    && Holds(Field(c, "vault_id"), where.vault) && Holds(Field(c, "item_title"), where.title)
    && Field(c, "item_version") == Some(JInt(where.itemVersion))
    && if where.itemVersion == 0 then where.itemId == [] else Holds(Field(c, "item_id"), where.itemId)
  }

  /** The provider is called for what the request says. */
  lemma ActionExactly(env: Env, r: Request)
    requires WellRequested(env, r)
    ensures PlaceIs(r.config, ActionOf(r).where)
    ensures match ActionOf(r)
            case Retrieval(_, pins) => r.operation == S("read") && PinsAre(r.pins, pins)
            case Document(_, package, operation, allowCreate) =>
              package == r.package && IsOperation(r.operation, operation) && allowCreate == r.allowCreate
            case _ => false
  {
    OperationsApart();
    PinsExactly(r.pins, PinsOf(r.pins));
    PlaceExactly(r.config);
  }

  lemma PlaceExactly(c: Json)
    requires ValidConfig(c)
    ensures PlaceIs(c, PlaceOf(c))
  {
  }
}
