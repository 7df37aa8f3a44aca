/** The root-of-trust firewall plan: classifying its rules, comparing its two phases, and what its rules let through. */

module Firewall {
  import opened Outcomes
  import opened Text
  import opened Package
  import opened Lists
  import Json

  // -------------------------------------------------------------------- rules

  /** A YAML value of a rule field; shown is what `str` makes of any other kind. */
  datatype Value = TextValue(t: Text) | IntValue(n: int) | NullValue | OtherValue(shown: Text)

  function Str(v: Value): Text {
    match v
    case TextValue(t) => t
    case IntValue(n) => Decoded(Json.EmitInt(n, []))
    case NullValue => S("None")
    case OtherValue(shown) => shown
  }

  /** The fields of a rule, by their YAML keys. */
  datatype Key = Name | Action | Protocol | Version | Source | SourcePort | Target | TargetPort | Flags | Unsupported(t: Text)

  type Rule = map<Key, Value>

  /** `_semantic_signature`: every field but the name, as text. */
  type Signature = map<Key, Text>

  const MANAGEMENT_KEYS := {Action, Target, TargetPort, Version, Name, Protocol, Source}
  const TCP_RESPONSE_KEYS := {Action, Target, TargetPort, Version, Name, Protocol, Flags}
  const DNS_KEYS := {Action, Target, TargetPort, Version, Name, Protocol, Source, SourcePort}
  const NTP_KEYS := {Action, Target, TargetPort, Version, Name, Protocol, SourcePort}
  const ICMP_KEYS := {Action, Version, Name, Protocol}
  const RULE_KEYS := DNS_KEYS + {Flags}

  const EPHEMERAL: Text := S("32768-65535")
  const HOST_SUFFIX: Text := S("/32")

  function SignatureOf(rule: Rule): Signature { map key | key in rule && key != Name :: Str(rule[key]) }

  predicate IsBlank(v: Value) { v.TextValue? && forall i :: 0 <= i < |v.t| ==> Whitespace(v.t[i]) }

  predicate ValidName(v: Value) { v.TextValue? && !IsBlank(v) }

  /** `_validate_common_rule`, but for the name */
  predicate Common(rule: Rule) {
    && rule.Keys <= RULE_KEYS
    && (forall key :: key in rule && key != Name ==>
          !rule[key].NullValue? && !IsBlank(rule[key]) && Str(rule[key]) !in {S("0.0.0.0/0"), S("::/0")})
    && Version in rule && rule[Version] == TextValue(S("ipv4"))
    && Action in rule && rule[Action] == TextValue(S("accept"))
  }

  predicate Nameable(v: Value) { ValidName(v) && Str(v) !in {S("0.0.0.0/0"), S("::/0")} }

  /** What the plan is checked against: Python's idea of a canonical IPv4 address, the target and the controller. */
  datatype Site = Site(isAddress: Text -> bool, target: Text, controller: Text)

  predicate HostCidr(site: Site, v: Value) {
    v.TextValue? && exists a :: 0 <= a <= |v.t| && v.t == v.t[..a] + HOST_SUFFIX && site.isAddress(v.t[..a])
  }

  datatype Kind = Management(port: int) | Tang(source: Text) | TcpResponse | Dns(source: Text) | Ntp | Icmp | Refused

  /** The branches for the management and Tang rules. */
  function InboundKind(site: Site, hardened: bool, rule: Rule): Kind
    requires rule.Keys == MANAGEMENT_KEYS
  {
    var port := Str(rule[TargetPort]);
    if rule[Target] != TextValue(site.target) || !HostCidr(site, rule[Source]) then Refused
    else if port in {S("22"), S("1905"), S("2222")} then
      if rule[Source].t != site.controller then Refused
      else Management(if port == S("22") then 22 else if port == S("1905") then 1905 else 2222)
    else if port == S("80") then
      if !hardened || rule[Source].t == site.controller then Refused else Tang(rule[Source].t)
    else Refused
  }

  /** `str.lower`, as far as its result is ASCII: the Kelvin sign is the one other character with such a lower case. */
  function Lower(t: Text): Text {
    seq(|t|, i requires 0 <= i < |t| =>
      if 65 <= t[i] <= 90 then t[i] + 32 else if t[i] == 0x212A then 107 else t[i])
  }

  predicate ToResponsePort(site: Site, rule: Rule)
    requires Target in rule && TargetPort in rule
  {
    rule[Target] == TextValue(site.target) && Str(rule[TargetPort]) == EPHEMERAL
  }

  /** The branches for answers to the target's own requests. */
  function ResponseKind(site: Site, rule: Rule): Kind
    requires Protocol in rule
  {
    var protocol := rule[Protocol];
    if rule.Keys == TCP_RESPONSE_KEYS && protocol == TextValue(S("tcp")) then
      if ToResponsePort(site, rule) && Lower(Str(rule[Flags])) == S("ack") then TcpResponse else Refused
    else if rule.Keys == DNS_KEYS && protocol == TextValue(S("udp")) then
      if ToResponsePort(site, rule) && Str(rule[SourcePort]) == S("53") && rule[Source].TextValue? && site.isAddress(rule[Source].t)
      then Dns(rule[Source].t) else Refused
    else if rule.Keys == NTP_KEYS && protocol == TextValue(S("udp")) then
      if ToResponsePort(site, rule) && Str(rule[SourcePort]) == S("123") then Ntp else Refused
    else if rule.Keys == ICMP_KEYS && protocol == TextValue(S("icmp")) then Icmp
    else Refused
  }

  predicate Wellformed(rule: Rule) {
    Common(rule) && Name in rule && Nameable(rule[Name]) && Protocol in rule
  }

  /** Which approved rule this is. */
  function KindOf(site: Site, hardened: bool, rule: Rule): Kind {
    if !Wellformed(rule) then Refused
    else if rule.Keys == MANAGEMENT_KEYS && rule[Protocol] == TextValue(S("tcp")) then InboundKind(site, hardened, rule)
    else ResponseKind(site, rule)
  }

  /** A rule as the classification sees it. */
  type Entry = (Kind, Signature)

  function EntryOf(site: Site, hardened: bool, rule: Rule): Entry { (KindOf(site, hardened, rule), SignatureOf(rule)) }

  function Entries(site: Site, hardened: bool, rules: seq<Rule>): (entries: seq<Entry>)
    ensures |entries| == |rules|
  {
    seq(|rules|, i requires 0 <= i < |rules| => EntryOf(site, hardened, rules[i]))
  }

  // --------------------------------------------------------------- classifying

  /** What the classifying loop collects. */
  datatype Found = Found(ports: seq<int>, tcp: nat, dns: seq<Text>, ntp: nat, icmp: nat, tang: seq<Text>, base: seq<Signature>)

  const NOTHING := Found([], 0, [], 0, 0, [], [])

  function With(f: Found, entry: Entry): Found
    requires !entry.0.Refused?
  {
    match entry.0
    case Management(port) => f.(ports := f.ports + [port], base := f.base + [entry.1])
    case Tang(source) => f.(tang := f.tang + [source])
    case TcpResponse => f.(tcp := f.tcp + 1, base := f.base + [entry.1])
    case Dns(source) => f.(dns := f.dns + [source], base := f.base + [entry.1])
    case Ntp => f.(ntp := f.ntp + 1, base := f.base + [entry.1])
    case Icmp => f.(icmp := f.icmp + 1, base := f.base + [entry.1])
  }

  /** The first n rules, classified; None when one of them is refused. */
  function FoundIn(entries: seq<Entry>, n: nat): Option<Found>
    requires n <= |entries|
  {
    if n == 0 then Some(NOTHING) else
      match FoundIn(entries, n - 1)
      case None => None
      case Some(f) => if entries[n - 1].0.Refused? then None else Some(With(f, entries[n - 1]))
  }

  predicate IntLeq(a: int, b: int) { a <= b }

  /** The counts a phase must have. */
  predicate Complete(site: Site, hardened: bool, f: Found) {
    && SortedBy(IntLeq, f.ports) == (if hardened then [1905, 2222] else [22, 1905, 2222])
    && f.tcp == 1 && |f.dns| == 2 && Distinct(f.dns) && f.ntp == 1 && f.icmp == 1
    && (if hardened
        then |f.tang| == 3 && Distinct(f.tang) && site.controller !in f.tang && site.target + HOST_SUFFIX !in f.tang
        else f.tang == [])
  }

  /** `_classify_input_rules` */
  function Classified(site: Site, hardened: bool, rules: seq<Rule>): Result<Found> {
    match FoundIn(Entries(site, hardened, rules), |rules|)
    case Some(f) => if Complete(site, hardened, f) then Ok(f) else Raised
    case None => Raised
  }

  /** The classifying loop, appending to its lists. */
  method CollectRules(site: Site, hardened: bool, rules: seq<Rule>) returns (r: Option<Found>)
    ensures r == FoundIn(Entries(site, hardened, rules), |rules|)
  {
    var found := NOTHING;
    ghost var entries := Entries(site, hardened, rules);
    for i := 0 to |rules|
      invariant FoundIn(entries, i) == Some(found)
    {
      var kind, signature := Recognize(site, hardened, rules, i);
      if kind.Refused? {
        RefusedStays(entries, i + 1, |rules|);
        return None;
      }
      OneMore(entries, i, found);
      found := Append(found, kind, signature);
    }
    r := Some(found);
  }

  /** What one round of the loop appends. */
  method Append(f: Found, kind: Kind, signature: Signature) returns (g: Found)
    requires !kind.Refused?
    ensures g == With(f, (kind, signature))
  {
    g := f;
    match kind {
      case Management(port) => g := g.(ports := g.ports + [port]);
      case Tang(source) => g := g.(tang := g.tang + [source]);
      case TcpResponse => g := g.(tcp := g.tcp + 1);
      case Dns(source) => g := g.(dns := g.dns + [source]);
      case Ntp => g := g.(ntp := g.ntp + 1);
      case Icmp => g := g.(icmp := g.icmp + 1);
      case Refused => assert false;
    }
    if !kind.Tang? { g := g.(base := g.base + [signature]); }
  }

  /** The loop, then the checks of what it collected. */
  method ClassifyInputRules(site: Site, hardened: bool, rules: seq<Rule>) returns (r: Result<Found>)
    ensures r == Classified(site, hardened, rules)
  {
    var found := CollectRules(site, hardened, rules);
    r := if found.Some? && Complete(site, hardened, found.value) then Ok(found.value) else Raised;
  }

  method Recognize(site: Site, hardened: bool, rules: seq<Rule>, i: nat) returns (kind: Kind, signature: Signature)
    requires i < |rules|
    ensures (kind, signature) == Entries(site, hardened, rules)[i]
  {
    kind, signature := KindOf(site, hardened, rules[i]), SignatureOf(rules[i]);
  }

  lemma OneMore(entries: seq<Entry>, i: nat, f: Found)
    requires i < |entries| && FoundIn(entries, i) == Some(f) && !entries[i].0.Refused?
    ensures FoundIn(entries, i + 1) == Some(With(f, entries[i]))
  {
  }

  lemma {:induction false} RefusedStays(entries: seq<Entry>, m: nat, n: nat)
    requires m <= n <= |entries| && FoundIn(entries, m).None?
    ensures FoundIn(entries, n).None?
  {
    if m < n { RefusedStays(entries, m, n - 1); }
  }

  // ---------------------------------------------------------------- validating

  datatype Declaration = Declaration(input: seq<Rule>, output: seq<Rule>)

  datatype Plan = Plan(enabled: bool, port: Text, filterIpv6: bool, allowlistHos: bool,
                       bootstrap: Declaration, hardened: Declaration)

  predicate ValidOutput(rules: seq<Rule>) {
    && |rules| == 1
    && rules[0].Keys == {Action, Name} && rules[0][Action] == TextValue(S("accept")) && ValidName(rules[0][Name])
  }

  predicate KeepsBase(signature: Signature) { !(TargetPort in signature && signature[TargetPort] == S("22")) }

  datatype Report = Report(bootstrapCount: nat, hardenedCount: nat, tangCount: nat)

  predicate ValidSite(site: Site, plan: Plan) {
    && site.isAddress(site.target) && HostCidr(site, TextValue(site.controller)) && site.controller != site.target + HOST_SUFFIX
    && plan.enabled && plan.port == S("main") && plan.filterIpv6 && plan.allowlistHos
    && ValidOutput(plan.bootstrap.output) && ValidOutput(plan.hardened.output)
  }

  /** The rule counts, and the base policies: the bootstrap one without its rules for port 22. */
  function Compared(leq: (Signature, Signature) -> bool, bootstrap: Result<Found>, hardened: Result<Found>, b: nat, h: nat)
    : Result<Report>
  {
    if bootstrap.Raised? || hardened.Raised? || b != 8 || h != 10 then Raised
    else if Filter(KeepsBase, SortedBy(leq, bootstrap.value.base)) != SortedBy(leq, hardened.value.base) then Raised
    else Ok(Report(b, h, |hardened.value.tang|))
  }

  /** `root_of_trust_firewall_validate`; leq is the order Python gives signatures. */
  function Validate(leq: (Signature, Signature) -> bool, site: Site, plan: Plan): Result<Report> {
    if !ValidSite(site, plan) then Raised else
      Compared(leq, Classified(site, false, plan.bootstrap.input), Classified(site, true, plan.hardened.input),
               |plan.bootstrap.input|, |plan.hardened.input|)
  }
}
