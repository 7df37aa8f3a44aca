/** The approved rules, field by field: which kind the classifier gives a rule. */

module FirewallShapes {
  import opened Outcomes
  import opened Text
  import opened Package
  import opened Firewall
  import Json
  import opened JsonGrammar
  import opened JsonPrints

  // ------------------------------------------------------------------ fields

  predicate Says(v: Value, literal: string) {
    (v.TextValue? && v.t == S(literal)) || (v.OtherValue? && v.shown == S(literal))
  }

  /** A port as a number, or as text. */
  predicate IsPort(v: Value, literal: string, n: int) { v == IntValue(n) || Says(v, literal) }

  predicate NotEveryNetwork(t: Text) { t != S("0.0.0.0/0") && t != S("::/0") }

  /** Not null, not blank, and not the network of all addresses. */
  predicate Specific(v: Value) {
    match v
    case NullValue => false
    case IntValue(_) => true
    case OtherValue(t) => NotEveryNetwork(t)
    case TextValue(t) => NotEveryNetwork(t) && exists i :: 0 <= i < |t| && !Whitespace(t[i])
  }

  /** The word in letters of any case; the Kelvin sign is a capital K here. */
  predicate IsAck(t: Text) {
    && |t| == 3 && (t[0] == 'a' as int || t[0] == 'A' as int) && (t[1] == 'c' as int || t[1] == 'C' as int)
    && (t[2] == 'k' as int || t[2] == 'K' as int || t[2] == 0x212A)
  }

  predicate AckFlags(v: Value) { (v.TextValue? && IsAck(v.t)) || (v.OtherValue? && IsAck(v.shown)) }

  ghost predicate IsSingleHost(site: Site, t: Text) { exists address :: site.isAddress(address) && t == address + S("/32") }

  // ------------------------------------------------------------------- rules

  /** An accepting IPv4 rule with a name, a protocol and these other fields, all of them specific. */
  predicate Declares(rule: Rule, others: set<Key>, protocol: string) {
    && rule.Keys == {Name, Action, Version, Protocol} + others
    && (forall key :: key in rule ==> Specific(rule[key]))
    && rule[Name].TextValue? && rule[Action] == TextValue(S("accept")) && rule[Version] == TextValue(S("ipv4"))
    && rule[Protocol] == TextValue(S(protocol))
  }

  ghost predicate IsManagement(site: Site, rule: Rule, port: int) {
    && Declares(rule, {Source, Target, TargetPort}, "tcp") && rule[Target] == TextValue(site.target)
    && rule[Source] == TextValue(site.controller) && IsSingleHost(site, site.controller)
    && ((port == 22 && IsPort(rule[TargetPort], "22", 22))
        || (port == 1905 && IsPort(rule[TargetPort], "1905", 1905))
        || (port == 2222 && IsPort(rule[TargetPort], "2222", 2222)))
  }

  ghost predicate IsTang(site: Site, rule: Rule, source: Text) {
    && Declares(rule, {Source, Target, TargetPort}, "tcp") && rule[Target] == TextValue(site.target)
    && rule[Source] == TextValue(source) && IsSingleHost(site, source) && source != site.controller
    && IsPort(rule[TargetPort], "80", 80)
  }

  predicate IsTcpResponse(site: Site, rule: Rule) {
    && Declares(rule, {Target, TargetPort, Flags}, "tcp") && rule[Target] == TextValue(site.target)
    && Says(rule[TargetPort], "32768-65535") && AckFlags(rule[Flags])
  }

  predicate IsDns(site: Site, rule: Rule, source: Text) {
    && Declares(rule, {Source, SourcePort, Target, TargetPort}, "udp") && rule[Target] == TextValue(site.target)
    && Says(rule[TargetPort], "32768-65535") && IsPort(rule[SourcePort], "53", 53)
    && rule[Source] == TextValue(source) && site.isAddress(source)
  }

  predicate IsNtp(site: Site, rule: Rule) {
    && Declares(rule, {SourcePort, Target, TargetPort}, "udp") && rule[Target] == TextValue(site.target)
    && Says(rule[TargetPort], "32768-65535") && IsPort(rule[SourcePort], "123", 123)
  }

  predicate IsIcmp(rule: Rule) { Declares(rule, {}, "icmp") }

  /** The rule has the fields of this kind. */
  ghost predicate Has(site: Site, rule: Rule, kind: Kind) {
    match kind
    case Management(port) => IsManagement(site, rule, port)
    case Tang(source) => IsTang(site, rule, source)
    case TcpResponse => IsTcpResponse(site, rule)
    case Dns(source) => IsDns(site, rule, source)
    case Ntp => IsNtp(site, rule)
    case Icmp => IsIcmp(rule)
    case Refused => false
  }

  // --------------------------------------------------------- how fields are shown

  lemma IntShown(n: int)
    ensures IntegerIs(Json.EmitInt(n, []), n) && Str(IntValue(n)) == Json.EmitInt(n, [])
  {
    var s := IntPrints(n, []);
    assert s + [] == s;
  }

  /** Digits, with a minus sign in front at most. */
  lemma IntCharacters(s: Bytes, n: int)
    requires IntegerIs(s, n)
    ensures s != [] && (s[0] == 45 || 48 <= s[0] <= 57) && forall i :: 0 < i < |s| ==> 48 <= s[i] <= 57
  {
    if Starts(s, '-') {
      forall i | 0 < i < |s| ensures 48 <= s[i] <= 57 { assert IsDigit(s[1..][i - 1]); }
    } else {
      forall i | 0 <= i < |s| ensures 48 <= s[i] <= 57 { assert IsDigit(s[i]); }
    }
  }

  lemma OtherWords(n: int)
    ensures var t := Str(IntValue(n)); t != EPHEMERAL && NotEveryNetwork(t) && Lower(t) != S("ack")
  {
    IntShown(n);
    IntCharacters(Json.EmitInt(n, []), n);
    var t := Str(IntValue(n));
    assert EPHEMERAL[5] == 45 && S("0.0.0.0/0")[1] == 46 && S("::/0")[0] == 58 && S("ack")[0] == 97;
    assert Lower(t)[0] == t[0];
  }

  lemma LastDigit(n: nat, d: nat, k: Bytes)
    requires d < 10
    ensures Json.EmitNat(10 * n + d, k) == if n == 0 then [48 + d] + k else Json.EmitNat(n, [48 + d] + k)
  {
    var m := 10 * n + d;
    assert m / 10 == n && m % 10 == d;
  }

  lemma NumberShown(literal: string, n: nat, digits: Bytes)
    requires Json.EmitNat(n, []) == digits && |literal| == |digits|
    requires forall i :: 0 <= i < |digits| ==> literal[i] as int == digits[i] < 128
    ensures Str(IntValue(n)) == S(literal)
  {
  }

  predicate DigitsOf(literal: string, digits: seq<nat>) {
    && |literal| == |digits| && forall i :: 0 <= i < |digits| ==> digits[i] < 10 && literal[i] as int == 48 + digits[i]
  }

  lemma TwoDigits(literal: string, a: nat, b: nat)
    requires DigitsOf(literal, [a, b]) && a > 0
    ensures Str(IntValue(10 * a + b)) == S(literal)
  {
    assert literal[0] as int == 48 + [a, b][0] && literal[1] as int == 48 + [a, b][1];
    LastDigit(a, b, []);
    LastDigit(0, a, [48 + b]);
    NumberShown(literal, 10 * a + b, [48 + a, 48 + b]);
  }

  lemma ThreeDigits(literal: string, a: nat, b: nat, c: nat)
    requires DigitsOf(literal, [a, b, c]) && a > 0
    ensures Str(IntValue(10 * (10 * a + b) + c)) == S(literal)
  {
    var digits := [a, b, c];
    assert digits[0] < 10 && digits[1] < 10 && digits[2] < 10;
    LastDigit(10 * a + b, c, []);
    LastDigit(a, b, [48 + c]);
    LastDigit(0, a, [48 + b, 48 + c]);
    NumberShown(literal, 10 * (10 * a + b) + c, [48 + a, 48 + b, 48 + c]);
  }

  lemma FourDigits(literal: string, a: nat, b: nat, c: nat, d: nat)
    requires DigitsOf(literal, [a, b, c, d]) && a > 0
    ensures Str(IntValue(10 * (10 * (10 * a + b) + c) + d)) == S(literal)
  {
    var digits := [a, b, c, d];
    assert digits[0] < 10 && digits[1] < 10 && digits[2] < 10 && digits[3] < 10;
    var n := 10 * (10 * a + b) + c;
    LastDigit(n, d, []);
    assert [48 + d] + [] == [48 + d];
    LastDigit(10 * a + b, c, [48 + d]);
    assert [48 + c] + [48 + d] == [48 + c, 48 + d];
    LastDigit(a, b, [48 + c, 48 + d]);
    LastDigit(0, a, [48 + b, 48 + c, 48 + d]);
    NumberShown(literal, 10 * (10 * (10 * a + b) + c) + d, [48 + a, 48 + b, 48 + c, 48 + d]);
  }

  lemma Port22()
    ensures Str(IntValue(22)) == S("22")
  {
    TwoDigits("22", 2, 2);
  }

  lemma Port80()
    ensures Str(IntValue(80)) == S("80")
  {
    TwoDigits("80", 8, 0);
  }

  lemma Port53()
    ensures Str(IntValue(53)) == S("53")
  {
    TwoDigits("53", 5, 3);
  }

  lemma Port123()
    ensures Str(IntValue(123)) == S("123")
  {
    ThreeDigits("123", 1, 2, 3);
  }

  lemma Port1905()
    ensures Str(IntValue(1905)) == S("1905")
  {
    FourDigits("1905", 1, 9, 0, 5);
  }

  lemma Port2222()
    ensures Str(IntValue(2222)) == S("2222")
  {
    FourDigits("2222", 2, 2, 2, 2);
  }

  lemma PortNumbers()
    ensures Str(IntValue(22)) == S("22") && Str(IntValue(80)) == S("80") && Str(IntValue(53)) == S("53")
    ensures Str(IntValue(123)) == S("123") && Str(IntValue(1905)) == S("1905") && Str(IntValue(2222)) == S("2222")
  {
    Port22();
    Port80();
    Port53();
    Port123();
    Port1905();
    Port2222();
  }

  /** Only one number is shown as it is. */
  lemma PortShown(v: Value, literal: string, n: int)
    requires Specific(v) && Str(IntValue(n)) == S(literal)
    ensures Str(v) == S(literal) <==> IsPort(v, literal, n)
  {
    IntShown(n);
    if v.IntValue? {
      IntShown(v.n);
    } else {
      IntCharacters(Json.EmitInt(n, []), n);
      assert S("None")[0] == 78;
    }
  }

  lemma LowerIsAck(t: Text)
    ensures Lower(t) == S("ack") <==> IsAck(t)
  {
    var l, a := Lower(t), S("ack");
    assert a[0] == 97 && a[1] == 99 && a[2] == 107;
    if IsAck(t) { assert l == a; }
    if l == a { assert l[0] == a[0] && l[1] == a[1] && l[2] == a[2]; }
  }

  lemma FlagsShown(v: Value)
    requires Specific(v)
    ensures Lower(Str(v)) == S("ack") <==> AckFlags(v)
  {
    if v.IntValue? { OtherWords(v.n); } else { LowerIsAck(Str(v)); }
  }

  lemma EphemeralShown(v: Value)
    requires Specific(v)
    ensures Str(v) == EPHEMERAL <==> Says(v, "32768-65535")
  {
    if v.IntValue? { OtherWords(v.n); }
  }

  lemma SpecificFields(v: Value)
    ensures Specific(v) <==> !v.NullValue? && !IsBlank(v) && Str(v) !in {S("0.0.0.0/0"), S("::/0")}
  {
    if v.IntValue? { OtherWords(v.n); }
  }

  lemma HostsExactly(site: Site, v: Value)
    ensures HostCidr(site, v) <==> v.TextValue? && IsSingleHost(site, v.t)
  {
    if v.TextValue? {
      if address :| site.isAddress(address) && v.t == address + S("/32") { assert v.t[..|address|] == address; }
    }
  }

  // --------------------------------------------------------------- the classifier

  /** The fields of a well-formed rule. */
  predicate Proper(rule: Rule) {
    && {Name, Action, Version, Protocol} <= rule.Keys <= RULE_KEYS && (forall key :: key in rule ==> Specific(rule[key]))
    && rule[Name].TextValue? && rule[Action] == TextValue(S("accept")) && rule[Version] == TextValue(S("ipv4"))
  }

  lemma AllSpecific(rule: Rule)
    ensures (forall key :: key in rule ==> Specific(rule[key])) <==>
            forall key :: key in rule ==>
              !rule[key].NullValue? && !IsBlank(rule[key]) && Str(rule[key]) !in {S("0.0.0.0/0"), S("::/0")}
  {
    forall key | key in rule
      ensures Specific(rule[key]) <==>
              !rule[key].NullValue? && !IsBlank(rule[key]) && Str(rule[key]) !in {S("0.0.0.0/0"), S("::/0")}
    {
      SpecificFields(rule[key]);
    }
  }

  lemma WellformedExactly(rule: Rule)
    ensures Wellformed(rule) <==> Proper(rule)
  {
    AllSpecific(rule);
  }

  lemma DeclaresExactly(rule: Rule, others: set<Key>, protocol: string)
    requires Proper(rule)
    ensures Declares(rule, others, protocol) <==>
            rule.Keys == {Name, Action, Version, Protocol} + others && rule[Protocol] == TextValue(S(protocol))
  {
  }

  lemma PortsShown(v: Value)
    requires Specific(v)
    ensures Str(v) == S("22") <==> IsPort(v, "22", 22)
    ensures Str(v) == S("1905") <==> IsPort(v, "1905", 1905)
    ensures Str(v) == S("2222") <==> IsPort(v, "2222", 2222)
    ensures Str(v) == S("80") <==> IsPort(v, "80", 80)
    ensures Str(v) == S("53") <==> IsPort(v, "53", 53)
    ensures Str(v) == S("123") <==> IsPort(v, "123", 123)
  {
    PortNumbers();
    PortShown(v, "22", 22);
    PortShown(v, "1905", 1905);
    PortShown(v, "2222", 2222);
    PortShown(v, "80", 80);
    PortShown(v, "53", 53);
    PortShown(v, "123", 123);
  }

  lemma PortsApart()
    ensures S("22") != S("1905") && S("22") != S("2222") && S("1905") != S("2222")
    ensures S("80") != S("22") && S("80") != S("1905") && S("80") != S("2222")
  {
    assert S("22")[0] == 50 && S("80")[0] == 56 && S("1905")[0] == 49;
  }

  lemma InboundExactly(site: Site, hardened: bool, rule: Rule, kind: Kind)
    requires Proper(rule) && Declares(rule, {Source, Target, TargetPort}, "tcp")
    ensures rule.Keys == MANAGEMENT_KEYS
    ensures InboundKind(site, hardened, rule) == kind && !kind.Refused? <==>
            || (kind.Management? && IsManagement(site, rule, kind.port))
            || (kind.Tang? && hardened && IsTang(site, rule, kind.source))
  {
    PortsApart();
    PortsShown(rule[TargetPort]);
    HostsExactly(site, rule[Source]);
  }

  ghost predicate HasResponse(site: Site, rule: Rule, kind: Kind) {
    !kind.Management? && !kind.Tang? && Has(site, rule, kind)
  }

  lemma SetsApart()
    ensures TCP_RESPONSE_KEYS == {Name, Action, Version, Protocol} + {Target, TargetPort, Flags}
    ensures DNS_KEYS == {Name, Action, Version, Protocol} + {Source, SourcePort, Target, TargetPort}
    ensures NTP_KEYS == {Name, Action, Version, Protocol} + {SourcePort, Target, TargetPort}
    ensures ICMP_KEYS == {Name, Action, Version, Protocol} + {}
    ensures MANAGEMENT_KEYS == {Name, Action, Version, Protocol} + {Source, Target, TargetPort}
    ensures Flags !in DNS_KEYS && Flags !in NTP_KEYS && Flags !in MANAGEMENT_KEYS && Source !in NTP_KEYS
    ensures SourcePort !in MANAGEMENT_KEYS && TargetPort !in ICMP_KEYS && Source !in TCP_RESPONSE_KEYS
  {
  }

  lemma ResponseExactly(site: Site, rule: Rule, kind: Kind)
    requires Proper(rule)
    ensures ResponseKind(site, rule) == kind && !kind.Refused? <==> HasResponse(site, rule, kind)
  {
    SetsApart();
    if TargetPort in rule { EphemeralShown(rule[TargetPort]); }
    if SourcePort in rule { PortsShown(rule[SourcePort]); }
    if Flags in rule { FlagsShown(rule[Flags]); }
    DeclaresExactly(rule, {Target, TargetPort, Flags}, "tcp");
    DeclaresExactly(rule, {Source, SourcePort, Target, TargetPort}, "udp");
    DeclaresExactly(rule, {SourcePort, Target, TargetPort}, "udp");
    DeclaresExactly(rule, {}, "icmp");
  }

  /** The classifier gives a rule exactly the kind whose fields it has, and the Tang kind in the hardened phase only. */
  lemma KindExactly(site: Site, hardened: bool, rule: Rule, kind: Kind)
    ensures KindOf(site, hardened, rule) == kind && !kind.Refused? <==> Has(site, rule, kind) && (kind.Tang? ==> hardened)
  {
    WellformedExactly(rule);
    SetsApart();
    if Proper(rule) {
      DeclaresExactly(rule, {Source, Target, TargetPort}, "tcp");
      if Declares(rule, {Source, Target, TargetPort}, "tcp") { InboundExactly(site, hardened, rule, kind); }
      ResponseExactly(site, rule, kind);
    }
  }
}
