/** Exactly which packets the rules of an accepted phase let through. */

module FirewallPackets {
  import opened Outcomes
  import opened Text
  import opened Firewall
  import opened FirewallMeaning
  import opened FirewallShapes
  import opened FirewallPlans

  /** The provider reads all port fields of approved rules as what they say. */
  predicate Literal(reading: Reading) {
    Plain(reading) && reading.ports(S("53")) == (53, 53) && reading.ports(S("123")) == (123, 123)
  }

  predicate Ipv4(protocol: string, p: Packet) { p.version == S("ipv4") && p.protocol == S(protocol) }

  /** The address, bare or as the network of this one host. */
  predicate Host(field: Text, address: Text) { field == address || field == address + S("/32") }

  predicate TcpFrom(site: Site, source: Text, port: int, p: Packet) {
    Ipv4("tcp", p) && Host(source, p.source) && Host(site.target, p.target) && p.targetPort == port
  }

  /** To one of the target's own connections. */
  predicate ToConnection(site: Site, p: Packet) { Host(site.target, p.target) && 32768 <= p.targetPort <= 65535 }

  predicate DnsAnswer(site: Site, source: Text, p: Packet) {
    Ipv4("udp", p) && ToConnection(site, p) && p.sourcePort == 53 && Host(source, p.source)
  }

  /** The packets of a kind of rule; flags is what the rule for TCP answers asks for. */
  predicate Crosses(reading: Reading, site: Site, flags: Text, kind: Kind, p: Packet) {
    match kind
    case Management(port) => TcpFrom(site, site.controller, port, p)
    case Tang(source) => TcpFrom(site, source, 80, p)
    case TcpResponse => Ipv4("tcp", p) && ToConnection(site, p) && reading.flags(flags, p)
    case Dns(source) => DnsAnswer(site, source, p)
    case Ntp => Ipv4("udp", p) && ToConnection(site, p) && p.sourcePort == 123
    case Icmp => Ipv4("icmp", p)
    case Refused => false
  }

  // -------------------------------------------------------------- single rules

  function FieldOf(rule: Rule, key: Key): Text { if key in rule then Str(rule[key]) else [] }

  predicate FieldLets(reading: Reading, rule: Rule, key: Key, p: Packet) {
    key in rule ==> FieldAccepts(reading, key, FieldOf(rule, key), p)
  }

  /** An accepting IPv4 rule with these fields, whatever they hold. */
  predicate Carries(rule: Rule, others: set<Key>, protocol: string) {
    && rule.Keys == {Name, Action, Version, Protocol} + others
    && Str(rule[Action]) == S("accept") && Str(rule[Version]) == S("ipv4") && Str(rule[Protocol]) == S(protocol)
  }

  /** The fields that every rule has, and those that only some have. */
  lemma DeclaredFields(reading: Reading, rule: Rule, others: set<Key>, protocol: string, p: Packet)
    requires Carries(rule, others, protocol)
    ensures LetsThrough(reading, rule, p) <==> Ipv4(protocol, p) && forall key :: key in others ==> FieldLets(reading, rule, key, p)
  {
    if LetsThrough(reading, rule, p) {
      assert FieldAccepts(reading, Version, Str(rule[Version]), p) && FieldAccepts(reading, Protocol, Str(rule[Protocol]), p);
    }
    if Ipv4(protocol, p) && forall key :: key in others ==> FieldLets(reading, rule, key, p) {
      forall key | key in rule && key != Name ensures FieldAccepts(reading, key, Str(rule[key]), p) {
        assert key in others || key == Action || key == Version || key == Protocol;
        assert key in others ==> FieldLets(reading, rule, key, p);
      }
    }
  }

  lemma PortsRead(reading: Reading, v: Value)
    requires Literal(reading) && Specific(v)
    ensures IsPort(v, "22", 22) ==> reading.ports(Str(v)) == (22, 22)
    ensures IsPort(v, "1905", 1905) ==> reading.ports(Str(v)) == (1905, 1905)
    ensures IsPort(v, "2222", 2222) ==> reading.ports(Str(v)) == (2222, 2222)
    ensures IsPort(v, "80", 80) ==> reading.ports(Str(v)) == (80, 80)
    ensures IsPort(v, "53", 53) ==> reading.ports(Str(v)) == (53, 53)
    ensures IsPort(v, "123", 123) ==> reading.ports(Str(v)) == (123, 123)
  {
    PortsShown(v);
  }

  lemma SourceLets(reading: Reading, rule: Rule, source: Text, p: Packet)
    requires Source in rule && rule[Source] == TextValue(source)
    ensures FieldLets(reading, rule, Source, p) <==> Host(source, p.source)
  {
  }

  lemma TargetLets(reading: Reading, site: Site, rule: Rule, p: Packet)
    requires Target in rule && rule[Target] == TextValue(site.target)
    ensures FieldLets(reading, rule, Target, p) <==> Host(site.target, p.target)
  {
  }

  lemma TargetPortLets(reading: Reading, rule: Rule, range: (int, int), p: Packet)
    requires TargetPort in rule && reading.ports(Str(rule[TargetPort])) == range
    ensures FieldLets(reading, rule, TargetPort, p) <==> range.0 <= p.targetPort <= range.1
  {
  }

  lemma SourcePortLets(reading: Reading, rule: Rule, n: int, p: Packet)
    requires SourcePort in rule && reading.ports(Str(rule[SourcePort])) == (n, n)
    ensures FieldLets(reading, rule, SourcePort, p) <==> p.sourcePort == n
  {
  }

  lemma InboundLets(reading: Reading, site: Site, rule: Rule, protocol: string, source: Text, port: int, p: Packet)
    requires Carries(rule, {Source, Target, TargetPort}, protocol)
    requires rule[Target] == TextValue(site.target) && rule[Source] == TextValue(source)
    requires reading.ports(Str(rule[TargetPort])) == (port, port)
    ensures LetsThrough(reading, rule, p) <==>
            Ipv4(protocol, p) && Host(source, p.source) && Host(site.target, p.target) && p.targetPort == port
  {
    DeclaredFields(reading, rule, {Source, Target, TargetPort}, protocol, p);
    SourceLets(reading, rule, source, p);
    TargetLets(reading, site, rule, p);
    TargetPortLets(reading, rule, (port, port), p);
  }

  lemma ManagementLets(reading: Reading, site: Site, rule: Rule, port: int, p: Packet)
    requires Literal(reading) && IsManagement(site, rule, port)
    ensures LetsThrough(reading, rule, p) <==> TcpFrom(site, site.controller, port, p)
  {
    PortsRead(reading, rule[TargetPort]);
    InboundLets(reading, site, rule, "tcp", site.controller, port, p);
  }

  lemma TangLets(reading: Reading, site: Site, rule: Rule, source: Text, p: Packet)
    requires Literal(reading) && IsTang(site, rule, source)
    ensures LetsThrough(reading, rule, p) <==> TcpFrom(site, source, 80, p)
  {
    PortsRead(reading, rule[TargetPort]);
    InboundLets(reading, site, rule, "tcp", source, 80, p);
  }

  /** An answer reaches one of the target's connections. */
  lemma AnswerLets(reading: Reading, site: Site, rule: Rule, others: set<Key>, protocol: string, p: Packet)
    requires Literal(reading) && Carries(rule, others, protocol)
    requires Target in others && TargetPort in others
    requires rule[Target] == TextValue(site.target) && Says(rule[TargetPort], "32768-65535")
    ensures LetsThrough(reading, rule, p) <==>
            && Ipv4(protocol, p) && ToConnection(site, p)
            && (Source in others ==> FieldLets(reading, rule, Source, p))
            && (SourcePort in others ==> FieldLets(reading, rule, SourcePort, p))
            && (Flags in others ==> FieldLets(reading, rule, Flags, p))
  {
    DeclaredFields(reading, rule, others, protocol, p);
    TargetLets(reading, site, rule, p);
    TargetPortLets(reading, rule, (32768, 65535), p);
    forall key | key in others
      ensures FieldLets(reading, rule, key, p) || !Ipv4(protocol, p)
              || key == Source || key == SourcePort || key == Target || key == TargetPort || key == Flags
    {
    }
  }

  lemma PortAnswerLets(reading: Reading, site: Site, rule: Rule, others: set<Key>, protocol: string, n: int, p: Packet)
    requires Literal(reading) && Carries(rule, others, protocol)
    requires SourcePort in others && Target in others && TargetPort in others && Flags !in others
    requires rule[Target] == TextValue(site.target) && Says(rule[TargetPort], "32768-65535")
    requires reading.ports(Str(rule[SourcePort])) == (n, n)
    ensures LetsThrough(reading, rule, p) <==>
            && Ipv4(protocol, p) && ToConnection(site, p) && p.sourcePort == n
            && (Source in others ==> FieldLets(reading, rule, Source, p))
  {
    AnswerLets(reading, site, rule, others, protocol, p);
    SourcePortLets(reading, rule, n, p);
  }

  /** Without a source, an answer may come from anywhere. */
  lemma AnyPortAnswerLets(reading: Reading, site: Site, rule: Rule, others: set<Key>, protocol: string, n: int, p: Packet)
    requires Literal(reading) && Carries(rule, others, protocol)
    requires SourcePort in others && Target in others && TargetPort in others && Flags !in others && Source !in others
    requires rule[Target] == TextValue(site.target) && Says(rule[TargetPort], "32768-65535")
    requires reading.ports(Str(rule[SourcePort])) == (n, n)
    ensures LetsThrough(reading, rule, p) <==> Ipv4(protocol, p) && ToConnection(site, p) && p.sourcePort == n
  {
    PortAnswerLets(reading, site, rule, others, protocol, n, p);
  }

  lemma FlagsAnswerLets(reading: Reading, site: Site, rule: Rule, others: set<Key>, protocol: string, p: Packet)
    requires Literal(reading) && Carries(rule, others, protocol)
    requires Flags in others && Target in others && TargetPort in others && SourcePort !in others && Source !in others
    requires rule[Target] == TextValue(site.target) && Says(rule[TargetPort], "32768-65535")
    ensures LetsThrough(reading, rule, p) <==>
            Ipv4(protocol, p) && ToConnection(site, p) && reading.flags(FieldOf(rule, Flags), p)
  {
    AnswerLets(reading, site, rule, others, protocol, p);
  }

  lemma TcpAnswerLets(reading: Reading, site: Site, rule: Rule, p: Packet)
    requires Literal(reading) && IsTcpResponse(site, rule)
    ensures LetsThrough(reading, rule, p) <==> Crosses(reading, site, FieldOf(rule, Flags), TcpResponse, p)
  {
    FlagsAnswerLets(reading, site, rule, {Target, TargetPort, Flags}, "tcp", p);
  }

  lemma DnsLets(reading: Reading, site: Site, rule: Rule, source: Text, p: Packet)
    requires Literal(reading) && IsDns(site, rule, source)
    ensures LetsThrough(reading, rule, p) <==> DnsAnswer(site, source, p)
  {
    PortsRead(reading, rule[SourcePort]);
    PortAnswerLets(reading, site, rule, {Source, SourcePort, Target, TargetPort}, "udp", 53, p);
    SourceLets(reading, rule, source, p);
  }

  lemma NtpLets(reading: Reading, site: Site, rule: Rule, p: Packet)
    requires Literal(reading) && IsNtp(site, rule)
    ensures LetsThrough(reading, rule, p) <==> Ipv4("udp", p) && ToConnection(site, p) && p.sourcePort == 123
  {
    PortsRead(reading, rule[SourcePort]);
    AnyPortAnswerLets(reading, site, rule, {SourcePort, Target, TargetPort}, "udp", 123, p);
  }

  /** A rule lets through exactly the packets of its kind. */
  lemma RuleExactly(reading: Reading, site: Site, rule: Rule, kind: Kind, p: Packet)
    requires Literal(reading) && Has(site, rule, kind)
    ensures LetsThrough(reading, rule, p) <==> Crosses(reading, site, FieldOf(rule, Flags), kind, p)
  {
    match kind
    case Management(port) => ManagementLets(reading, site, rule, port, p);
    case Tang(source) => TangLets(reading, site, rule, source, p);
    case Icmp => DeclaredFields(reading, rule, {}, "icmp", p);
    case TcpResponse => TcpAnswerLets(reading, site, rule, p);
    case Dns(source) => DnsLets(reading, site, rule, source, p);
    case Ntp => NtpLets(reading, site, rule, p);
  }

  // -------------------------------------------------------------------- phases

  /** The packets of a phase with these sources. */
  predicate Passes(reading: Reading, site: Site, hardened: bool, dns: seq<Text>, tang: seq<Text>, flags: Text, p: Packet) {
    || TcpFrom(site, site.controller, 1905, p) || TcpFrom(site, site.controller, 2222, p)
    || (!hardened && TcpFrom(site, site.controller, 22, p))
    || (exists source :: source in tang && TcpFrom(site, source, 80, p))
    || (Ipv4("tcp", p) && ToConnection(site, p) && reading.flags(flags, p))
    || (exists source :: source in dns && DnsAnswer(site, source, p))
    || (Ipv4("udp", p) && ToConnection(site, p) && p.sourcePort == 123)
    || Ipv4("icmp", p)
  }

  lemma PassingKind(reading: Reading, site: Site, hardened: bool, dns: seq<Text>, tang: seq<Text>, flags: Text, p: Packet)
    returns (kind: Kind)
    requires Passes(reading, site, hardened, dns, tang, flags, p)
    ensures Belongs(hardened, dns, tang, kind) && Crosses(reading, site, flags, kind, p)
  {
    if TcpFrom(site, site.controller, 1905, p) { return Management(1905); }
    if TcpFrom(site, site.controller, 2222, p) { return Management(2222); }
    if !hardened && TcpFrom(site, site.controller, 22, p) { return Management(22); }
    if source :| source in tang && TcpFrom(site, source, 80, p) { return Tang(source); }
    if Ipv4("tcp", p) && ToConnection(site, p) && reading.flags(flags, p) { return TcpResponse; }
    if source :| source in dns && DnsAnswer(site, source, p) { return Dns(source); }
    return if Ipv4("icmp", p) then Icmp else Ntp;
  }

  lemma BelongingCrosses(reading: Reading, site: Site, hardened: bool, dns: seq<Text>, tang: seq<Text>, flags: Text, p: Packet)
    ensures Passes(reading, site, hardened, dns, tang, flags, p) <==>
            exists kind :: Belongs(hardened, dns, tang, kind) && Crosses(reading, site, flags, kind, p)
  {
    if Passes(reading, site, hardened, dns, tang, flags, p) {
      var kind := PassingKind(reading, site, hardened, dns, tang, flags, p);
    }
  }

  lemma KindAt(hardened: bool, kinds: seq<Kind>, dns: seq<Text>, tang: seq<Text>, kind: Kind) returns (i: nat)
    requires OneEach(hardened, kinds, dns, tang) && Belongs(hardened, dns, tang, kind)
    ensures i < |kinds| && kinds[i] == kind
  {
    assert kind in multiset(kinds);
    assert kind in kinds;
    i :| 0 <= i < |kinds| && kinds[i] == kind;
  }

  lemma TwiceCounts(kinds: seq<Kind>, i: nat, j: nat)
    requires i < j < |kinds| && kinds[i] == kinds[j]
    ensures multiset(kinds)[kinds[i]] > 1
  {
    var before, after := kinds[..j], kinds[j..];
    assert kinds == before + after && kinds[i] == before[i] && kinds[j] == after[0];
    assert before[i] in multiset(before) && after[0] in multiset(after);
  }

  lemma OnlyOnce(hardened: bool, kinds: seq<Kind>, dns: seq<Text>, tang: seq<Text>, i: nat, j: nat)
    requires OneEach(hardened, kinds, dns, tang) && i < |kinds| && j < |kinds| && kinds[i] == kinds[j]
    ensures i == j
  {
    if i < j { TwiceCounts(kinds, i, j); }
    if j < i { TwiceCounts(kinds, j, i); }
  }

  lemma RuleOfKind(reading: Reading, site: Site, hardened: bool, rules: seq<Rule>, kinds: seq<Kind>,
                   dns: seq<Text>, tang: seq<Text>, response: nat, i: nat, p: Packet)
    requires Literal(reading) && ApprovedAs(site, hardened, rules, kinds, dns, tang)
    requires response < |rules| && kinds[response] == TcpResponse && i < |rules|
    ensures Belongs(hardened, dns, tang, kinds[i])
    ensures LetsThrough(reading, rules[i], p) <==> Crosses(reading, site, FieldOf(rules[response], Flags), kinds[i], p)
  {
    assert kinds[i] in multiset(kinds);
    RuleExactly(reading, site, rules[i], kinds[i], p);
    if kinds[i] == TcpResponse { OnlyOnce(hardened, kinds, dns, tang, i, response); }
  }

  lemma AcceptedKind(reading: Reading, site: Site, hardened: bool, rules: seq<Rule>, kinds: seq<Kind>,
                     dns: seq<Text>, tang: seq<Text>, response: nat, p: Packet)
    requires Literal(reading) && ApprovedAs(site, hardened, rules, kinds, dns, tang)
    requires response < |rules| && kinds[response] == TcpResponse
    ensures Accepts(reading, rules, p) <==>
            exists kind :: Belongs(hardened, dns, tang, kind) && Crosses(reading, site, FieldOf(rules[response], Flags), kind, p)
  {
    var flags := FieldOf(rules[response], Flags);
    if i :| 0 <= i < |rules| && LetsThrough(reading, rules[i], p) {
      RuleOfKind(reading, site, hardened, rules, kinds, dns, tang, response, i, p);
      assert Belongs(hardened, dns, tang, kinds[i]) && Crosses(reading, site, flags, kinds[i], p);
    }
    if kind :| Belongs(hardened, dns, tang, kind) && Crosses(reading, site, flags, kind, p) {
      var i := KindAt(hardened, kinds, dns, tang, kind);
      RuleOfKind(reading, site, hardened, rules, kinds, dns, tang, response, i, p);
    }
  }

  /** The sources of an approved phase: addresses of DNS servers, and single hosts. */
  lemma SourcesAreHosts(site: Site, hardened: bool, rules: seq<Rule>, kinds: seq<Kind>, dns: seq<Text>, tang: seq<Text>)
    requires ApprovedAs(site, hardened, rules, kinds, dns, tang)
    ensures forall source :: source in dns ==> site.isAddress(source)
    ensures forall source :: source in tang ==> IsSingleHost(site, source)
  {
    forall source | source in dns ensures site.isAddress(source) {
      var i := KindAt(hardened, kinds, dns, tang, Dns(source));
      assert Has(site, rules[i], Dns(source));
    }
    forall source | source in tang ensures IsSingleHost(site, source) {
      var i := KindAt(hardened, kinds, dns, tang, Tang(source));
      assert Has(site, rules[i], Tang(source));
    }
  }

  /** For every accepted phase: which packets its rules let through. */
  lemma PhasePassesExactly(reading: Reading, site: Site, hardened: bool, rules: seq<Rule>)
    returns (dns: seq<Text>, tang: seq<Text>, flags: Text)
    requires Literal(reading) && Classified(site, hardened, rules).Ok?
    ensures Sources(site, hardened, dns, tang) && IsAck(flags)
    ensures forall source :: source in dns ==> site.isAddress(source)
    ensures forall source :: source in tang ==> IsSingleHost(site, source)
    ensures forall p :: Accepts(reading, rules, p) <==> Passes(reading, site, hardened, dns, tang, flags, p)
  {
    PhaseExactly(site, hardened, rules);
    var kinds, d, t :| ApprovedAs(site, hardened, rules, kinds, d, t);
    dns, tang := d, t;
    SourcesAreHosts(site, hardened, rules, kinds, dns, tang);
    var response := KindAt(hardened, kinds, dns, tang, TcpResponse);
    assert Has(site, rules[response], TcpResponse);
    flags := FieldOf(rules[response], Flags);
    forall p ensures Accepts(reading, rules, p) <==> Passes(reading, site, hardened, dns, tang, flags, p) {
      AcceptedKind(reading, site, hardened, rules, kinds, dns, tang, response, p);
      BelongingCrosses(reading, site, hardened, dns, tang, flags, p);
    }
  }
}
