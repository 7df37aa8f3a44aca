/** The packets that the rules of an accepted plan let through. */

module FirewallMeaning {
  import opened Outcomes
  import opened Text
  import opened Lists
  import opened Firewall
  import opened FirewallProofs

  // ---------------------------------------------- what the validator does not look at

  /** The same declaration with its rules in another order. */
  predicate Permuted(d: Declaration, d': Declaration) {
    multiset(d.input) == multiset(d'.input) && d.output == d'.output
  }

  lemma ComparedAlike(leq: (Signature, Signature) -> bool, b: Result<Found>, h: Result<Found>,
                      b': Result<Found>, h': Result<Found>, m: nat, n: nat)
    requires TotalOrder(leq) && b.Ok? == b'.Ok? && h.Ok? == h'.Ok?
    requires (b.Ok? ==> Alike(b.value, b'.value)) && (h.Ok? ==> Alike(h.value, h'.value))
    ensures Compared(leq, b, h, m, n) == Compared(leq, b', h', m, n)
  {
    if b.Ok? && h.Ok? {
      SortedAlike(leq, b.value.base, b'.value.base);
      SortedAlike(leq, h.value.base, h'.value.base);
      assert |h.value.tang| == |multiset(h.value.tang)| == |multiset(h'.value.tang)| == |h'.value.tang|;
    }
  }

  /** Reordering the input rules changes nothing about the result. */
  lemma OrderDoesNotMatter(leq: (Signature, Signature) -> bool, site: Site, plan: Plan, plan': Plan)
    requires TotalOrder(leq)
    requires Permuted(plan.bootstrap, plan'.bootstrap) && Permuted(plan.hardened, plan'.hardened)
    requires plan' == plan.(bootstrap := plan'.bootstrap, hardened := plan'.hardened)
    ensures Validate(leq, site, plan) == Validate(leq, site, plan')
  {
    ClassifiedPermuted(site, false, plan.bootstrap.input, plan'.bootstrap.input);
    ClassifiedPermuted(site, true, plan.hardened.input, plan'.hardened.input);
    ComparedAlike(leq, Classified(site, false, plan.bootstrap.input), Classified(site, true, plan.hardened.input),
                  Classified(site, false, plan'.bootstrap.input), Classified(site, true, plan'.hardened.input),
                  |plan.bootstrap.input|, |plan.hardened.input|);
  }

  /** The same rule under another acceptable name. */
  predicate Renamed(rule: Rule, rule': Rule) {
    && Name in rule && Nameable(rule[Name]) && Name in rule' && Nameable(rule'[Name])
    && rule' == rule[Name := rule'[Name]]
  }

  lemma RenamedFields(rule: Rule, rule': Rule)
    requires Renamed(rule, rule')
    ensures rule'.Keys == rule.Keys && forall key :: key in rule && key != Name ==> rule'[key] == rule[key]
  {
  }

  lemma RenamedInbound(site: Site, hardened: bool, rule: Rule, rule': Rule)
    requires Renamed(rule, rule') && rule.Keys == MANAGEMENT_KEYS
    ensures rule'.Keys == rule.Keys && InboundKind(site, hardened, rule') == InboundKind(site, hardened, rule)
  {
    RenamedFields(rule, rule');
  }

  lemma RenamedResponse(site: Site, rule: Rule, rule': Rule)
    requires Renamed(rule, rule') && Protocol in rule
    ensures ResponseKind(site, rule') == ResponseKind(site, rule)
  {
    RenamedFields(rule, rule');
  }

  lemma RenamedCommon(rule: Rule, rule': Rule)
    requires Renamed(rule, rule')
    ensures Wellformed(rule') == Wellformed(rule)
  {
    RenamedFields(rule, rule');
  }

  lemma RenamedSignature(rule: Rule, rule': Rule)
    requires Renamed(rule, rule')
    ensures SignatureOf(rule') == SignatureOf(rule)
  {
    RenamedFields(rule, rule');
  }

  lemma RenamedKind(site: Site, hardened: bool, rule: Rule, rule': Rule)
    requires Renamed(rule, rule')
    ensures KindOf(site, hardened, rule') == KindOf(site, hardened, rule)
  {
    RenamedCommon(rule, rule');
    if Wellformed(rule) {
      RenamedResponse(site, rule, rule');
      if rule.Keys == MANAGEMENT_KEYS { RenamedInbound(site, hardened, rule, rule'); }
      KindsAlike(site, hardened, rule, rule');
    }
  }

  lemma KindsAlike(site: Site, hardened: bool, rule: Rule, rule': Rule)
    requires Wellformed(rule) && Wellformed(rule') && rule.Keys == rule'.Keys && rule[Protocol] == rule'[Protocol]
    requires ResponseKind(site, rule) == ResponseKind(site, rule')
    requires rule.Keys == MANAGEMENT_KEYS ==> InboundKind(site, hardened, rule) == InboundKind(site, hardened, rule')
    ensures KindOf(site, hardened, rule') == KindOf(site, hardened, rule)
  {
  }

  lemma RenamedEntry(site: Site, hardened: bool, rule: Rule, rule': Rule)
    requires Renamed(rule, rule')
    ensures EntryOf(site, hardened, rule') == EntryOf(site, hardened, rule)
  {
    RenamedKind(site, hardened, rule, rule');
    RenamedSignature(rule, rule');
  }

  predicate AllRenamed(rules: seq<Rule>, rules': seq<Rule>) {
    |rules| == |rules'| && forall i :: 0 <= i < |rules| ==> Renamed(rules[i], rules'[i])
  }

  lemma RenamedEntries(site: Site, hardened: bool, rules: seq<Rule>, rules': seq<Rule>)
    requires AllRenamed(rules, rules')
    ensures Entries(site, hardened, rules') == Entries(site, hardened, rules)
  {
    var entries, entries' := Entries(site, hardened, rules), Entries(site, hardened, rules');
    forall i | 0 <= i < |rules| ensures entries'[i] == entries[i] {
      RenamedEntry(site, hardened, rules[i], rules'[i]);
    }
  }

  /** Renaming input rules changes nothing about the result. */
  lemma NamesDoNotMatter(leq: (Signature, Signature) -> bool, site: Site, plan: Plan, plan': Plan)
    requires AllRenamed(plan.bootstrap.input, plan'.bootstrap.input)
    requires AllRenamed(plan.hardened.input, plan'.hardened.input)
    requires plan' == plan.(bootstrap := plan.bootstrap.(input := plan'.bootstrap.input),
                            hardened := plan.hardened.(input := plan'.hardened.input))
    ensures Validate(leq, site, plan) == Validate(leq, site, plan')
  {
    RenamedEntries(site, false, plan.bootstrap.input, plan'.bootstrap.input);
    RenamedEntries(site, true, plan.hardened.input, plan'.hardened.input);
  }

  // ------------------------------------------------------------------- packets

  datatype Packet = Packet(version: Text, protocol: Text, source: Text, sourcePort: int, target: Text, targetPort: int)

  /** How the provider reads port fields, as ranges, and flag fields. */
  datatype Reading = Reading(ports: Text -> (int, int), flags: (Text, Packet) -> bool)

  /** The provider reads the port fields that occur in approved rules as what they say. */
  predicate Plain(reading: Reading) {
    && reading.ports(S("22")) == (22, 22) && reading.ports(S("1905")) == (1905, 1905)
    && reading.ports(S("2222")) == (2222, 2222) && reading.ports(S("80")) == (80, 80)
    && reading.ports(EPHEMERAL) == (32768, 65535)
  }

  predicate InRange(range: (int, int), port: int) { range.0 <= port <= range.1 }

  /** A host field: an address, or the address with the suffix of a single host. */
  predicate IsHost(field: Text, address: Text) { field == address || field == address + HOST_SUFFIX }

  predicate FieldAccepts(reading: Reading, key: Key, field: Text, p: Packet) {
    match key
    case Action => field == S("accept")
    case Version => field == p.version
    case Protocol => field == p.protocol
    case Source => IsHost(field, p.source)
    case SourcePort => InRange(reading.ports(field), p.sourcePort)
    case Target => IsHost(field, p.target)
    case TargetPort => InRange(reading.ports(field), p.targetPort)
    case Flags => reading.flags(field, p)
    case _ => true
  }

  /** A rule lets a packet through that all its fields accept; its name says nothing. */
  predicate LetsThrough(reading: Reading, rule: Rule, p: Packet) {
    forall key :: key in rule && key != Name ==> FieldAccepts(reading, key, Str(rule[key]), p)
  }

  /** The same, of the rule's signature. */
  predicate RuleAccepts(reading: Reading, signature: Signature, p: Packet) {
    forall key :: key in signature ==> FieldAccepts(reading, key, signature[key], p)
  }

  predicate Accepts(reading: Reading, rules: seq<Rule>, p: Packet) {
    exists i :: 0 <= i < |rules| && LetsThrough(reading, rules[i], p)
  }

  lemma SignatureLets(reading: Reading, rule: Rule, p: Packet)
    ensures LetsThrough(reading, rule, p) <==> RuleAccepts(reading, SignatureOf(rule), p)
  {
    var s := SignatureOf(rule);
    assert forall key :: key in s <==> key in rule && key != Name;
  }

  /** IPv4 TCP from a host to the target's port. */
  predicate IsTcp(site: Site, source: Text, port: int, p: Packet) {
    && p.version == S("ipv4") && p.protocol == S("tcp")
    && IsHost(source, p.source) && IsHost(site.target, p.target) && p.targetPort == port
  }

  // ------------------------------------------------------- rules, one at a time

  lemma PortsDiffer()
    ensures S("22") != S("1905") && S("22") != S("2222") && S("22") != S("80") && S("22") != EPHEMERAL
    ensures S("tcp") != S("udp") && S("tcp") != S("icmp")
  {
    assert S("22")[0] == 50 && S("80")[0] == 56 && S("tcp")[0] == 116 && S("udp")[0] == 117;
  }

  lemma ManagementSignature(reading: Reading, signature: Signature, p: Packet)
    requires signature.Keys == MANAGEMENT_KEYS - {Name}
    ensures RuleAccepts(reading, signature, p) <==>
            && FieldAccepts(reading, Action, signature[Action], p) && FieldAccepts(reading, Version, signature[Version], p)
            && FieldAccepts(reading, Protocol, signature[Protocol], p) && FieldAccepts(reading, Source, signature[Source], p)
            && FieldAccepts(reading, Target, signature[Target], p)
            && FieldAccepts(reading, TargetPort, signature[TargetPort], p)
  {
  }

  /** A rule with exactly the management fields: every field decides. */
  lemma InboundFields(reading: Reading, site: Site, rule: Rule, p: Packet)
    requires Common(rule) && rule.Keys == MANAGEMENT_KEYS && rule[Protocol] == TextValue(S("tcp"))
    requires rule[Target] == TextValue(site.target) && rule[Source].TextValue?
    ensures SignatureOf(rule).Keys == MANAGEMENT_KEYS - {Name} && SignatureOf(rule)[TargetPort] == Str(rule[TargetPort])
    ensures RuleAccepts(reading, SignatureOf(rule), p) <==>
            && p.version == S("ipv4") && p.protocol == S("tcp")
            && IsHost(rule[Source].t, p.source) && IsHost(site.target, p.target)
            && InRange(reading.ports(Str(rule[TargetPort])), p.targetPort)
  {
    var s := SignatureOf(rule);
    assert s.Keys == MANAGEMENT_KEYS - {Name};
    assert s[Action] == S("accept") && s[Version] == S("ipv4") && s[Protocol] == S("tcp");
    assert s[Target] == site.target && s[Source] == rule[Source].t && s[TargetPort] == Str(rule[TargetPort]);
    ManagementSignature(reading, s, p);
  }

  /** A management or Tang rule accepts TCP from its host to its port, and nothing else. */
  lemma InboundAccepts(reading: Reading, site: Site, hardened: bool, rule: Rule, p: Packet)
    requires Plain(reading) && Common(rule) && rule.Keys == MANAGEMENT_KEYS && rule[Protocol] == TextValue(S("tcp"))
    requires !InboundKind(site, hardened, rule).Refused?
    ensures var kind := InboundKind(site, hardened, rule);
            && (kind.Management? ==> (RuleAccepts(reading, SignatureOf(rule), p) <==> IsTcp(site, site.controller, kind.port, p)))
            && (kind.Management? ==> (KeepsBase(SignatureOf(rule)) <==> kind.port != 22))
            && (kind.Tang? ==> (RuleAccepts(reading, SignatureOf(rule), p) <==> IsTcp(site, kind.source, 80, p)))
            && (kind.Management? || kind.Tang?)
  {
    PortsDiffer();
    InboundFields(reading, site, rule, p);
  }

  /** The fields of a rule for answers that tell it from access to port 22. */
  lemma ResponseFields(site: Site, rule: Rule)
    requires Wellformed(rule) && !ResponseKind(site, rule).Refused?
    ensures !ResponseKind(site, rule).Tang? && !ResponseKind(site, rule).Management?
    ensures if TargetPort in rule then Str(rule[TargetPort]) == EPHEMERAL else rule[Protocol] == TextValue(S("icmp"))
  {
  }

  lemma SignatureField(reading: Reading, rule: Rule, key: Key, p: Packet)
    requires key in rule && key != Name
    ensures key in SignatureOf(rule) && SignatureOf(rule)[key] == Str(rule[key])
    ensures RuleAccepts(reading, SignatureOf(rule), p) ==> FieldAccepts(reading, key, Str(rule[key]), p)
  {
    assert SignatureOf(rule)[key] == Str(rule[key]);
  }

  /** A rule for answers accepts no TCP packet to port 22, and is in the base policy of both phases. */
  lemma ResponseAccepts(reading: Reading, site: Site, rule: Rule, p: Packet, source: Text)
    requires Plain(reading) && Wellformed(rule) && !ResponseKind(site, rule).Refused?
    ensures KeepsBase(SignatureOf(rule)) && !ResponseKind(site, rule).Tang? && !ResponseKind(site, rule).Management?
    ensures RuleAccepts(reading, SignatureOf(rule), p) ==> !IsTcp(site, source, 22, p)
  {
    PortsDiffer();
    ResponseFields(site, rule);
    if TargetPort in rule {
      SignatureField(reading, rule, TargetPort, p);
    } else {
      SignatureField(reading, rule, Protocol, p);
    }
  }

  /** What any approved rule accepts, and whether hardening keeps it. */
  lemma RuleMeaning(reading: Reading, site: Site, hardened: bool, rule: Rule, p: Packet)
    requires Plain(reading) && !KindOf(site, hardened, rule).Refused?
    ensures var kind, s := KindOf(site, hardened, rule), SignatureOf(rule);
            if kind.Tang? then RuleAccepts(reading, s, p) <==> IsTcp(site, kind.source, 80, p)
            else if KeepsBase(s) then RuleAccepts(reading, s, p) ==> !IsTcp(site, site.controller, 22, p)
            else RuleAccepts(reading, s, p) <==> IsTcp(site, site.controller, 22, p)
  {
    if rule.Keys == MANAGEMENT_KEYS && rule[Protocol] == TextValue(S("tcp")) {
      InboundAccepts(reading, site, hardened, rule, p);
    } else {
      ResponseAccepts(reading, site, rule, p, site.controller);
    }
  }

  predicate AnyAccepts(reading: Reading, base: seq<Signature>, p: Packet) {
    exists s :: s in base && RuleAccepts(reading, s, p)
  }

  predicate FromTang(site: Site, tang: seq<Text>, p: Packet) {
    exists source :: source in tang && IsTcp(site, source, 80, p)
  }

  lemma InCollected(f: Found, entries: seq<Entry>, s: Signature) returns (i: nat)
    requires IsCollected(f, entries) && s in f.base
    ensures i < |entries| && !entries[i].0.Tang? && entries[i].1 == s
  {
    CollectMembers(BaseOf, entries, s);
    var j :| 0 <= j < |entries| && s in BaseOf(entries[j]);
    i := j;
  }

  lemma InBase(site: Site, hardened: bool, rules: seq<Rule>, s: Signature) returns (i: nat)
    requires Classified(site, hardened, rules).Ok? && s in Classified(site, hardened, rules).value.base
    ensures i < |rules| && !KindOf(site, hardened, rules[i]).Tang? && SignatureOf(rules[i]) == s
  {
    ClassifiedCollects(site, hardened, rules);
    i := InCollected(Classified(site, hardened, rules).value, Entries(site, hardened, rules), s);
  }

  lemma BaseHas(site: Site, hardened: bool, rules: seq<Rule>, i: nat)
    requires Classified(site, hardened, rules).Ok? && i < |rules| && !KindOf(site, hardened, rules[i]).Tang?
    ensures SignatureOf(rules[i]) in Classified(site, hardened, rules).value.base
  {
    ClassifiedCollects(site, hardened, rules);
    var entries, s := Entries(site, hardened, rules), SignatureOf(rules[i]);
    CollectMembers(BaseOf, entries, s);
    assert entries[i] == EntryOf(site, hardened, rules[i]);
    assert s in BaseOf(entries[i]);
  }

  lemma InTang(site: Site, hardened: bool, rules: seq<Rule>, source: Text) returns (i: nat)
    requires Classified(site, hardened, rules).Ok? && source in Classified(site, hardened, rules).value.tang
    ensures i < |rules| && KindOf(site, hardened, rules[i]) == Tang(source)
  {
    ClassifiedCollects(site, hardened, rules);
    i := TangCollected(Classified(site, hardened, rules).value, Entries(site, hardened, rules), source);
  }

  lemma TangCollected(f: Found, entries: seq<Entry>, source: Text) returns (i: nat)
    requires IsCollected(f, entries) && source in f.tang
    ensures i < |entries| && entries[i].0 == Tang(source)
  {
    CollectMembers(TangOf, entries, source);
    var j :| 0 <= j < |entries| && source in TangOf(entries[j]);
    i := j;
  }

  lemma TangHas(site: Site, hardened: bool, rules: seq<Rule>, i: nat)
    requires Classified(site, hardened, rules).Ok? && i < |rules| && KindOf(site, hardened, rules[i]).Tang?
    ensures KindOf(site, hardened, rules[i]).source in Classified(site, hardened, rules).value.tang
  {
    ClassifiedCollects(site, hardened, rules);
    var entries, source := Entries(site, hardened, rules), KindOf(site, hardened, rules[i]).source;
    CollectMembers(TangOf, entries, source);
    assert entries[i] == EntryOf(site, hardened, rules[i]);
    assert source in TangOf(entries[i]);
  }

  /** The rules of a phase accept what a base signature accepts, or TCP from a Tang host to port 80. */
  lemma PhaseAccepts(reading: Reading, site: Site, hardened: bool, rules: seq<Rule>, p: Packet)
    requires Plain(reading) && Classified(site, hardened, rules).Ok?
    ensures var f := Classified(site, hardened, rules).value;
            Accepts(reading, rules, p) <==> AnyAccepts(reading, f.base, p) || FromTang(site, f.tang, p)
  {
    var f := Classified(site, hardened, rules).value;
    ClassifiedCollects(site, hardened, rules);
    if i :| 0 <= i < |rules| && LetsThrough(reading, rules[i], p) {
      SignatureLets(reading, rules[i], p);
      RuleMeaning(reading, site, hardened, rules[i], p);
      var kind := KindOf(site, hardened, rules[i]);
      if kind.Tang? {
        TangHas(site, hardened, rules, i);
        assert kind.source in f.tang;
      } else {
        BaseHas(site, hardened, rules, i);
        assert SignatureOf(rules[i]) in f.base;
      }
    }
    if s :| s in f.base && RuleAccepts(reading, s, p) {
      var i := InBase(site, hardened, rules, s);
      SignatureLets(reading, rules[i], p);
      assert Accepts(reading, rules, p);
    }
    if source :| source in f.tang && IsTcp(site, source, 80, p) {
      var i := InTang(site, hardened, rules, source);
      RuleMeaning(reading, site, hardened, rules[i], p);
      SignatureLets(reading, rules[i], p);
      assert Accepts(reading, rules, p);
    }
  }

  /** A base signature of the bootstrap phase is kept unless it accepts exactly the controller's port 22. */
  lemma BaseMeaning(reading: Reading, site: Site, rules: seq<Rule>, s: Signature, p: Packet)
    requires Plain(reading) && Classified(site, false, rules).Ok? && s in Classified(site, false, rules).value.base
    ensures if KeepsBase(s) then RuleAccepts(reading, s, p) ==> !IsTcp(site, site.controller, 22, p)
            else RuleAccepts(reading, s, p) <==> IsTcp(site, site.controller, 22, p)
  {
    var i := InBase(site, false, rules, s);
    ClassifiedCollects(site, false, rules);
    RuleMeaning(reading, site, false, rules[i], p);
  }

  /** An accepted comparison: the hardened base policy has the kept bootstrap signatures, as often. */
  lemma SameBase(leq: (Signature, Signature) -> bool, b: Result<Found>, h: Result<Found>, m: nat, n: nat, s: Signature)
    requires TotalOrder(leq) && Compared(leq, b, h, m, n).Ok?
    ensures s in h.value.base <==> s in b.value.base && KeepsBase(s)
  {
    SortedComparison(leq, KeepsBase, b.value.base, h.value.base);
    assert multiset(Filter(KeepsBase, b.value.base)) == multiset(h.value.base);
    assert s in h.value.base <==> multiset(h.value.base)[s] > 0;
    assert s in b.value.base <==> multiset(b.value.base)[s] > 0;
  }

  /** The three hosts that may reach Tang: distinct, and neither the controller nor the target. */
  predicate Consumers(site: Site, tang: seq<Text>) {
    |tang| == 3 && Distinct(tang) && site.controller !in tang && site.target + HOST_SUFFIX !in tang
  }

  /**
   * For every accepted plan and every packet: the hardened rules let it through exactly when the bootstrap rules do
   * and it is not TCP from the controller to port 22, or it is TCP from one of the three consumers to port 80.
   */
  lemma HardenedDiffersExactly(leq: (Signature, Signature) -> bool, reading: Reading, site: Site, plan: Plan)
    returns (tang: seq<Text>)
    requires TotalOrder(leq) && Plain(reading) && Validate(leq, site, plan).Ok?
    ensures Consumers(site, tang)
    ensures forall p :: Accepts(reading, plan.hardened.input, p) <==>
              || (Accepts(reading, plan.bootstrap.input, p) && !IsTcp(site, site.controller, 22, p))
              || FromTang(site, tang, p)
  {
    var b, h := Classified(site, false, plan.bootstrap.input), Classified(site, true, plan.hardened.input);
    tang := h.value.tang;
    forall p ensures Accepts(reading, plan.hardened.input, p) <==>
      || (Accepts(reading, plan.bootstrap.input, p) && !IsTcp(site, site.controller, 22, p))
      || FromTang(site, tang, p)
    {
      PhaseAccepts(reading, site, false, plan.bootstrap.input, p);
      PhaseAccepts(reading, site, true, plan.hardened.input, p);
      BasesDiffer(leq, reading, site, plan, p);
    }
  }

  lemma BasesDiffer(leq: (Signature, Signature) -> bool, reading: Reading, site: Site, plan: Plan, p: Packet)
    requires TotalOrder(leq) && Plain(reading) && Validate(leq, site, plan).Ok?
    ensures var b, h := Classified(site, false, plan.bootstrap.input), Classified(site, true, plan.hardened.input);
            && AnyAccepts(reading, h.value.base, p)
               == (AnyAccepts(reading, b.value.base, p) && !IsTcp(site, site.controller, 22, p))
            && b.value.tang == []
  {
    var b, h := Classified(site, false, plan.bootstrap.input), Classified(site, true, plan.hardened.input);
    var m, n := |plan.bootstrap.input|, |plan.hardened.input|;
    if s :| s in h.value.base && RuleAccepts(reading, s, p) {
      SameBase(leq, b, h, m, n, s);
      BaseMeaning(reading, site, plan.bootstrap.input, s, p);
    }
    if s :| s in b.value.base && RuleAccepts(reading, s, p) {
      SameBase(leq, b, h, m, n, s);
      BaseMeaning(reading, site, plan.bootstrap.input, s, p);
      assert !IsTcp(site, site.controller, 22, p) ==> s in h.value.base;
    }
  }
}
