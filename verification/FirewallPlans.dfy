/** Accepted firewall plans: exactly which rules they hold, and exactly which packets these let through. */

module FirewallPlans {
  import opened Outcomes
  import opened Text
  import opened Package
  import opened Lists
  import opened Firewall
  import opened FirewallProofs
  import opened FirewallMeaning
  import opened FirewallShapes

  // ------------------------------------------------------------------ phases

  /** The rules have these kinds, one by one. */
  ghost predicate Assigned(site: Site, rules: seq<Rule>, kinds: seq<Kind>) {
    |kinds| == |rules| && forall i :: 0 <= i < |rules| ==> Has(site, rules[i], kinds[i])
  }

  /** Two answering DNS servers; three consumers of Tang once hardened, none of them the controller or the target. */
  predicate Sources(site: Site, hardened: bool, dns: seq<Text>, tang: seq<Text>) {
    && |dns| == 2 && Distinct(dns)
    && if hardened then |tang| == 3 && Distinct(tang) && site.controller !in tang && site.target + S("/32") !in tang
       else tang == []
  }

  predicate IsManaged(hardened: bool, port: int) { port == 1905 || port == 2222 || (port == 22 && !hardened) }

  /** The kinds of rules that a phase holds. */
  predicate Belongs(hardened: bool, dns: seq<Text>, tang: seq<Text>, kind: Kind) {
    match kind
    case Management(port) => IsManaged(hardened, port)
    case Tang(source) => source in tang
    case TcpResponse => true
    case Dns(source) => source in dns
    case Ntp => true
    case Icmp => true
    case Refused => false
  }

  /** The kinds of a phase's rules: each of those that belong there once, and no others. */
  ghost predicate OneEach(hardened: bool, kinds: seq<Kind>, dns: seq<Text>, tang: seq<Text>) {
    forall kind :: multiset(kinds)[kind] == if Belongs(hardened, dns, tang, kind) then 1 else 0
  }

  ghost predicate ApprovedAs(site: Site, hardened: bool, rules: seq<Rule>, kinds: seq<Kind>, dns: seq<Text>, tang: seq<Text>) {
    && Assigned(site, rules, kinds) && Sources(site, hardened, dns, tang)
    && OneEach(hardened, kinds, dns, tang)
  }

  ghost predicate Approved(site: Site, hardened: bool, rules: seq<Rule>) {
    exists kinds, dns, tang :: ApprovedAs(site, hardened, rules, kinds, dns, tang)
  }

  // ---------------------------------------------------------- counting by kind

  function KindsIn(entries: seq<Entry>): (kinds: seq<Kind>)
    ensures |kinds| == |entries|
  {
    seq(|entries|, i requires 0 <= i < |entries| => entries[i].0)
  }

  function CountIn(f: Found, kind: Kind): nat {
    match kind
    case Management(port) => multiset(f.ports)[port]
    case Tang(source) => multiset(f.tang)[source]
    case TcpResponse => f.tcp
    case Dns(source) => multiset(f.dns)[source]
    case Ntp => f.ntp
    case Icmp => f.icmp
    case Refused => 0
  }

  lemma OneMoreKind(f: Found, e: Entry, kind: Kind)
    requires !e.0.Refused?
    ensures CountIn(With(f, e), kind) == CountIn(f, kind) + if kind == e.0 then 1 else 0
  {
  }

  lemma {:induction false} KindsCounted(entries: seq<Entry>, n: nat, kind: Kind)
    requires n <= |entries| && FoundIn(entries, n).Some?
    ensures multiset(KindsIn(entries)[..n])[kind] == CountIn(FoundIn(entries, n).value, kind)
  {
    var kinds := KindsIn(entries);
    if n == 0 {
      assert kinds[..n] == [];
    } else {
      NextFound(entries, n);
      KindsCounted(entries, n - 1, kind);
      OneMoreKind(FoundIn(entries, n - 1).value, entries[n - 1], kind);
      assert kinds[..n] == kinds[..n - 1] + [entries[n - 1].0];
    }
  }

  ghost predicate Counted(f: Found, hardened: bool, dns: seq<Text>, tang: seq<Text>) {
    forall kind :: CountIn(f, kind) == if Belongs(hardened, dns, tang, kind) then 1 else 0
  }

  /** The elements of t, each once. */
  ghost predicate Covers<T(!new)>(s: seq<T>, t: seq<T>) { forall x :: multiset(s)[x] == if x in t then 1 else 0 }

  lemma CoversItself<T(!new)>(s: seq<T>)
    requires Distinct(s)
    ensures Covers(s, s)
  {
    DistinctCounts(s);
    assert forall x :: x in s <==> x in multiset(s);
  }

  lemma SortedCovers(ports: seq<int>, expected: seq<int>)
    requires Ordered(IntLeq, expected) && Distinct(expected)
    ensures SortedBy(IntLeq, ports) == expected <==> Covers(ports, expected)
  {
    CoversItself(expected);
    assert multiset(SortedBy(IntLeq, ports)) == multiset(ports);
    if Covers(ports, expected) {
      assert multiset(ports) == multiset(expected);
      IntLeqIsTotal();
      SortedIsOrdered(IntLeq, ports);
      OrderedIsUnique(IntLeq, SortedBy(IntLeq, ports), expected);
    }
  }

  lemma CoveringSources(s: seq<Text>, t: seq<Text>)
    requires Distinct(t) && Covers(s, t)
    ensures |s| == |t| && Distinct(s) && forall x :: x in s <==> x in t
  {
    CoversItself(t);
    assert multiset(s) == multiset(t);
    assert |s| == |multiset(s)| && |t| == |multiset(t)|;
    DistinctCounts(s);
    assert forall x :: x in s <==> x in multiset(s);
  }

  ghost predicate ManagedOnce(ports: seq<int>, hardened: bool) {
    forall port :: multiset(ports)[port] == if IsManaged(hardened, port) then 1 else 0
  }

  lemma PortsCover(ports: seq<int>, hardened: bool, expected: seq<int>)
    requires forall port :: port in expected <==> IsManaged(hardened, port)
    ensures Covers(ports, expected) <==> ManagedOnce(ports, hardened)
  {
    if Covers(ports, expected) {
      forall port ensures multiset(ports)[port] == if IsManaged(hardened, port) then 1 else 0 {
        assert port in expected <==> IsManaged(hardened, port);
      }
    }
    if ManagedOnce(ports, hardened) {
      forall port ensures multiset(ports)[port] == if port in expected then 1 else 0 {
        assert port in expected <==> IsManaged(hardened, port);
      }
    }
  }

  lemma SortedManagement(ports: seq<int>, hardened: bool)
    ensures SortedBy(IntLeq, ports) == (if hardened then [1905, 2222] else [22, 1905, 2222]) <==> ManagedOnce(ports, hardened)
  {
    if hardened {
      SortedCovers(ports, [1905, 2222]);
      PortsCover(ports, hardened, [1905, 2222]);
    } else {
      SortedCovers(ports, [22, 1905, 2222]);
      PortsCover(ports, hardened, [22, 1905, 2222]);
    }
  }

  /** The rest of the counts. */
  predicate Answered(f: Found) { f.tcp == 1 && |f.dns| == 2 && Distinct(f.dns) && f.ntp == 1 && f.icmp == 1 }

  lemma CompleteParts(site: Site, hardened: bool, f: Found)
    ensures Complete(site, hardened, f) <==>
            ManagedOnce(f.ports, hardened) && Answered(f) && Sources(site, hardened, f.dns, f.tang)
  {
    SortedManagement(f.ports, hardened);
  }

  lemma PartsCounted(hardened: bool, f: Found)
    requires ManagedOnce(f.ports, hardened) && Answered(f) && Distinct(f.tang)
    ensures Counted(f, hardened, f.dns, f.tang)
  {
    CoversItself(f.dns);
    CoversItself(f.tang);
  }

  lemma CompleteCounts(site: Site, hardened: bool, f: Found)
    requires Complete(site, hardened, f)
    ensures Sources(site, hardened, f.dns, f.tang) && Counted(f, hardened, f.dns, f.tang)
  {
    CompleteParts(site, hardened, f);
    PartsCounted(hardened, f);
  }

  lemma CountsManaged(f: Found, hardened: bool, dns: seq<Text>, tang: seq<Text>)
    requires Counted(f, hardened, dns, tang)
    ensures ManagedOnce(f.ports, hardened) && f.tcp == 1 && f.ntp == 1 && f.icmp == 1
  {
    forall port ensures multiset(f.ports)[port] == if IsManaged(hardened, port) then 1 else 0 {
      assert CountIn(f, Management(port)) == multiset(f.ports)[port];
    }
    assert CountIn(f, TcpResponse) == 1 && CountIn(f, Ntp) == 1 && CountIn(f, Icmp) == 1;
  }

  lemma CountsComplete(site: Site, hardened: bool, f: Found, dns: seq<Text>, tang: seq<Text>)
    requires Sources(site, hardened, dns, tang) && Counted(f, hardened, dns, tang)
    ensures Complete(site, hardened, f)
  {
    CountsManaged(f, hardened, dns, tang);
    CountedSources(f, hardened, dns, tang);
    CompleteParts(site, hardened, f);
  }

  lemma CountedSources(f: Found, hardened: bool, dns: seq<Text>, tang: seq<Text>)
    requires Counted(f, hardened, dns, tang) && Distinct(dns) && Distinct(tang)
    ensures |f.dns| == |dns| && Distinct(f.dns) && |f.tang| == |tang| && Distinct(f.tang)
    ensures forall x :: x in f.tang <==> x in tang
  {
    forall x ensures multiset(f.dns)[x] == if x in dns then 1 else 0 { assert CountIn(f, Dns(x)) == multiset(f.dns)[x]; }
    CoveringSources(f.dns, dns);
    forall x ensures multiset(f.tang)[x] == if x in tang then 1 else 0 { assert CountIn(f, Tang(x)) == multiset(f.tang)[x]; }
    CoveringSources(f.tang, tang);
  }

  // ---------------------------------------------------------------- acceptance

  lemma KindsAssigned(site: Site, hardened: bool, rules: seq<Rule>)
    requires Classified(site, hardened, rules).Ok?
    ensures Assigned(site, rules, KindsIn(Entries(site, hardened, rules)))
  {
    ClassifiedCollects(site, hardened, rules);
    var kinds := KindsIn(Entries(site, hardened, rules));
    forall i | 0 <= i < |rules| ensures Has(site, rules[i], kinds[i]) {
      KindExactly(site, hardened, rules[i], kinds[i]);
    }
  }

  lemma ApprovedWhenClassified(site: Site, hardened: bool, rules: seq<Rule>) returns (kinds: seq<Kind>)
    requires Classified(site, hardened, rules).Ok?
    ensures var f := Classified(site, hardened, rules).value; ApprovedAs(site, hardened, rules, kinds, f.dns, f.tang)
  {
    var f, entries := Classified(site, hardened, rules).value, Entries(site, hardened, rules);
    kinds := KindsIn(entries);
    KindsAssigned(site, hardened, rules);
    CompleteCounts(site, hardened, f);
    forall kind ensures multiset(kinds)[kind] == CountIn(f, kind) {
      KindsCounted(entries, |rules|, kind);
      assert kinds[..|rules|] == kinds;
    }
  }

  lemma ClassifiedWhenApproved(site: Site, hardened: bool, rules: seq<Rule>, kinds: seq<Kind>, dns: seq<Text>, tang: seq<Text>)
    requires ApprovedAs(site, hardened, rules, kinds, dns, tang)
    ensures Classified(site, hardened, rules).Ok?
  {
    var entries := Entries(site, hardened, rules);
    forall i | 0 <= i < |rules| ensures entries[i].0 == kinds[i] && !kinds[i].Refused? {
      assert kinds[i] in multiset(kinds);
      KindExactly(site, hardened, rules[i], kinds[i]);
    }
    assert KindsIn(entries) == kinds;
    LoopCollects(entries, |rules|);
    var f := FoundIn(entries, |rules|).value;
    forall kind ensures multiset(kinds)[kind] == CountIn(f, kind) {
      KindsCounted(entries, |rules|, kind);
      assert kinds[..|rules|] == kinds;
    }
    CountsComplete(site, hardened, f, dns, tang);
  }

  /** A phase is accepted exactly when its rules are the approved ones, each as often as it must occur. */
  lemma PhaseExactly(site: Site, hardened: bool, rules: seq<Rule>)
    ensures Classified(site, hardened, rules).Ok? <==> Approved(site, hardened, rules)
  {
    if Classified(site, hardened, rules).Ok? {
      var f := Classified(site, hardened, rules).value;
      var kinds := ApprovedWhenClassified(site, hardened, rules);
      assert ApprovedAs(site, hardened, rules, kinds, f.dns, f.tang);
    }
    if Approved(site, hardened, rules) {
      var kinds, dns, tang :| ApprovedAs(site, hardened, rules, kinds, dns, tang);
      ClassifiedWhenApproved(site, hardened, rules, kinds, dns, tang);
    }
  }

  // -------------------------------------------------------------- base policies

  /** The same fields but for the name, each shown alike. */
  ghost predicate SameRule(rule: Rule, rule': Rule) {
    && (forall key :: key != Name ==> (key in rule <==> key in rule'))
    && forall key :: key in rule && key != Name ==> Str(rule[key]) == Str(rule'[key])
  }

  predicate ForPort(rule: Rule, literal: string, n: int) { TargetPort in rule && IsPort(rule[TargetPort], literal, n) }

  predicate ForSsh(rule: Rule) { ForPort(rule, "22", 22) }

  predicate ForTang(rule: Rule) { ForPort(rule, "80", 80) }

  /** How many rules are the same as this one, not counting the skipped ones. */
  ghost function Repeats(rules: seq<Rule>, skip: Rule -> bool, rule: Rule): nat {
    if rules == [] then 0 else
      var last := rules[|rules| - 1];
      Repeats(rules[..|rules| - 1], skip, rule) + if SameRule(last, rule) && !skip(last) then 1 else 0
  }

  /** The bootstrap rules that are not for port 22 and the hardened rules that are not for port 80: the same, as often. */
  ghost predicate SamePolicy(bootstrap: seq<Rule>, hardened: seq<Rule>) {
    forall rule :: Repeats(bootstrap, ForSsh, rule) == Repeats(hardened, ForTang, rule)
  }

  lemma SameWhenSigned(rule: Rule, rule': Rule)
    requires SignatureOf(rule) == SignatureOf(rule')
    ensures SameRule(rule, rule')
  {
    var s, t := SignatureOf(rule), SignatureOf(rule');
    forall key | key != Name ensures key in rule <==> key in rule' {
      assert key in s <==> key in rule;
      assert key in t <==> key in rule';
    }
    forall key | key in rule && key != Name ensures Str(rule[key]) == Str(rule'[key]) {
      assert key in rule <==> key in rule';
      assert s[key] == Str(rule[key]) && t[key] == Str(rule'[key]);
    }
  }

  lemma SignaturesAgree(rule: Rule, rule': Rule)
    ensures SignatureOf(rule) == SignatureOf(rule') <==> SameRule(rule, rule')
  {
    if SignatureOf(rule) == SignatureOf(rule') { SameWhenSigned(rule, rule'); }
  }

  lemma PortTexts(rule: Rule)
    requires TargetPort in rule && Specific(rule[TargetPort])
    ensures KeepsBase(SignatureOf(rule)) <==> !ForSsh(rule)
    ensures ForTang(rule) ==> !ForSsh(rule) && !IsPort(rule[TargetPort], "1905", 1905)
    ensures ForTang(rule) ==> !IsPort(rule[TargetPort], "2222", 2222)
    ensures Says(rule[TargetPort], "32768-65535") ==> !ForTang(rule) && !ForSsh(rule)
  {
    PortsApart();
    PortsShown(rule[TargetPort]);
    EphemeralShown(rule[TargetPort]);
    assert SignatureOf(rule)[TargetPort] == Str(rule[TargetPort]);
    assert EPHEMERAL[0] == 51 && S("22")[0] == 50 && S("80")[0] == 56;
  }

  lemma TargetPorts(site: Site, rule: Rule, kind: Kind)
    requires Has(site, rule, kind)
    ensures TargetPort in rule <==> !kind.Icmp?
    ensures TargetPort in rule ==>
            && Specific(rule[TargetPort])
            && match kind
               case Management(_) =>
                 ForSsh(rule) || IsPort(rule[TargetPort], "1905", 1905) || IsPort(rule[TargetPort], "2222", 2222)
               case Tang(_) => ForTang(rule)
               case _ => Says(rule[TargetPort], "32768-65535")
  {
  }

  /** The Tang rules are those for port 80, and the ones that hardening drops are those for port 22. */
  lemma PortOfKind(site: Site, rule: Rule, kind: Kind)
    requires Has(site, rule, kind)
    ensures kind.Tang? <==> ForTang(rule)
    ensures KeepsBase(SignatureOf(rule)) <==> !ForSsh(rule)
  {
    TargetPorts(site, rule, kind);
    if TargetPort in rule { PortTexts(rule); }
  }

  lemma BaseOfKind(site: Site, hardened: bool, rule: Rule)
    requires !KindOf(site, hardened, rule).Refused?
    ensures BaseOf(EntryOf(site, hardened, rule)) == if ForTang(rule) then [] else [SignatureOf(rule)]
    ensures KeepsBase(SignatureOf(rule)) <==> !ForSsh(rule)
    ensures !hardened ==> !ForTang(rule)
  {
    KindExactly(site, hardened, rule, KindOf(site, hardened, rule));
    PortOfKind(site, rule, KindOf(site, hardened, rule));
  }

  lemma {:induction false} CollectedRepeats(entries: seq<Entry>, rules: seq<Rule>, skip: Rule -> bool, rule: Rule)
    requires |entries| == |rules|
    requires forall i :: 0 <= i < |rules| ==> BaseOf(entries[i]) == if skip(rules[i]) then [] else [SignatureOf(rules[i])]
    ensures multiset(Collect(BaseOf, entries))[SignatureOf(rule)] == Repeats(rules, skip, rule)
  {
    if rules != [] {
      var n := |rules| - 1;
      CollectedRepeats(entries[..n], rules[..n], skip, rule);
      SignaturesAgree(rules[n], rule);
      assert Collect(BaseOf, entries) == Collect(BaseOf, entries[..n]) + BaseOf(entries[n]);
    }
  }

  /** Dropping the rules for port 22 drops their signatures. */
  lemma {:induction false} KeptRepeats(rules: seq<Rule>, rule: Rule)
    requires forall i :: 0 <= i < |rules| ==> (KeepsBase(SignatureOf(rules[i])) <==> !ForSsh(rules[i])) && !ForTang(rules[i])
    ensures (if KeepsBase(SignatureOf(rule)) then Repeats(rules, ForTang, rule) else 0) == Repeats(rules, ForSsh, rule)
  {
    if rules != [] {
      var n := |rules| - 1;
      KeptRepeats(rules[..n], rule);
      SignaturesAgree(rules[n], rule);
      assert (KeepsBase(SignatureOf(rules[n])) <==> !ForSsh(rules[n])) && !ForTang(rules[n]);
    }
  }

  lemma BaseRepeats(site: Site, hardened: bool, rules: seq<Rule>, rule: Rule)
    requires forall i :: 0 <= i < |rules| ==> !KindOf(site, hardened, rules[i]).Refused?
    ensures var count := multiset(Collect(BaseOf, Entries(site, hardened, rules)))[SignatureOf(rule)];
            && count == Repeats(rules, ForTang, rule)
            && (!hardened ==> (if KeepsBase(SignatureOf(rule)) then count else 0) == Repeats(rules, ForSsh, rule))
  {
    var entries := Entries(site, hardened, rules);
    forall i | 0 <= i < |rules|
      ensures BaseOf(entries[i]) == if ForTang(rules[i]) then [] else [SignatureOf(rules[i])]
      ensures KeepsBase(SignatureOf(rules[i])) <==> !ForSsh(rules[i])
      ensures !hardened ==> !ForTang(rules[i])
    {
      assert entries[i] == EntryOf(site, hardened, rules[i]);
      BaseOfKind(site, hardened, rules[i]);
    }
    CollectedRepeats(entries, rules, ForTang, rule);
    if !hardened { KeptRepeats(rules, rule); }
  }

  lemma ClassifiedRepeats(site: Site, hardened: bool, rules: seq<Rule>, rule: Rule)
    requires Classified(site, hardened, rules).Ok?
    ensures var count := multiset(Classified(site, hardened, rules).value.base)[SignatureOf(rule)];
            && count == Repeats(rules, ForTang, rule)
            && (!hardened ==> (if KeepsBase(SignatureOf(rule)) then count else 0) == Repeats(rules, ForSsh, rule))
  {
    ClassifiedCollects(site, hardened, rules);
    BaseRepeats(site, hardened, rules, rule);
  }

  lemma SomeRule(site: Site, bootstrap: seq<Rule>, hardened: seq<Rule>, signature: Signature) returns (rule: Rule)
    requires Classified(site, false, bootstrap).Ok? && Classified(site, true, hardened).Ok?
    requires signature in Classified(site, false, bootstrap).value.base || signature in Classified(site, true, hardened).value.base
    ensures SignatureOf(rule) == signature
  {
    if signature in Classified(site, true, hardened).value.base {
      var i := InBase(site, true, hardened, signature);
      rule := hardened[i];
    } else {
      var i := InBase(site, false, bootstrap, signature);
      rule := bootstrap[i];
    }
  }

  ghost predicate CountsRules(base: multiset<Signature>, rules: seq<Rule>, skip: Rule -> bool) {
    forall rule :: base[SignatureOf(rule)] == Repeats(rules, skip, rule)
  }

  lemma CountsAgree(s: multiset<Signature>, t: multiset<Signature>, bootstrap: seq<Rule>, hardened: seq<Rule>)
    requires CountsRules(s, bootstrap, ForSsh) && CountsRules(t, hardened, ForTang)
    requires forall signature :: s[signature] > 0 || t[signature] > 0 ==> exists rule :: SignatureOf(rule) == signature
    ensures s == t <==> SamePolicy(bootstrap, hardened)
  {
    if SamePolicy(bootstrap, hardened) {
      forall signature ensures s[signature] == t[signature] {
        if s[signature] > 0 || t[signature] > 0 {
          var rule :| SignatureOf(rule) == signature;
          assert Repeats(bootstrap, ForSsh, rule) == Repeats(hardened, ForTang, rule);
        }
      }
    } else {
      var rule :| Repeats(bootstrap, ForSsh, rule) != Repeats(hardened, ForTang, rule);
      assert s[SignatureOf(rule)] != t[SignatureOf(rule)];
    }
  }

  lemma PhasesCount(site: Site, bootstrap: seq<Rule>, hardened: seq<Rule>)
    requires Classified(site, false, bootstrap).Ok? && Classified(site, true, hardened).Ok?
    ensures var b, h := Classified(site, false, bootstrap).value, Classified(site, true, hardened).value;
            && CountsRules(multiset(Filter(KeepsBase, b.base)), bootstrap, ForSsh)
            && CountsRules(multiset(h.base), hardened, ForTang)
  {
    var b, h := Classified(site, false, bootstrap).value, Classified(site, true, hardened).value;
    forall rule ensures multiset(Filter(KeepsBase, b.base))[SignatureOf(rule)] == Repeats(bootstrap, ForSsh, rule)
                        && multiset(h.base)[SignatureOf(rule)] == Repeats(hardened, ForTang, rule)
    {
      ClassifiedRepeats(site, false, bootstrap, rule);
      ClassifiedRepeats(site, true, hardened, rule);
    }
  }

  /** The comparison of the base signatures compares the policies. */
  lemma PoliciesCompared(site: Site, bootstrap: seq<Rule>, hardened: seq<Rule>)
    requires Classified(site, false, bootstrap).Ok? && Classified(site, true, hardened).Ok?
    ensures var b, h := Classified(site, false, bootstrap).value, Classified(site, true, hardened).value;
            multiset(Filter(KeepsBase, b.base)) == multiset(h.base) <==> SamePolicy(bootstrap, hardened)
  {
    var b, h := Classified(site, false, bootstrap).value, Classified(site, true, hardened).value;
    var s, t := multiset(Filter(KeepsBase, b.base)), multiset(h.base);
    PhasesCount(site, bootstrap, hardened);
    forall signature | s[signature] > 0 || t[signature] > 0 ensures exists rule :: SignatureOf(rule) == signature {
      assert s[signature] <= multiset(b.base)[signature];
      var rule := SomeRule(site, bootstrap, hardened, signature);
    }
    CountsAgree(s, t, bootstrap, hardened);
  }

  // ------------------------------------------------------------------- plans

  /** One output rule: it accepts, and has a name that is not blank. */
  predicate OutputIs(rules: seq<Rule>) {
    && |rules| == 1 && rules[0].Keys == {Name, Action} && rules[0][Action] == TextValue(S("accept"))
    && rules[0][Name].TextValue? && exists i :: 0 <= i < |rules[0][Name].t| && !Whitespace(rules[0][Name].t[i])
  }

  /** What surrounds the input rules. */
  ghost predicate Surroundings(site: Site, plan: Plan) {
    && site.isAddress(site.target) && IsSingleHost(site, site.controller) && site.controller != site.target + S("/32")
    && plan.enabled && plan.port == S("main") && plan.filterIpv6 && plan.allowlistHos
    && OutputIs(plan.bootstrap.output) && OutputIs(plan.hardened.output)
  }

  lemma SurroundingsExactly(site: Site, plan: Plan)
    ensures ValidSite(site, plan) <==> Surroundings(site, plan)
  {
    HostsExactly(site, TextValue(site.controller));
  }

  lemma ComparedExactly(leq: (Signature, Signature) -> bool, site: Site, bootstrap: seq<Rule>, hardened: seq<Rule>)
    requires TotalOrder(leq) && Classified(site, false, bootstrap).Ok? && Classified(site, true, hardened).Ok?
    ensures Compared(leq, Classified(site, false, bootstrap), Classified(site, true, hardened), |bootstrap|, |hardened|)
            == if SamePolicy(bootstrap, hardened) then Ok(Report(8, 10, 3)) else Raised
  {
    var b, h := Classified(site, false, bootstrap), Classified(site, true, hardened);
    CountsNeverFire(site, false, bootstrap);
    CountsNeverFire(site, true, hardened);
    SortedComparison(leq, KeepsBase, b.value.base, h.value.base);
    PoliciesCompared(site, bootstrap, hardened);
  }

  /** A plan is accepted exactly when both phases hold the approved rules and hardening keeps the policy otherwise. */
  lemma PlanExactly(leq: (Signature, Signature) -> bool, site: Site, plan: Plan)
    requires TotalOrder(leq)
    ensures Validate(leq, site, plan)
            == if Surroundings(site, plan)
                  && Approved(site, false, plan.bootstrap.input) && Approved(site, true, plan.hardened.input)
                  && SamePolicy(plan.bootstrap.input, plan.hardened.input)
               then Ok(Report(8, 10, 3)) else Raised
  {
    SurroundingsExactly(site, plan);
    PhaseExactly(site, false, plan.bootstrap.input);
    PhaseExactly(site, true, plan.hardened.input);
    if Approved(site, false, plan.bootstrap.input) && Approved(site, true, plan.hardened.input) {
      ComparedExactly(leq, site, plan.bootstrap.input, plan.hardened.input);
    }
  }
}
