/** What an accepted firewall plan means for packets, and what the validator does not look at. */

module FirewallProofs {
  import opened Outcomes
  import opened Text
  import opened Lists
  import opened Firewall

  // ------------------------------------------------------- what the loop collects

  function PortsOf(e: Entry): seq<int> { if e.0.Management? then [e.0.port] else [] }
  function DnsOf(e: Entry): seq<Text> { if e.0.Dns? then [e.0.source] else [] }
  function TangOf(e: Entry): seq<Text> { if e.0.Tang? then [e.0.source] else [] }
  function BaseOf(e: Entry): seq<Signature> { if e.0.Tang? || e.0.Refused? then [] else [e.1] }

  /** The rules that are only counted. */
  function CountedAs(kind: Kind): Entry -> seq<bool> { (e: Entry) => if e.0 == kind then [true] else [] }

  predicate IsCollected(f: Found, entries: seq<Entry>) {
    && f.ports == Collect(PortsOf, entries) && f.dns == Collect(DnsOf, entries)
    && f.tang == Collect(TangOf, entries) && f.base == Collect(BaseOf, entries)
    && f.tcp == |Collect(CountedAs(TcpResponse), entries)|
    && f.ntp == |Collect(CountedAs(Ntp), entries)| && f.icmp == |Collect(CountedAs(Icmp), entries)|
  }

  lemma OneMoreCollected(f: Found, entries: seq<Entry>, e: Entry)
    requires IsCollected(f, entries) && !e.0.Refused?
    ensures IsCollected(With(f, e), entries + [e])
  {
    assert (entries + [e])[..|entries|] == entries;
  }

  lemma {:induction false} NextFound(entries: seq<Entry>, n: nat)
    requires 0 < n <= |entries|
    ensures FoundIn(entries, n).Some? <==> FoundIn(entries, n - 1).Some? && !entries[n - 1].0.Refused?
    ensures FoundIn(entries, n).Some? ==> FoundIn(entries, n).value == With(FoundIn(entries, n - 1).value, entries[n - 1])
  {
  }

  /** The loop's lists are comprehensions, and it refuses exactly when some rule is refused. */
  lemma {:induction false} LoopCollects(entries: seq<Entry>, n: nat)
    requires n <= |entries|
    ensures FoundIn(entries, n).None? <==> exists i :: 0 <= i < n && entries[i].0.Refused?
    ensures FoundIn(entries, n).Some? ==> IsCollected(FoundIn(entries, n).value, entries[..n])
  {
    if n == 0 {
      assert entries[..n] == [];
    } else {
      LoopCollects(entries, n - 1);
      NextFound(entries, n);
      if FoundIn(entries, n).Some? {
        OneMoreCollected(FoundIn(entries, n - 1).value, entries[..n - 1], entries[n - 1]);
        assert entries[..n] == entries[..n - 1] + [entries[n - 1]];
      }
    }
  }

  lemma {:induction false} ClassifiedCollects(site: Site, hardened: bool, rules: seq<Rule>)
    requires Classified(site, hardened, rules).Ok?
    ensures IsCollected(Classified(site, hardened, rules).value, Entries(site, hardened, rules))
    ensures forall i :: 0 <= i < |rules| ==> !KindOf(site, hardened, rules[i]).Refused?
  {
    var entries := Entries(site, hardened, rules);
    LoopCollects(entries, |rules|);
    assert entries[..|rules|] == entries;
    forall i | 0 <= i < |rules| ensures !KindOf(site, hardened, rules[i]).Refused? {
      assert entries[i] == EntryOf(site, hardened, rules[i]);
    }
  }

  // ------------------------------------------------------------- counting the rules

  lemma {:induction false} FoundCounts(entries: seq<Entry>, n: nat, f: Found)
    requires n <= |entries| && FoundIn(entries, n) == Some(f)
    ensures n == |f.ports| + f.tcp + |f.dns| + f.ntp + f.icmp + |f.tang|
  {
    if n > 0 { FoundCounts(entries, n - 1, FoundIn(entries, n - 1).value); }
  }

  /** The checks for eight and ten rules can never fail: the classification has already counted them. */
  lemma CountsNeverFire(site: Site, hardened: bool, rules: seq<Rule>)
    requires Classified(site, hardened, rules).Ok?
    ensures |rules| == if hardened then 10 else 8
  {
    var f := Classified(site, hardened, rules).value;
    FoundCounts(Entries(site, hardened, rules), |rules|, f);
    assert |f.ports| == |multiset(f.ports)| == |multiset(SortedBy(IntLeq, f.ports))| == |SortedBy(IntLeq, f.ports)|;
  }

  // ---------------------------------------------------------------- order and names

  lemma EntriesPermuted(site: Site, hardened: bool, rules: seq<Rule>, rules': seq<Rule>)
    requires multiset(rules) == multiset(rules')
    ensures multiset(Entries(site, hardened, rules)) == multiset(Entries(site, hardened, rules'))
  {
    MapPermuted(rule => EntryOf(site, hardened, rule), rules, Entries(site, hardened, rules),
                rules', Entries(site, hardened, rules'));
  }

  /** Two collections with the same entries, in any order. */
  predicate Alike(f: Found, g: Found) {
    && multiset(f.ports) == multiset(g.ports) && f.tcp == g.tcp && multiset(f.dns) == multiset(g.dns)
    && f.ntp == g.ntp && f.icmp == g.icmp && multiset(f.tang) == multiset(g.tang) && multiset(f.base) == multiset(g.base)
  }

  lemma CollectedAlike(f: Found, g: Found, s: seq<Entry>, t: seq<Entry>)
    requires IsCollected(f, s) && IsCollected(g, t) && multiset(s) == multiset(t)
    ensures Alike(f, g)
  {
    CollectPermuted(PortsOf, s, t);
    CollectPermuted(DnsOf, s, t);
    CollectPermuted(TangOf, s, t);
    CollectPermuted(BaseOf, s, t);
    CountsPermuted(TcpResponse, s, t);
    CountsPermuted(Ntp, s, t);
    CountsPermuted(Icmp, s, t);
  }

  lemma CountsPermuted(kind: Kind, s: seq<Entry>, t: seq<Entry>)
    requires multiset(s) == multiset(t)
    ensures |Collect(CountedAs(kind), s)| == |Collect(CountedAs(kind), t)|
  {
    CollectPermuted(CountedAs(kind), s, t);
    var a, b := Collect(CountedAs(kind), s), Collect(CountedAs(kind), t);
    assert |a| == |multiset(a)| && |b| == |multiset(b)|;
  }

  lemma IntLeqIsTotal()
    ensures TotalOrder(IntLeq)
  {
  }

  lemma CompleteAlike(site: Site, hardened: bool, f: Found, g: Found)
    requires Alike(f, g)
    ensures Complete(site, hardened, f) <==> Complete(site, hardened, g)
  {
    IntLeqIsTotal();
    SortedAlike(IntLeq, f.ports, g.ports);
    DistinctCounts(f.dns);
    DistinctCounts(g.dns);
    DistinctCounts(f.tang);
    DistinctCounts(g.tang);
    assert |f.dns| == |multiset(f.dns)| == |multiset(g.dns)| == |g.dns|;
    assert |f.tang| == |multiset(f.tang)| == |multiset(g.tang)| == |g.tang|;
    assert forall x :: x in f.tang <==> x in multiset(f.tang);
    assert forall x :: x in g.tang <==> x in multiset(g.tang);
  }

  lemma ClassifiedPermuted(site: Site, hardened: bool, rules: seq<Rule>, rules': seq<Rule>)
    requires multiset(rules) == multiset(rules')
    ensures var r, r' := Classified(site, hardened, rules), Classified(site, hardened, rules');
            |rules| == |rules'| && r.Ok? == r'.Ok? && (r.Ok? ==> Alike(r.value, r'.value))
  {
    var s, t := Entries(site, hardened, rules), Entries(site, hardened, rules');
    assert |rules| == |multiset(rules)| == |multiset(rules')| == |rules'|;
    EntriesPermuted(site, hardened, rules, rules');
    LoopCollects(s, |s|);
    LoopCollects(t, |t|);
    SameRefusals(s, t);
    assert s[..|s|] == s && t[..|t|] == t;
    if FoundIn(s, |s|).Some? {
      CollectedAlike(FoundIn(s, |s|).value, FoundIn(t, |t|).value, s, t);
      CompleteAlike(site, hardened, FoundIn(s, |s|).value, FoundIn(t, |t|).value);
    }
  }

  lemma SameRefusals(s: seq<Entry>, t: seq<Entry>)
    requires multiset(s) == multiset(t)
    ensures (exists i :: 0 <= i < |s| && s[i].0.Refused?) <==> (exists i :: 0 <= i < |t| && t[i].0.Refused?)
  {
    if i :| 0 <= i < |s| && s[i].0.Refused? { assert s[i] in multiset(t); }
    if i :| 0 <= i < |t| && t[i].0.Refused? { assert t[i] in multiset(s); }
  }
}
