/** Scan domains, their coverage, and when coverage can prove that a finding is gone. */
module Coverage {
  import opened Common
  import opened Vocabulary

  datatype ScanDomain =
    | FirewallTechnology
    | IptablesInputPolicy
    | FirewallInboundPolicy
    | NetworkSocketInspection
    | NetworkReachability
    | HostFirewallRuleCollection
    | HostFirewallRuleApplicability
  {
    function Value(): string {
      match this
      case FirewallTechnology => "firewall_technology"
      case IptablesInputPolicy => "iptables_input_policy"
      case FirewallInboundPolicy => "firewall_inbound_policy"
      case NetworkSocketInspection => "network_socket_inspection"
      case NetworkReachability => "network_reachability"
      case HostFirewallRuleCollection => "host_firewall_rule_collection"
      case HostFirewallRuleApplicability => "host_firewall_rule_applicability"
    }
  }

  const LEGACY_ASSESSMENT_DOMAINS: seq<ScanDomain> := [FirewallTechnology, IptablesInputPolicy, NetworkSocketInspection]

  const ALL_DOMAINS: seq<ScanDomain> :=
    [FirewallTechnology, IptablesInputPolicy, FirewallInboundPolicy, NetworkSocketInspection, NetworkReachability,
     HostFirewallRuleCollection, HostFirewallRuleApplicability]

  /** A JSON object of domain names (each at most once) and state names, in its own order. */
  type CoverageObject = seq<(string, string)>

  function ParseDomainFrom(name: string, known: seq<ScanDomain>): Option<ScanDomain> {
    if known == [] then None
    else if known[0].Value() == name then Some(known[0])
    else ParseDomainFrom(name, known[1..])
  }

  function ParseDomain(name: string): Option<ScanDomain> {
    ParseDomainFrom(name, ALL_DOMAINS)
  }

  function StateName(s: CoverageState): string {
    match s
    case CoverageComplete => "COMPLETE"
    case CoverageIncomplete => "INCOMPLETE"
    case CoverageUnknown => "UNKNOWN"
  }

  /** An unrecognised state counts as unknown. */
  function ParseState(name: string): CoverageState {
    if name == "COMPLETE" then CoverageComplete
    else if name == "INCOMPLETE" then CoverageIncomplete
    else CoverageUnknown
  }

  /** The domains a source needs; no entry means absence can never be proved. */
  function Requirements(source: string): set<ScanDomain> {
    if source == "network" then {NetworkSocketInspection}
    else if source == "firewall_technology" then {FirewallTechnology}
    else if source == "firewall" then {FirewallTechnology, IptablesInputPolicy}
    else if source == "firewall_inbound_policy" then {FirewallInboundPolicy}
    else {}
  }

  function ParseDomains(names: seq<string>): Option<seq<ScanDomain>> {
    if names == [] then Some([])
    else
      var first := ParseDomain(names[0]);
      var rest := ParseDomains(names[1..]);
      if first.None? || rest.None? then None else Some([first.value] + rest.value)
  }

  predicate HasDuplicates(domains: seq<ScanDomain>) {
    domains != [] && (domains[0] in domains[1..] || HasDuplicates(domains[1..]))
  }

  /** Absent domains mean the legacy set; an empty, unknown or repeated list is rejected. */
  function NormalizeDomains(domains: Option<seq<string>>): Option<seq<ScanDomain>> {
    match domains
    case None => Some(LEGACY_ASSESSMENT_DOMAINS)
    case Some(names) =>
      if names == [] then None
      else
        var parsed := ParseDomains(names);
        if parsed.None? || HasDuplicates(parsed.value) then None else parsed
  }

  function Lookup(coverage: CoverageObject, name: string): Option<string> {
    if coverage == [] then None
    else
      var last := coverage[|coverage| - 1];
      if last.0 == name then Some(last.1) else Lookup(coverage[..|coverage| - 1], name)
  }

  /** The state recorded for a domain; anything missing or unrecognised is unknown. */
  function StateOf(coverage: Option<CoverageObject>, d: ScanDomain): CoverageState {
    if coverage.None? then CoverageUnknown
    else
      var found := Lookup(coverage.value, d.Value());
      if found.None? then CoverageUnknown else ParseState(found.value)
  }

  /** One state per applicable domain, in domain order. */
  function Normalized(coverage: Option<CoverageObject>, domains: seq<ScanDomain>): CoverageObject {
    if domains == [] then []
    else [(domains[0].Value(), StateName(StateOf(coverage, domains[0])))] + Normalized(coverage, domains[1..])
  }

  method NormalizeCoverage(coverage: Option<CoverageObject>, domains: Option<seq<string>>)
    returns (r: Option<CoverageObject>)
    ensures r.None? <==> NormalizeDomains(domains).None?
    ensures r.Some? ==> r.value == Normalized(coverage, NormalizeDomains(domains).value)
  {
    var applicable := NormalizeDomains(domains);
    if applicable.None? { return None; }
    var normalized: CoverageObject := [];
    var left := applicable.value;
    while left != []
      invariant normalized + Normalized(coverage, left) == Normalized(coverage, applicable.value)
      decreases |left|
    {
      normalized := normalized + [(left[0].Value(), StateName(StateOf(coverage, left[0])))];
      left := left[1..];
    }
    r := Some(normalized);
  }

  /** Whether coverage can prove the absence of findings of a (case-folded) source. */
  predicate CompleteForSource(source: string, coverage: Option<CoverageObject>, domains: Option<seq<string>>) {
    var applicable := NormalizeDomains(domains);
    && Requirements(source) != {}
    && applicable.Some?
    && forall d :: d in Requirements(source) ==> d in applicable.value && StateOf(coverage, d) == CoverageComplete
  }

  function Names(coverage: CoverageObject): seq<string> {
    if coverage == [] then [] else [coverage[0].0] + Names(coverage[1..])
  }

  /** The lifecycle reading of a stored coverage column; None is unreadable JSON. */
  predicate StoredComplete(source: string, stored: Option<CoverageObject>) {
    CompleteForSource(source, stored, if stored.Some? then Some(Names(stored.value)) else None)
  }

  // ----- the stored, normalised coverage decides like the report's own

  lemma DomainValuesAreInjective()
    ensures forall a: ScanDomain, b: ScanDomain :: a.Value() == b.Value() ==> a == b
  {
    forall a: ScanDomain, b: ScanDomain | a.Value() == b.Value() ensures a == b {
      assert |a.Value()| == |b.Value()| && a.Value()[0] == b.Value()[0] && a.Value()[9] == b.Value()[9];
    }
  }

  lemma {:induction false} ParseDomainInverts(d: ScanDomain, known: seq<ScanDomain>)
    requires d in known
    ensures ParseDomainFrom(d.Value(), known) == Some(d)
  {
    DomainValuesAreInjective();
    hide ScanDomain.Value;
    if known[0] != d { ParseDomainInverts(d, known[1..]); }
  }

  lemma EveryDomainIsListed(d: ScanDomain)
    ensures d in ALL_DOMAINS
  {
    var i := match d
      case FirewallTechnology => 0
      case IptablesInputPolicy => 1
      case FirewallInboundPolicy => 2
      case NetworkSocketInspection => 3
      case NetworkReachability => 4
      case HostFirewallRuleCollection => 5
      case HostFirewallRuleApplicability => 6;
    assert ALL_DOMAINS[i] == d;
  }

  lemma {:induction false} NormalizedNames(coverage: Option<CoverageObject>, domains: seq<ScanDomain>)
    ensures ParseDomains(Names(Normalized(coverage, domains))) == Some(domains)
    ensures |Names(Normalized(coverage, domains))| == |domains|
  {
    if domains != [] {
      NormalizedNames(coverage, domains[1..]);
      EveryDomainIsListed(domains[0]);
      ParseDomainInverts(domains[0], ALL_DOMAINS);
      assert ParseDomain(domains[0].Value()) == Some(domains[0]);
      hide ParseDomainFrom, ParseDomain, ScanDomain.Value, StateName, StateOf;
      var rest := Normalized(coverage, domains[1..]);
      assert Normalized(coverage, domains)[1..] == rest;
      assert Names(Normalized(coverage, domains)) == [domains[0].Value()] + Names(rest);
      assert Names(Normalized(coverage, domains))[1..] == Names(rest);
      assert [domains[0]] + domains[1..] == domains;
    }
  }

  lemma {:induction false} LookupAt(coverage: CoverageObject, name: string, i: nat)
    requires i < |coverage| && coverage[i].0 == name
    requires forall j :: i < j < |coverage| ==> coverage[j].0 != name
    ensures Lookup(coverage, name) == Some(coverage[i].1)
  {
    if i < |coverage| - 1 { LookupAt(coverage[..|coverage| - 1], name, i); }
  }

  lemma {:induction false} NoDuplicatesAt(domains: seq<ScanDomain>, i: nat, j: nat)
    requires !HasDuplicates(domains) && i < j < |domains|
    ensures domains[i] != domains[j]
  {
    if i == 0 {
      assert domains[j] == domains[1..][j - 1];
    } else {
      NoDuplicatesAt(domains[1..], i - 1, j - 1);
    }
  }

  lemma {:induction false} NormalizedAt(coverage: Option<CoverageObject>, domains: seq<ScanDomain>)
    ensures |Normalized(coverage, domains)| == |domains|
    ensures forall i :: 0 <= i < |domains| ==>
      Normalized(coverage, domains)[i] == (domains[i].Value(), StateName(StateOf(coverage, domains[i])))
  {
    hide StateOf, StateName, ScanDomain.Value;
    if domains != [] { NormalizedAt(coverage, domains[1..]); }
  }

  lemma NormalizedKeepsStates(coverage: Option<CoverageObject>, domains: seq<ScanDomain>, d: ScanDomain)
    requires !HasDuplicates(domains) && d in domains
    ensures StateOf(Some(Normalized(coverage, domains)), d) == StateOf(coverage, d)
  {
    var i :| 0 <= i < |domains| && domains[i] == d;
    NormalizedAt(coverage, domains);
    DomainValuesAreInjective();
    forall j | i < j < |domains| ensures domains[j] != d { NoDuplicatesAt(domains, i, j); }
    assert ParseState(StateName(StateOf(coverage, d))) == StateOf(coverage, d);
    hide StateName, ParseState, ScanDomain.Value, Normalized, HasDuplicates;
    LookupAt(Normalized(coverage, domains), d.Value(), i);
  }

  lemma LegacyDomainsAreDistinct()
    ensures !HasDuplicates(LEGACY_ASSESSMENT_DOMAINS)
  {
    assert LEGACY_ASSESSMENT_DOMAINS[1..] == [IptablesInputPolicy, NetworkSocketInspection];
    assert LEGACY_ASSESSMENT_DOMAINS[1..][1..] == [NetworkSocketInspection];
  }

  /** Storing the normalised coverage loses nothing the absence proof depends on. */
  lemma NormalizedDecidesSame(source: string, coverage: Option<CoverageObject>, domains: Option<seq<string>>)
    requires NormalizeDomains(domains).Some?
    ensures StoredComplete(source, Some(Normalized(coverage, NormalizeDomains(domains).value)))
      <==> CompleteForSource(source, coverage, domains)
  {
    var applicable := NormalizeDomains(domains).value;
    LegacyDomainsAreDistinct();
    assert !HasDuplicates(applicable);
    if domains.Some? { ParsedLength(domains.value); }
    assert applicable != [];
    NormalizedNames(coverage, applicable);
    var names := Names(Normalized(coverage, applicable));
    assert NormalizeDomains(Some(names)) == Some(applicable);
    hide StateOf, HasDuplicates, ParseDomains, Normalized, Names, NormalizeDomains;
    forall d | d in applicable
      ensures StateOf(Some(Normalized(coverage, applicable)), d) == StateOf(coverage, d)
    {
      NormalizedKeepsStates(coverage, applicable, d);
    }
  }

  lemma {:induction false} ParsedLength(names: seq<string>)
    ensures ParseDomains(names).Some? ==> |ParseDomains(names).value| == |names|
  {
    if names != [] { ParsedLength(names[1..]); }
  }

  // ----- what a stored coverage column proves, whatever order its entries are in

  ghost predicate DistinctNames(c: CoverageObject) {
    forall i, j :: 0 <= i < j < |c| ==> c[i].0 != c[j].0
  }

  lemma {:induction false} NamesAt(c: CoverageObject)
    ensures |Names(c)| == |c| && forall i :: 0 <= i < |c| ==> Names(c)[i] == c[i].0
  {
    if c != [] { NamesAt(c[1..]); }
  }

  lemma {:induction false} LookupMeans(c: CoverageObject, name: string)
    ensures Lookup(c, name).Some? ==> (name, Lookup(c, name).value) in c
    ensures Lookup(c, name).None? ==> forall p :: p in c ==> p.0 != name
  {
    if c != [] {
      assert c == c[..|c| - 1] + [c[|c| - 1]];
      LookupMeans(c[..|c| - 1], name);
    }
  }

  lemma {:induction false} ParsedValue(name: string, known: seq<ScanDomain>)
    ensures ParseDomainFrom(name, known).Some? ==> ParseDomainFrom(name, known).value.Value() == name
  {
    hide ScanDomain.Value;
    if known != [] { ParsedValue(name, known[1..]); }
  }

  lemma ParsedName(name: string)
    ensures ParseDomain(name).Some? ==> ParseDomain(name).value.Value() == name
  {
    ParsedValue(name, ALL_DOMAINS);
  }

  lemma {:induction false} ParsedIff(names: seq<string>)
    ensures ParseDomains(names).Some? <==> forall n :: n in names ==> ParseDomain(n).Some?
  {
    hide ParseDomain;
    if names != [] {
      ParsedIff(names[1..]);
      assert names == [names[0]] + names[1..];
    }
  }

  lemma {:induction false} ParsedAt(names: seq<string>)
    requires ParseDomains(names).Some?
    ensures |ParseDomains(names).value| == |names|
    ensures forall i :: 0 <= i < |names| ==> ParseDomains(names).value[i].Value() == names[i]
  {
    hide ParseDomain, ScanDomain.Value;
    if names != [] {
      ParsedName(names[0]);
      ParsedAt(names[1..]);
    }
  }

  lemma {:induction false} DuplicatesMean(domains: seq<ScanDomain>)
    ensures HasDuplicates(domains) ==> !Distinct(domains)
  {
    if domains != [] {
      DuplicatesMean(domains[1..]);
      if domains[0] in domains[1..] {
        var k :| 0 <= k < |domains[1..]| && domains[1..][k] == domains[0];
        assert domains[k + 1] == domains[0];
      }
    }
  }

  lemma DistinctNamesParse(names: seq<string>)
    requires Distinct(names) && names != [] && forall n :: n in names ==> ParseDomain(n).Some?
    ensures NormalizeDomains(Some(names)).Some?
    ensures forall d :: d in NormalizeDomains(Some(names)).value <==> d.Value() in names
  {
    ParsedIff(names);
    ParsedAt(names);
    var parsed := ParseDomains(names).value;
    DuplicatesMean(parsed);
    DomainValuesAreInjective();
    hide ScanDomain.Value, ParseDomains, HasDuplicates;
    forall d ensures d in parsed <==> d.Value() in names {
      if d.Value() in names {
        var i :| 0 <= i < |names| && names[i] == d.Value();
        assert parsed[i].Value() == d.Value();
      }
    }
  }

  lemma CompleteMeans(c: CoverageObject, d: ScanDomain)
    requires DistinctNames(c)
    ensures StateOf(Some(c), d) == CoverageComplete <==> (d.Value(), "COMPLETE") in c
  {
    hide ScanDomain.Value;
    LookupMeans(c, d.Value());
  }

  /** A stored column proves absence iff all its names are known and all required domains are complete. */
  lemma StoredMeans(source: string, c: CoverageObject)
    requires DistinctNames(c)
    ensures StoredComplete(source, Some(c)) <==>
      && Requirements(source) != {}
      && (forall p :: p in c ==> ParseDomain(p.0).Some?)
      && forall d :: d in Requirements(source) ==> (d.Value(), "COMPLETE") in c
  {
    NamesAt(c);
    var names := Names(c);
    assert Distinct(names);
    forall d ensures StateOf(Some(c), d) == CoverageComplete <==> (d.Value(), "COMPLETE") in c { CompleteMeans(c, d); }
    hide StateOf, ScanDomain.Value, Requirements, Names, ParseDomain;
    assert (forall p :: p in c ==> ParseDomain(p.0).Some?) <==> forall n :: n in names ==> ParseDomain(n).Some?;
    forall d: ScanDomain | (d.Value(), "COMPLETE") in c ensures d.Value() in names {
      var i :| 0 <= i < |c| && c[i] == (d.Value(), "COMPLETE");
      assert names[i] == d.Value();
    }
    if c != [] && forall n :: n in names ==> ParseDomain(n).Some? {
      DistinctNamesParse(names);
    } else {
      ParsedIff(names);
    }
  }

  // ----- the same in the texts of a report

  const DOMAIN_NAMES: set<string> :=
    {"firewall_technology", "iptables_input_policy", "firewall_inbound_policy", "network_socket_inspection",
     "network_reachability", "host_firewall_rule_collection", "host_firewall_rule_applicability"}

  /** The domain names that must be complete before a source's silence proves anything. */
  function Needs(source: string): set<string> {
    if source == "network" then {"network_socket_inspection"}
    else if source == "firewall_technology" then {"firewall_technology"}
    else if source == "firewall" then {"firewall_technology", "iptables_input_policy"}
    else if source == "firewall_inbound_policy" then {"firewall_inbound_policy"}
    else {}
  }

  lemma NamesAreDomains(name: string)
    ensures ParseDomain(name).Some? <==> name in DOMAIN_NAMES
  {
    ParsedName(name);
    DomainNames();
    hide ScanDomain.Value;
    if name in DOMAIN_NAMES {
      var d: ScanDomain :| d.Value() == name;
      EveryDomainIsListed(d);
      ParseDomainInverts(d, ALL_DOMAINS);
    }
  }

  lemma DomainNames()
    ensures forall d: ScanDomain :: d.Value() in DOMAIN_NAMES
    ensures forall n :: n in DOMAIN_NAMES ==> exists d: ScanDomain :: d.Value() == n
  {
    assert FirewallTechnology.Value() == "firewall_technology";
    assert IptablesInputPolicy.Value() == "iptables_input_policy";
    assert FirewallInboundPolicy.Value() == "firewall_inbound_policy";
    assert NetworkSocketInspection.Value() == "network_socket_inspection";
    assert NetworkReachability.Value() == "network_reachability";
    assert HostFirewallRuleCollection.Value() == "host_firewall_rule_collection";
    assert HostFirewallRuleApplicability.Value() == "host_firewall_rule_applicability";
  }

  lemma NeedsAreRequirements(source: string)
    ensures Requirements(source) == {} <==> Needs(source) == {}
    ensures forall n :: n in Needs(source) <==> exists d :: d in Requirements(source) && d.Value() == n
  {
    assert NetworkSocketInspection.Value() == "network_socket_inspection";
    assert FirewallTechnology.Value() == "firewall_technology";
    assert IptablesInputPolicy.Value() == "iptables_input_policy";
    assert FirewallInboundPolicy.Value() == "firewall_inbound_policy";
  }

  /** A stored column proves absence iff it knows only domains and shows all that the source needs as COMPLETE. */
  lemma StoredProofIs(source: string, c: CoverageObject)
    requires DistinctNames(c)
    ensures StoredComplete(source, Some(c)) <==>
      && Needs(source) != {}
      && (forall p :: p in c ==> p.0 in DOMAIN_NAMES)
      && forall n :: n in Needs(source) ==> (n, "COMPLETE") in c
  {
    StoredMeans(source, c);
    NeedsAreRequirements(source);
    forall p | p in c ensures ParseDomain(p.0).Some? <==> p.0 in DOMAIN_NAMES { NamesAreDomains(p.0); }
    hide StoredComplete, Requirements, Needs, ScanDomain.Value, ParseDomain;
  }

  /** The domains a report names, or the three of reports that name none. */
  function ApplicableNames(domains: Option<seq<string>>): seq<string> {
    match domains
    case None => ["firewall_technology", "iptables_input_policy", "network_socket_inspection"]
    case Some(names) => names
  }

  ghost predicate ValidDomains(domains: Option<seq<string>>) {
    var names := ApplicableNames(domains);
    names != [] && Distinct(names) && forall n :: n in names ==> n in DOMAIN_NAMES
  }

  lemma DomainsAre(domains: Option<seq<string>>)
    ensures NormalizeDomains(domains).Some? <==> ValidDomains(domains)
    ensures NormalizeDomains(domains).Some? ==>
      var ds := NormalizeDomains(domains).value;
      |ds| == |ApplicableNames(domains)| && forall i :: 0 <= i < |ds| ==> ds[i].Value() == ApplicableNames(domains)[i]
  {
    match domains
    case None => LegacyNames();
    case Some(names) =>
      forall n | n in names ensures ParseDomain(n).Some? <==> n in DOMAIN_NAMES { NamesAreDomains(n); }
      ParsedIff(names);
      if ParseDomains(names).Some? {
        ParsedAt(names);
        RepeatedNames(names);
      }
      hide ParseDomains, HasDuplicates, ParseDomain, ScanDomain.Value;
  }

  lemma LegacyNames()
    ensures ValidDomains(None)
    ensures forall i :: 0 <= i < 3 ==> LEGACY_ASSESSMENT_DOMAINS[i].Value() == ApplicableNames(None)[i]
  {
    var names := ApplicableNames(None);
    assert names[0][0] == 'f' && names[1][0] == 'i' && names[2][0] == 'n';
    assert names[0] != names[1] && names[1] != names[2] && names[0] != names[2];
    assert FirewallTechnology.Value() == names[0] && IptablesInputPolicy.Value() == names[1];
    assert NetworkSocketInspection.Value() == names[2];
  }

  lemma RepeatedNames(names: seq<string>)
    requires ParseDomains(names).Some?
    ensures HasDuplicates(ParseDomains(names).value) <==> !Distinct(names)
  {
    ParsedAt(names);
    DomainValuesAreInjective();
    var parsed := ParseDomains(names).value;
    hide ParseDomains, ScanDomain.Value;
    if Distinct(names) {
      assert Distinct(parsed);
      DuplicatesMean(parsed);
    } else {
      var i, j :| 0 <= i < j < |names| && names[i] == names[j];
      assert parsed[i] == parsed[j];
      if !HasDuplicates(parsed) { NoDuplicatesAt(parsed, i, j); }
    }
  }

  lemma StateIs(coverage: Option<CoverageObject>, d: ScanDomain)
    requires coverage.Some? ==> DistinctNames(coverage.value)
    ensures StateOf(coverage, d) == CoverageComplete <==> coverage.Some? && (d.Value(), "COMPLETE") in coverage.value
    ensures StateOf(coverage, d) == CoverageIncomplete
      <==> coverage.Some? && (d.Value(), "INCOMPLETE") in coverage.value
  {
    hide ScanDomain.Value;
    if coverage.Some? { LookupMeans(coverage.value, d.Value()); }
  }

  /** A report proves absence iff its domains are valid and it shows all that the source needs as COMPLETE. */
  lemma ReportProofIs(source: string, coverage: Option<CoverageObject>, domains: Option<seq<string>>)
    requires coverage.Some? ==> DistinctNames(coverage.value)
    ensures CompleteForSource(source, coverage, domains) <==>
      && Needs(source) != {} && ValidDomains(domains)
      && forall n :: n in Needs(source) ==>
           n in ApplicableNames(domains) && coverage.Some? && (n, "COMPLETE") in coverage.value
  {
    NeedsAreRequirements(source);
    DomainsAre(domains);
    DomainValuesAreInjective();
    forall d { StateIs(coverage, d); }
    hide Requirements, Needs, ScanDomain.Value, StateOf, NormalizeDomains, ValidDomains, ApplicableNames;
    if NormalizeDomains(domains).Some? {
      var ds, names := NormalizeDomains(domains).value, ApplicableNames(domains);
      forall d: ScanDomain ensures d in ds <==> d.Value() in names {
        if d in ds {
          var i :| 0 <= i < |ds| && ds[i] == d;
          assert names[i] == d.Value();
        }
        if d.Value() in names {
          var i :| 0 <= i < |names| && names[i] == d.Value();
          assert ds[i] == d;
        }
      }
    }
  }

  /** The normalised coverage: the applicable domains in order, each with its state or UNKNOWN. */
  lemma NormalizedIs(coverage: Option<CoverageObject>, domains: Option<seq<string>>)
    requires coverage.Some? ==> DistinctNames(coverage.value)
    requires NormalizeDomains(domains).Some?
    ensures var r, names := Normalized(coverage, NormalizeDomains(domains).value), ApplicableNames(domains);
      && |r| == |names|
      && forall i :: 0 <= i < |r| ==>
           && r[i].0 == names[i]
           && (r[i].1 == "COMPLETE" || r[i].1 == "INCOMPLETE" || r[i].1 == "UNKNOWN")
           && (r[i].1 == "COMPLETE" <==> coverage.Some? && (names[i], "COMPLETE") in coverage.value)
           && (r[i].1 == "INCOMPLETE" <==> coverage.Some? && (names[i], "INCOMPLETE") in coverage.value)
  {
    DomainsAre(domains);
    var ds := NormalizeDomains(domains).value;
    NormalizedAt(coverage, ds);
    forall d { StateIs(coverage, d); }
    forall s { StateNames(s); }
    hide NormalizeDomains, Normalized, ScanDomain.Value, StateOf, ValidDomains, ApplicableNames, StateName;
  }

  lemma StateNames(s: CoverageState)
    ensures StateName(s) == "COMPLETE" <==> s == CoverageComplete
    ensures StateName(s) == "INCOMPLETE" <==> s == CoverageIncomplete
    ensures StateName(s) == "UNKNOWN" <==> s == CoverageUnknown
  {
    assert "COMPLETE"[0] != "INCOMPLETE"[0] && "UNKNOWN"[0] != "INCOMPLETE"[0] && "COMPLETE"[0] != "UNKNOWN"[0];
  }

  /** Without a stored column nothing is proved. */
  lemma NoColumnProvesNothing(source: string)
    ensures !StoredComplete(source, None)
  {
    if Requirements(source) != {} {
      var d :| d in Requirements(source);
      assert StateOf(None, d) == CoverageUnknown;
    }
    hide NormalizeDomains;
  }

  /** The stored column is written with its keys sorted; any order decides the same. */
  lemma StoredForgetsOrder(source: string, a: CoverageObject, b: CoverageObject)
    requires DistinctNames(a) && DistinctNames(b)
    requires forall p :: p in a <==> p in b
    ensures StoredComplete(source, Some(a)) <==> StoredComplete(source, Some(b))
  {
    StoredMeans(source, a);
    StoredMeans(source, b);
    hide StoredComplete, ScanDomain.Value, Requirements, ParseDomain;
  }

  lemma NormalizedHasDistinctNames(coverage: Option<CoverageObject>, domains: Option<seq<string>>)
    requires NormalizeDomains(domains).Some?
    ensures DistinctNames(Normalized(coverage, NormalizeDomains(domains).value))
  {
    var applicable := NormalizeDomains(domains).value;
    LegacyDomainsAreDistinct();
    assert !HasDuplicates(applicable);
    NormalizedAt(coverage, applicable);
    DomainValuesAreInjective();
    hide NormalizeDomains, Normalized, HasDuplicates, ScanDomain.Value, StateOf, StateName;
    forall i, j | 0 <= i < j < |applicable| ensures applicable[i] != applicable[j] {
      NoDuplicatesAt(applicable, i, j);
    }
  }

  /** The column as stored, keys sorted, proves what the report's own coverage proves. */
  lemma StoredDecidesSame(source: string, coverage: Option<CoverageObject>, domains: Option<seq<string>>,
                          stored: CoverageObject)
    requires NormalizeDomains(domains).Some? && DistinctNames(stored)
    requires forall p :: p in stored <==> p in Normalized(coverage, NormalizeDomains(domains).value)
    ensures StoredComplete(source, Some(stored)) <==> CompleteForSource(source, coverage, domains)
  {
    NormalizedDecidesSame(source, coverage, domains);
    NormalizedHasDistinctNames(coverage, domains);
    StoredForgetsOrder(source, stored, Normalized(coverage, NormalizeDomains(domains).value));
  }

  // ----- assurance

  datatype Assurance = FullAssurance | PartialAssurance | NoAssurance

  function CountComplete(coverage: Option<CoverageObject>, domains: seq<ScanDomain>): nat {
    if domains == [] then 0
    else (if StateOf(coverage, domains[0]) == CoverageComplete then 1 else 0) + CountComplete(coverage, domains[1..])
  }

  /** The applicable domains that are not complete, in domain order. */
  function Limitations(coverage: Option<CoverageObject>, domains: seq<ScanDomain>): seq<ScanDomain> {
    if domains == [] then []
    else
      (if StateOf(coverage, domains[0]) != CoverageComplete then [domains[0]] else [])
      + Limitations(coverage, domains[1..])
  }

  /** None where the domains are rejected. */
  function AssuranceSummary(coverage: Option<CoverageObject>,
                            domains: Option<seq<string>>): Option<(Assurance, seq<ScanDomain>)>
  {
    var applicable := NormalizeDomains(domains);
    if applicable.None? then None
    else
      var complete := CountComplete(coverage, applicable.value);
      var level := if complete == |applicable.value| then FullAssurance
                   else if complete == 0 then NoAssurance else PartialAssurance;
      Some((level, Limitations(coverage, applicable.value)))
  }

  lemma {:induction false} CountsSplit(coverage: Option<CoverageObject>, domains: seq<ScanDomain>)
    ensures CountComplete(coverage, domains) + |Limitations(coverage, domains)| == |domains|
    ensures forall d ::
      d in Limitations(coverage, domains) <==> d in domains && StateOf(coverage, d) != CoverageComplete
  {
    hide StateOf;
    if domains != [] {
      CountsSplit(coverage, domains[1..]);
      assert domains == [domains[0]] + domains[1..];
    }
  }

  lemma NotEmptyDomains(domains: Option<seq<string>>)
    ensures NormalizeDomains(domains).Some? ==> NormalizeDomains(domains).value != []
  {
    if domains.Some? { ParsedLength(domains.value); }
  }

  /**
   * Full assurance means no limitation and that every source whose domains apply can prove absence;
   * no assurance means that no source can.
   */
  lemma AssuranceMeans(coverage: Option<CoverageObject>, domains: Option<seq<string>>, source: string)
    requires AssuranceSummary(coverage, domains).Some?
    ensures var (level, limitations) := AssuranceSummary(coverage, domains).value;
      var applicable := NormalizeDomains(domains).value;
      && (level == FullAssurance <==> limitations == [])
      && (level == NoAssurance <==> |limitations| == |applicable|)
      && (level == FullAssurance ==>
            (CompleteForSource(source, coverage, domains) <==>
               Requirements(source) != {} && forall d :: d in Requirements(source) ==> d in applicable))
      && (level == NoAssurance ==> !CompleteForSource(source, coverage, domains))
  {
    var applicable := NormalizeDomains(domains).value;
    NotEmptyDomains(domains);
    CountsSplit(coverage, applicable);
    var limitations := Limitations(coverage, applicable);
    hide Limitations, CountComplete, StateOf, NormalizeDomains, Requirements;
    if CountComplete(coverage, applicable) == 0 {
      AllLimited(coverage, applicable);
    }
  }

  lemma {:induction false} AllLimited(coverage: Option<CoverageObject>, domains: seq<ScanDomain>)
    requires CountComplete(coverage, domains) == 0
    ensures forall d :: d in domains ==> StateOf(coverage, d) != CoverageComplete
  {
    hide StateOf;
    if domains != [] {
      AllLimited(coverage, domains[1..]);
      assert domains == [domains[0]] + domains[1..];
    }
  }

  /** The assurance level counts the applicable domains shown COMPLETE, and the limitations are the others. */
  lemma AssuranceIs(coverage: Option<CoverageObject>, domains: Option<seq<string>>)
    requires coverage.Some? ==> DistinctNames(coverage.value)
    ensures AssuranceSummary(coverage, domains).Some? <==> ValidDomains(domains)
    ensures AssuranceSummary(coverage, domains).Some? ==>
      var (level, limitations) := AssuranceSummary(coverage, domains).value;
      var names := ApplicableNames(domains);
      && (level == FullAssurance <==> forall n :: n in names ==> coverage.Some? && (n, "COMPLETE") in coverage.value)
      && (level == NoAssurance <==> forall n :: n in names ==> coverage.None? || (n, "COMPLETE") !in coverage.value)
      && forall d: ScanDomain :: d in limitations <==>
           d.Value() in names && (coverage.None? || (d.Value(), "COMPLETE") !in coverage.value)
  {
    DomainsAre(domains);
    forall d { StateIs(coverage, d); }
    if NormalizeDomains(domains).Some? {
      var ds, names := NormalizeDomains(domains).value, ApplicableNames(domains);
      NotEmptyDomains(domains);
      CountsSplit(coverage, ds);
      AllOrNone(coverage, ds);
      DomainValuesAreInjective();
      hide Limitations, CountComplete, StateOf, NormalizeDomains, ScanDomain.Value, ApplicableNames, ValidDomains;
      forall d: ScanDomain ensures d in ds <==> d.Value() in names {
        if d in ds {
          var i :| 0 <= i < |ds| && ds[i] == d;
          assert names[i] == d.Value();
        }
        if d.Value() in names {
          var i :| 0 <= i < |names| && names[i] == d.Value();
          assert ds[i] == d;
        }
      }
      forall n | n in names ensures exists d :: d in ds && d.Value() == n {
        var i :| 0 <= i < |names| && names[i] == n;
        assert ds[i] in ds && ds[i].Value() == n;
      }
    }
  }

  lemma {:induction false} AllOrNone(coverage: Option<CoverageObject>, domains: seq<ScanDomain>)
    ensures CountComplete(coverage, domains) <= |domains|
    ensures CountComplete(coverage, domains) == |domains|
      <==> forall d :: d in domains ==> StateOf(coverage, d) == CoverageComplete
    ensures CountComplete(coverage, domains) == 0
      <==> forall d :: d in domains ==> StateOf(coverage, d) != CoverageComplete
  {
    hide StateOf;
    if domains != [] {
      AllOrNone(coverage, domains[1..]);
      assert domains == [domains[0]] + domains[1..];
    }
  }

  /** a stands before b in the list. */
  ghost predicate StandsBefore(names: seq<string>, a: string, b: string) {
    exists i, j :: 0 <= i < j < |names| && names[i] == a && names[j] == b
  }

  /** The limitations stand in the order of the names. */
  ghost predicate InOrderOf(ls: seq<ScanDomain>, names: seq<string>) {
    forall i, j :: 0 <= i < j < |ls| ==> StandsBefore(names, ls[i].Value(), ls[j].Value())
  }

  lemma OneMoreInOrder(first: ScanDomain, ls: seq<ScanDomain>, names: seq<string>)
    requires InOrderOf(ls, names) && forall d :: d in ls ==> d.Value() in names
    ensures InOrderOf([first] + ls, [first.Value()] + names) && InOrderOf(ls, [first.Value()] + names)
  {
    hide ScanDomain.Value;
    var more := [first.Value()] + names;
    forall a: string, b: string | StandsBefore(names, a, b) ensures StandsBefore(more, a, b) {
      var i, j :| 0 <= i < j < |names| && names[i] == a && names[j] == b;
      assert more[i + 1] == a && more[j + 1] == b;
    }
    forall d | d in ls ensures StandsBefore(more, first.Value(), d.Value()) {
      var i :| 0 <= i < |names| && names[i] == d.Value();
      assert more[0] == first.Value() && more[i + 1] == d.Value();
    }
    hide StandsBefore;
  }

  lemma {:induction false} LimitationsKeepOrder(coverage: Option<CoverageObject>, domains: seq<ScanDomain>,
                                                names: seq<string>)
    requires |names| == |domains| && forall i :: 0 <= i < |names| ==> names[i] == domains[i].Value()
    ensures InOrderOf(Limitations(coverage, domains), names)
  {
    hide StateOf, ScanDomain.Value, StandsBefore;
    if domains != [] {
      var rest := Limitations(coverage, domains[1..]);
      LimitationsKeepOrder(coverage, domains[1..], names[1..]);
      CountsSplit(coverage, domains[1..]);
      forall d | d in rest ensures d.Value() in names[1..] {
        var k :| 0 <= k < |domains[1..]| && domains[1..][k] == d;
        assert names[1..][k] == d.Value();
      }
      OneMoreInOrder(domains[0], rest, names[1..]);
      assert names == [domains[0].Value()] + names[1..];
      hide InOrderOf;
      assert Limitations(coverage, domains) == [domains[0]] + rest || Limitations(coverage, domains) == rest;
    }
  }

  /** Limitations are reported in the order of the domains. */
  lemma LimitationsInOrder(coverage: Option<CoverageObject>, domains: Option<seq<string>>)
    requires ValidDomains(domains) && AssuranceSummary(coverage, domains).Some?
    ensures InOrderOf(AssuranceSummary(coverage, domains).value.1, ApplicableNames(domains))
  {
    DomainsAre(domains);
    hide Limitations, StateOf, ScanDomain.Value, InOrderOf, CountComplete, ApplicableNames, ValidDomains;
    LimitationsKeepOrder(coverage, NormalizeDomains(domains).value, ApplicableNames(domains));
  }
}
