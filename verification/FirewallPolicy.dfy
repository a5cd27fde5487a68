/** Closed contracts for host-firewall rules, listeners and assessments. */
module FirewallContracts {
  import opened Common
  import opened Orders
  import opened Vocabulary

  const MAX_FIREWALL_RULES := 8192
  const MAX_MATCHED_RULES := 16

  datatype Protocol = Tcp | Udp
  datatype Profile = DefaultProfile | DomainProfile | PrivateProfile | PublicProfile
  datatype Technology = WindowsFirewall | Nftables | Iptables | UnknownTechnology
  datatype Direction = Inbound | Outbound
  datatype Action = Allow | Block
  datatype Enabled = Enabled | Disabled | UnknownEnablement

  datatype Address = V4(bits: nat) | V6(bits: nat)

  /** 127.0.0.0/8 and ::1. */
  predicate IsLoopback(a: Address) {
    match a
    case V4(n) => n / 0x100_0000 == 127
    case V6(n) => n == 1
  }

  /** A network is the addresses between its first and last; ranges are carried but never decided. */
  datatype AddressCondition =
    | AnyAddress
    | Exact(address: Address)
    | Cidr(first: Address, last: Address)
    | LoopbackScope
    | LocalSubnetScope
    | V4Range(start: nat, end: nat)
    | V6Range(start: nat, end: nat)

  datatype ApplicationCondition = AnyApplication | ApplicationDigest(digest: string) | ServiceIdentity(identity: string)

  datatype InterfaceKind = AnyInterface | Lan | Wireless | RemoteAccess | InterfaceDigest

  datatype InterfaceCondition = InterfaceCondition(kind: InterfaceKind, value: string)

  datatype PortRange = PortRange(start: nat, end: nat)

  datatype UnsupportedFeature =
    | RemoteAddressRestricted
    | RemotePortRestricted
    | UserOrPackageScope
    | UnmodeledPlatformPredicate
    | PrecedenceUnproven

  datatype Provenance =
    | EdgeTraversalDeferred
    | OtherClosedOrigin
    | RecoveredLocalPorts
    | RecoveredRemotePorts
    | RemotePrincipalOrSecureScope
    | Rule2Unavailable
    | Rule3Unavailable

  datatype Rule = Rule(
    id: string,
    technology: Technology,
    enabled: Enabled,
    direction: Direction,
    action: Action,
    profiles: seq<Profile>,
    protocol: Option<Protocol>,
    localPorts: seq<PortRange>,
    localAddresses: seq<AddressCondition>,
    remoteAddresses: seq<AddressCondition>,
    application: ApplicationCondition,
    interface: InterfaceCondition,
    edgeTraversal: Option<bool>,
    unsupported: seq<UnsupportedFeature>,
    provenance: seq<Provenance>)

  /** A listener; absent options and empty profiles are unknown facts. */
  datatype Subject = Subject(
    protocol: Protocol,
    port: nat,
    exposure: BindExposure,
    address: Address,
    profiles: seq<Profile>,
    applicationDigest: Option<string>,
    serviceIdentity: Option<string>,
    interface: Option<InterfaceKind>,
    interfaceDigest: Option<string>)

  const MAX_NORMALIZED_TOKEN := 256

  /** A SHA-256 digest as the constructors store it: 64 lower-case hexadecimal digits. */
  predicate IsDigest(s: string) {
    |s| == 64 && forall i :: 0 <= i < 64 ==> '0' <= s[i] <= '9' || 'a' <= s[i] <= 'f'
  }

  predicate StartsWith(s: string, prefix: string) {
    |prefix| <= |s| && s[..|prefix|] == prefix
  }

  /** A canonical service identity, in ASCII. */
  predicate IsServiceIdentity(s: string) {
    && 0 < |s| <= MAX_NORMALIZED_TOKEN
    && (StartsWith(s, "windows-service:") || StartsWith(s, "systemd-service:") || StartsWith(s, "service:"))
    && forall i :: 0 <= i < |s| ==> 'a' <= s[i] <= 'z' || '0' <= s[i] <= '9' || s[i] in "._:-"
  }

  /** What the listener constructor asks of identities and profiles. */
  ghost predicate ValidSubject(s: Subject) {
    && Distinct(s.profiles)
    && (s.applicationDigest.Some? ==> IsDigest(s.applicationDigest.value))
    && (s.serviceIdentity.Some? ==> IsServiceIdentity(s.serviceIdentity.value))
    && (s.interfaceDigest.Some? ==> IsDigest(s.interfaceDigest.value))
  }

  /** What the rule constructors ask of the same. */
  ghost predicate ValidRule(r: Rule) {
    && Distinct(r.profiles)
    && (r.application.ApplicationDigest? ==> IsDigest(r.application.digest))
    && (r.application.ServiceIdentity? ==> IsServiceIdentity(r.application.identity))
    && (r.interface.kind == InterfaceDigest ==> IsDigest(r.interface.value))
  }

  datatype ConditionMatch = Match | NoMatch | Indeterminate

  datatype RuleMatch = RuleMatch(id: string, action: Action, condition: ConditionMatch, universal: bool)

  datatype Applicability =
    MatchingAllow | MatchingBlock | NothingMatches | Ambiguous | Conflicting | Undecided | Unsupported

  datatype DefaultPolicy = DefaultAllow | DefaultBlock | DefaultUnknown

  datatype PolicyBasis =
    | ExplicitUniversalBlock
    | ExplicitAllow
    | NoApplicableRule
    | DefaultPolicyContext
    | PolicyConflict
    | PolicyEvaluationIncomplete
    | PolicyTechnologyUnsupported

  datatype Disposition = BlockEstablished | AllowEstablished | NotEstablished

  datatype Assessment = Assessment(
    applicability: Applicability,
    defaultPolicy: DefaultPolicy,
    matches: seq<RuleMatch>,
    basis: seq<PolicyBasis>,
    collection: CoverageState,
    coverage: CoverageState,
    disposition: Disposition)

  predicate MatchLe(a: RuleMatch, b: RuleMatch) { StrLe(a.id, b.id) }

  predicate Decided(a: Applicability) {
    a == MatchingAllow || a == MatchingBlock || a == NothingMatches
  }

  /** The constructor's invariant. */
  ghost predicate ValidAssessment(a: Assessment) {
    && |a.matches| <= MAX_MATCHED_RULES
    && (forall i, j :: 0 <= i < j < |a.matches| ==> a.matches[i].id != a.matches[j].id)
    && Sorted(a.matches, MatchLe)
    && a.basis != [] && Distinct(a.basis)
    && (Decided(a.applicability) <==> a.coverage == CoverageComplete)
    && (a.applicability == MatchingBlock ==>
          a.matches != [] && forall m :: m in a.matches ==> m.action == Block && m.condition == Match && m.universal)
    && (a.applicability == MatchingAllow ==>
          a.matches != [] && forall m :: m in a.matches ==> m.action == Allow && m.condition == Match)
    && (a.applicability == NothingMatches ==> a.matches == [])
    && (a.disposition != NotEstablished ==> Decided(a.applicability) && a.collection == CoverageComplete)
    && (a.applicability == MatchingBlock ==> a.disposition != AllowEstablished)
  }
}

/** Three-valued rule matching and the platform-neutral evaluator. */
module FirewallPolicy {
  import opened Common
  import opened Orders
  import opened Vocabulary
  import opened FirewallContracts

  // ----- one rule, one listener

  function AddressMatches(c: AddressCondition, a: Address): ConditionMatch {
    match c
    case AnyAddress => Match
    case Exact(b) => if a == b then Match else NoMatch
    case Cidr(first, last) =>
      if a.V4? == first.V4? && first.bits <= a.bits <= last.bits then Match else NoMatch
    case LoopbackScope => if IsLoopback(a) then Match else NoMatch
    case LocalSubnetScope => NoMatch
    case V4Range(_, _) => Indeterminate
    case V6Range(_, _) => Indeterminate
  }

  datatype Cause =
    | InterfaceUncertainty
    | MissingApplicationIdentity
    | MissingServiceIdentity
    | OtherClosedIndeterminate
    | ProfileUncertainty
    | RemoteAddressUncertainty
    | TypedRangeOrParseUncertainty
    | UnknownEnablementOrState
    | UnsupportedFeatureCause

  /** Every cause, in the text order of their values. */
  const CAUSES: seq<Cause> :=
    [InterfaceUncertainty, MissingApplicationIdentity, MissingServiceIdentity, OtherClosedIndeterminate,
     ProfileUncertainty, RemoteAddressUncertainty, TypedRangeOrParseUncertainty, UnknownEnablementOrState,
     UnsupportedFeatureCause]

  predicate RemoteIsAny(rule: Rule) {
    forall c :: c in rule.remoteAddresses ==> c == AnyAddress
  }

  predicate Disjoint(a: seq<Profile>, b: seq<Profile>) {
    forall p :: p in a ==> p !in b
  }

  predicate OutsidePorts(ranges: seq<PortRange>, port: nat) {
    forall r :: r in ranges ==> !(r.start <= port <= r.end)
  }

  predicate OutsideAddresses(conditions: seq<AddressCondition>, a: Address) {
    forall c :: c in conditions ==> AddressMatches(c, a) == NoMatch
  }

  /** Some known fact of the listener rules the rule out. */
  predicate Excluded(rule: Rule, s: Subject) {
    || rule.enabled == Disabled
    || rule.direction != Inbound
    || (rule.profiles != [] && s.profiles != [] && Disjoint(rule.profiles, s.profiles))
    || (rule.protocol.Some? && rule.protocol.value != s.protocol)
    || (rule.localPorts != [] && OutsidePorts(rule.localPorts, s.port))
    || (rule.localAddresses != [] && OutsideAddresses(rule.localAddresses, s.address))
    || (rule.application.ApplicationDigest? && s.applicationDigest.Some?
        && s.applicationDigest.value != rule.application.digest)
    || (rule.application.ServiceIdentity? && s.serviceIdentity.Some?
        && s.serviceIdentity.value != rule.application.identity)
    || (rule.interface.kind == InterfaceDigest && s.interfaceDigest.Some?
        && s.interfaceDigest.value != rule.interface.value)
    || (rule.interface.kind != InterfaceDigest && rule.interface.kind != AnyInterface && s.interface.Some?
        && s.interface.value != rule.interface.kind)
  }

  /** Why the rule, not ruled out, is not known to apply. */
  predicate Unsure(rule: Rule, s: Subject, cause: Cause) {
    match cause
    case InterfaceUncertainty =>
      (rule.interface.kind == InterfaceDigest && s.interfaceDigest.None?)
      || (rule.interface.kind != InterfaceDigest && rule.interface.kind != AnyInterface && s.interface.None?)
    case MissingApplicationIdentity => rule.application.ApplicationDigest? && s.applicationDigest.None?
    case MissingServiceIdentity => rule.application.ServiceIdentity? && s.serviceIdentity.None?
    case OtherClosedIndeterminate => false
    case ProfileUncertainty => rule.profiles != [] && s.profiles == []
    case RemoteAddressUncertainty => !RemoteIsAny(rule)
    case TypedRangeOrParseUncertainty =>
      && rule.localAddresses != []
      && (forall c :: c in rule.localAddresses ==> AddressMatches(c, s.address) != Match)
      && exists c :: c in rule.localAddresses && AddressMatches(c, s.address) == Indeterminate
    case UnknownEnablementOrState => rule.enabled == UnknownEnablement
    case UnsupportedFeatureCause => rule.unsupported != []
  }

  function Causes(rule: Rule, s: Subject): set<Cause> {
    set c | c in CAUSES && Unsure(rule, s, c)
  }

  function MatchOf(rule: Rule, s: Subject): Option<RuleMatch> {
    if Excluded(rule, s) then None
    else
      var sure := Causes(rule, s) == {};
      Some(RuleMatch(rule.id, rule.action, if sure then Match else Indeterminate, sure && RemoteIsAny(rule)))
  }

  // ----- the evaluator

  datatype PolicyError = TooManyRules | DuplicateIdentity

  function Matches(rules: seq<Rule>, s: Subject): seq<RuleMatch> {
    if rules == [] then []
    else
      var m := MatchOf(rules[0], s);
      (if m.Some? then [m.value] else []) + Matches(rules[1..], s)
  }

  function RuleIds(rules: seq<Rule>): seq<string> {
    seq(|rules|, i requires 0 <= i < |rules| => rules[i].id)
  }

  function Actions(matches: seq<RuleMatch>): set<Action> {
    set m | m in matches :: m.action
  }

  /** The verdict on a sorted list of at most sixteen definite or indefinite matches. */
  function Conclude(matches: seq<RuleMatch>, collection: CoverageState, default: DefaultPolicy): Assessment {
    var actions := Actions(matches);
    if |matches| > MAX_MATCHED_RULES then
      Assessment(Undecided, default, [], [PolicyEvaluationIncomplete], collection, CoverageIncomplete, NotEstablished)
    else if exists m :: m in matches && m.condition == Indeterminate then
      Assessment(Undecided, default, matches, [PolicyEvaluationIncomplete], collection, CoverageIncomplete,
                 NotEstablished)
    else if actions == {Allow, Block} then
      Assessment(Conflicting, default, matches, [PolicyConflict], collection, CoverageIncomplete, NotEstablished)
    else if actions == {Block} && forall m :: m in matches ==> m.universal then
      Assessment(MatchingBlock, default, matches, [ExplicitUniversalBlock], collection, CoverageComplete,
                 NotEstablished)
    else if actions == {Allow} then
      Assessment(MatchingAllow, default, matches, [ExplicitAllow], collection, CoverageComplete, NotEstablished)
    else if actions == {} then
      Assessment(NothingMatches, default, matches, [NoApplicableRule, DefaultPolicyContext], collection,
                 CoverageComplete, NotEstablished)
    else
      Assessment(Ambiguous, default, matches, [PolicyEvaluationIncomplete], collection, CoverageIncomplete,
                 NotEstablished)
  }

  /** Some identity occurs twice: there are fewer identities than rules. */
  predicate RepeatsIdentity(rules: seq<Rule>) {
    |set id | id in RuleIds(rules)| != |rules|
  }

  function Evaluate(s: Subject, rules: seq<Rule>, collection: CoverageState,
                    default: DefaultPolicy): Result<Assessment, PolicyError>
  {
    if |rules| > MAX_FIREWALL_RULES then Err(TooManyRules)
    else if RepeatsIdentity(rules) then Err(DuplicateIdentity)
    else if collection == CoverageUnknown then
      Ok(Assessment(Unsupported, default, [], [PolicyTechnologyUnsupported], collection, CoverageUnknown,
                    NotEstablished))
    else if collection != CoverageComplete then
      Ok(Assessment(Undecided, default, [], [PolicyEvaluationIncomplete], collection, CoverageIncomplete,
                    NotEstablished))
    else Ok(Conclude(Sort(Matches(rules, s), MatchLe), collection, default))
  }

  // ----- matches of a snapshot

  lemma {:induction false} MatchesMean(rules: seq<Rule>, s: Subject)
    ensures forall m :: m in Matches(rules, s) <==> exists r :: r in rules && MatchOf(r, s) == Some(m)
    ensures |Matches(rules, s)| <= |rules|
  {
    hide Excluded, Causes, RemoteIsAny;
    if rules != [] {
      MatchesMean(rules[1..], s);
      assert rules == [rules[0]] + rules[1..];
      hide MatchOf;
      forall m | m in Matches(rules, s) ensures exists r :: r in rules && MatchOf(r, s) == Some(m) {
        if m in Matches(rules[1..], s) {
          var r :| r in rules[1..] && MatchOf(r, s) == Some(m);
          assert r in rules;
        } else {
          assert rules[0] in rules;
        }
      }
    }
  }

  ghost predicate IdsDistinct(rules: seq<Rule>) {
    forall i, j :: 0 <= i < j < |rules| ==> rules[i].id != rules[j].id
  }

  ghost predicate MatchIdsDistinct(ms: seq<RuleMatch>) {
    forall i, j :: 0 <= i < j < |ms| ==> ms[i].id != ms[j].id
  }

  lemma {:induction false} MatchIds(rules: seq<Rule>, s: Subject)
    requires IdsDistinct(rules)
    ensures MatchIdsDistinct(Matches(rules, s))
  {
    hide Excluded, Causes, RemoteIsAny;
    if rules != [] {
      MatchIds(rules[1..], s);
      MatchesMean(rules[1..], s);
      var rest := Matches(rules[1..], s);
      forall k | 0 <= k < |rest| && MatchOf(rules[0], s).Some? ensures MatchOf(rules[0], s).value.id != rest[k].id {
        assert rest[k] in rest;
        var r :| r in rules[1..] && MatchOf(r, s) == Some(rest[k]);
        assert rules[0].id != r.id;
      }
      hide MatchOf;
    }
  }

  lemma MatchIdsOfMembers(ms: seq<RuleMatch>)
    requires MatchIdsDistinct(ms)
    ensures Distinct(ms) && Separates(MatchLe, ms)
    ensures forall p, q :: p in ms && q in ms && p.id == q.id ==> p == q
  {
    StrLeIsTotal();
    hide StrLe;
  }

  lemma SortedMatches(ms: seq<RuleMatch>)
    requires MatchIdsDistinct(ms)
    ensures MatchIdsDistinct(Sort(ms, MatchLe)) && Sorted(Sort(ms, MatchLe), MatchLe)
    ensures forall m :: m in Sort(ms, MatchLe) <==> m in ms
    ensures |Sort(ms, MatchLe)| == |ms|
  {
    MatchIdsOfMembers(ms);
    StrLeIsTotal();
    assert Preorder(MatchLe) by { hide StrLe; }
    SortIsPermutation(ms, MatchLe);
    SortIsSorted(ms, MatchLe);
    SortKeepsDistinct(ms, MatchLe);
    hide StrLe, MatchLe, Sort, Preorder, Sorted, Separates;
    var sorted := Sort(ms, MatchLe);
    forall i, j | 0 <= i < j < |sorted| ensures sorted[i].id != sorted[j].id {
      assert sorted[i] in sorted && sorted[j] in sorted && sorted[i] != sorted[j];
    }
  }

  lemma RuleIdsMean(rules: seq<Rule>)
    ensures RepeatsIdentity(rules) <==> !IdsDistinct(rules)
  {
    DistinctIffCounted(RuleIds(rules));
    assert Elems(RuleIds(rules)) == set id | id in RuleIds(rules);
    if Distinct(RuleIds(rules)) {
      forall i, j | 0 <= i < j < |rules| ensures rules[i].id != rules[j].id {
        assert RuleIds(rules)[i] != RuleIds(rules)[j];
      }
    }
  }

  /** A definite match is always universal, so no verdict is ever ambiguous. */
  lemma DefiniteIsUniversal(rule: Rule, s: Subject)
    requires MatchOf(rule, s).Some? && MatchOf(rule, s).value.condition == Match
    ensures MatchOf(rule, s).value.universal && Causes(rule, s) == {}
    ensures MatchOf(rule, s).value.condition != NoMatch
  {
    assert RemoteAddressUncertainty in CAUSES;
    assert RemoteAddressUncertainty !in Causes(rule, s);
    hide Excluded;
  }

  lemma MatchKinds(rules: seq<Rule>, s: Subject, m: RuleMatch)
    requires m in Matches(rules, s)
    ensures m.condition == Match || m.condition == Indeterminate
    ensures m.condition == Match ==> m.universal
  {
    MatchesMean(rules, s);
    var r :| r in rules && MatchOf(r, s) == Some(m);
    if m.condition == Match { DefiniteIsUniversal(r, s); }
    hide Excluded, Causes, RemoteIsAny;
  }

  lemma ActionsAre(ms: seq<RuleMatch>)
    ensures forall m :: m in ms ==> m.action in Actions(ms)
    ensures Actions(ms) == {} <==> ms == []
    ensures Actions(ms) == {} || Actions(ms) == {Allow} || Actions(ms) == {Block} || Actions(ms) == {Allow, Block}
  {
    var actions := Actions(ms);
    if ms != [] { assert ms[0] in ms && ms[0].action in actions; }
    forall a | a in actions ensures a in {Allow, Block} {
      assert a.Allow? || a.Block?;
    }
    assert actions <= {Allow, Block};
  }

  /** Every verdict meets the constructor's invariant and none is ambiguous. */
  lemma ConclusionIsValid(ms: seq<RuleMatch>, collection: CoverageState, default: DefaultPolicy)
    requires MatchIdsDistinct(ms) && Sorted(ms, MatchLe)
    requires forall m :: m in ms ==> m.condition == Match || m.condition == Indeterminate
    requires forall m :: m in ms ==> m.condition == Match ==> m.universal
    requires collection == CoverageComplete
    ensures ValidAssessment(Conclude(ms, collection, default))
    ensures Conclude(ms, collection, default).applicability != Ambiguous
  {
    hide MatchLe, Actions;
    ActionsAre(ms);
  }

  lemma UnevaluatedIsValid(default: DefaultPolicy, collection: CoverageState)
    ensures ValidAssessment(
      Assessment(Unsupported, default, [], [PolicyTechnologyUnsupported], collection, CoverageUnknown, NotEstablished))
    ensures ValidAssessment(
      Assessment(Undecided, default, [], [PolicyEvaluationIncomplete], collection, CoverageIncomplete, NotEstablished))
  {
  }

  lemma EvaluationIsValid(s: Subject, rules: seq<Rule>, collection: CoverageState, default: DefaultPolicy)
    requires Evaluate(s, rules, collection, default).Ok?
    ensures ValidAssessment(Evaluate(s, rules, collection, default).value)
    ensures Evaluate(s, rules, collection, default).value.applicability != Ambiguous
    ensures Evaluate(s, rules, collection, default).value.disposition == NotEstablished
  {
    RuleIdsMean(rules);
    UnevaluatedIsValid(default, collection);
    hide Matches, RepeatsIdentity, Sort, MatchLe, MatchIdsDistinct, Sorted, ValidAssessment, Actions, IdsDistinct;
    if collection == CoverageComplete {
      MatchIds(rules, s);
      SortedMatches(Matches(rules, s));
      forall m | m in Matches(rules, s) ensures m.condition == Match || m.condition == Indeterminate
        ensures m.condition == Match ==> m.universal
      {
        MatchKinds(rules, s, m);
      }
      ConclusionIsValid(Sort(Matches(rules, s), MatchLe), collection, default);
    }
  }

  function ApplicabilityCoverage(collection: CoverageState, assessments: seq<Assessment>): CoverageState {
    if collection == CoverageUnknown then CoverageUnknown
    else if collection != CoverageComplete then CoverageIncomplete
    else if forall a :: a in assessments ==> a.coverage == CoverageComplete then CoverageComplete
    else CoverageIncomplete
  }

  /** Applicability is fully covered iff rules are fully collected and no listener's verdict is open. */
  lemma ApplicabilityCoveredExactlyWhen(collection: CoverageState, assessments: seq<Assessment>)
    requires forall a :: a in assessments ==> ValidAssessment(a) && a.applicability != Ambiguous
    ensures ApplicabilityCoverage(collection, assessments) == CoverageComplete <==>
      collection == CoverageComplete
      && forall a :: a in assessments ==>
           a.applicability != Undecided && a.applicability != Conflicting && a.applicability != Unsupported
  {
    hide MatchLe;
  }

  // ----- order independence

  lemma MatchesPermute(a: seq<Rule>, b: seq<Rule>, s: Subject)
    requires multiset(a) == multiset(b) && IdsDistinct(a) && IdsDistinct(b)
    ensures multiset(Matches(a, s)) == multiset(Matches(b, s))
  {
    MatchIds(a, s);
    MatchIds(b, s);
    MatchIdsOfMembers(Matches(a, s));
    MatchIdsOfMembers(Matches(b, s));
    MatchesMean(a, s);
    MatchesMean(b, s);
    hide Matches, MatchOf, MatchLe, MatchIdsDistinct;
    forall r ensures r in a <==> r in b {
      assert r in a <==> r in multiset(a);
      assert r in b <==> r in multiset(b);
    }
    DistinctSameElems(Matches(a, s), Matches(b, s));
  }

  lemma PermutedIds(a: seq<Rule>, b: seq<Rule>)
    requires multiset(a) == multiset(b) && IdsDistinct(a)
    ensures IdsDistinct(b)
  {
    assert Distinct(a);
    PermutationKeepsDistinct(a, b);
    forall i, j | 0 <= i < j < |b| ensures b[i].id != b[j].id {
      assert b[i] in multiset(a) && b[j] in multiset(a) && b[i] != b[j];
    }
  }

  /** Rules are compared without their diagnostic provenance. */
  predicate SameRule(a: Rule, b: Rule) {
    a.(provenance := []) == b.(provenance := [])
  }

  /** Every rule of a has an equal in b. */
  ghost predicate Mirrors(a: seq<Rule>, b: seq<Rule>) {
    forall r :: r in a ==> exists q :: q in b && SameRule(r, q)
  }

  lemma MatchIgnoresProvenance(a: Rule, b: Rule, s: Subject)
    requires SameRule(a, b)
    ensures MatchOf(a, s) == MatchOf(b, s) && a.id == b.id
  {
    hide AddressMatches, Disjoint, OutsidePorts, OutsideAddresses, RemoteIsAny;
    assert a.(provenance := []).profiles == b.(provenance := []).profiles;
    assert Excluded(a, s) == Excluded(b, s);
    assert RemoteIsAny(a) == RemoteIsAny(b) by { SameRemote(a, b); }
    forall c ensures Unsure(a, s, c) == Unsure(b, s, c) {
    }
    assert Causes(a, s) == Causes(b, s);
  }

  lemma SameRemote(a: Rule, b: Rule)
    requires a.remoteAddresses == b.remoteAddresses
    ensures RemoteIsAny(a) == RemoteIsAny(b)
  {
  }

  lemma MirroredMatches(a: seq<Rule>, b: seq<Rule>, s: Subject, m: RuleMatch)
    requires Mirrors(a, b) && m in Matches(a, s)
    ensures m in Matches(b, s)
  {
    MatchesMean(a, s);
    MatchesMean(b, s);
    hide Matches, MatchOf, SameRule;
    var r :| r in a && MatchOf(r, s) == Some(m);
    var q :| q in b && SameRule(r, q);
    MatchIgnoresProvenance(r, q, s);
  }

  lemma MirroredLength(a: seq<Rule>, b: seq<Rule>)
    requires Mirrors(a, b) && Mirrors(b, a) && IdsDistinct(a) && IdsDistinct(b)
    ensures |a| == |b|
  {
    var x, y := RuleIds(a), RuleIds(b);
    forall id | id in x ensures id in y { MirroredId(a, b, id); }
    forall id | id in y ensures id in x { MirroredId(b, a, id); }
    DistinctSameElems(x, y);
    assert |multiset(x)| == |multiset(y)|;
  }

  lemma MirroredId(a: seq<Rule>, b: seq<Rule>, id: string)
    requires Mirrors(a, b) && id in RuleIds(a)
    ensures id in RuleIds(b)
  {
    hide SameRule;
    var i :| 0 <= i < |a| && a[i].id == id;
    assert a[i] in a;
    var q :| q in b && SameRule(a[i], q);
    SameRuleSameId(a[i], q);
    var j :| 0 <= j < |b| && b[j] == q;
    assert RuleIds(b)[j] == id;
  }

  lemma SameRuleSameId(a: Rule, b: Rule)
    requires SameRule(a, b)
    ensures a.id == b.id
  {
    assert a.(provenance := []).id == b.(provenance := []).id;
  }

  /** Neither order nor provenance of the rules takes part in the verdict. */
  lemma EvaluationIgnoresProvenance(s: Subject, a: seq<Rule>, b: seq<Rule>, collection: CoverageState,
                                    default: DefaultPolicy)
    requires IdsDistinct(a) && IdsDistinct(b) && Mirrors(a, b) && Mirrors(b, a)
    ensures Evaluate(s, a, collection, default) == Evaluate(s, b, collection, default)
  {
    MirroredLength(a, b);
    RuleIdsMean(a);
    RuleIdsMean(b);
    MatchIds(a, s);
    MatchIds(b, s);
    MatchIdsOfMembers(Matches(a, s));
    MatchIdsOfMembers(Matches(b, s));
    MatchLeIsPreorder();
    hide RepeatsIdentity, Conclude, IdsDistinct, MatchLe, Matches, MatchIdsDistinct, Preorder, Mirrors;
    forall m ensures m in Matches(a, s) <==> m in Matches(b, s) {
      if m in Matches(a, s) { MirroredMatches(a, b, s, m); }
      if m in Matches(b, s) { MirroredMatches(b, a, s, m); }
    }
    DistinctSameElems(Matches(a, s), Matches(b, s));
    SortForgetsOrder(Matches(a, s), Matches(b, s), MatchLe);
  }

  /** The verdict, or the rejection, does not depend on the order of the rules. */
  lemma EvaluationForgetsOrder(s: Subject, a: seq<Rule>, b: seq<Rule>, collection: CoverageState,
                               default: DefaultPolicy)
    requires multiset(a) == multiset(b)
    ensures Evaluate(s, a, collection, default) == Evaluate(s, b, collection, default)
  {
    assert |multiset(a)| == |multiset(b)|;
    RuleIdsMean(a);
    RuleIdsMean(b);
    if IdsDistinct(a) { PermutedIds(a, b); }
    if IdsDistinct(b) { PermutedIds(b, a); }
    hide RepeatsIdentity, Conclude, IdsDistinct;
    if IdsDistinct(a) {
      MatchIds(a, s);
      MatchesPermute(a, b, s);
      MatchIdsOfMembers(Matches(a, s));
      MatchLeIsPreorder();
      hide MatchLe, Matches, MatchIdsDistinct, Preorder;
      SortForgetsOrder(Matches(a, s), Matches(b, s), MatchLe);
    }
  }

  lemma MatchLeIsPreorder()
    ensures Preorder(MatchLe)
  {
    StrLeIsTotal();
    hide StrLe;
  }

  // ----- more information never changes a definite answer

  /** s' knows everything s knows. */
  ghost predicate Refines(s: Subject, s': Subject) {
    && s'.protocol == s.protocol && s'.port == s.port && s'.exposure == s.exposure && s'.address == s.address
    && (s.profiles != [] ==> s'.profiles == s.profiles)
    && (s.applicationDigest.Some? ==> s'.applicationDigest == s.applicationDigest)
    && (s.serviceIdentity.Some? ==> s'.serviceIdentity == s.serviceIdentity)
    && (s.interface.Some? ==> s'.interface == s.interface)
    && (s.interfaceDigest.Some? ==> s'.interfaceDigest == s.interfaceDigest)
  }

  lemma MatchIsStable(rule: Rule, s: Subject, s': Subject)
    requires Refines(s, s')
    requires MatchOf(rule, s).Some? ==> MatchOf(rule, s).value.condition == Match
    ensures MatchOf(rule, s') == MatchOf(rule, s)
  {
    hide AddressMatches, RemoteIsAny;
    if MatchOf(rule, s).Some? {
      var cs := [InterfaceUncertainty, MissingApplicationIdentity, MissingServiceIdentity, ProfileUncertainty];
      assert Causes(rule, s) == {};
      assert forall c :: c in cs ==> c in CAUSES && c !in Causes(rule, s);
      forall c | c in CAUSES ensures !Unsure(rule, s, c) {
        assert c !in Causes(rule, s);
      }
      assert !Unsure(rule, s, cs[0]) && !Unsure(rule, s, cs[1]) && !Unsure(rule, s, cs[2]) && !Unsure(rule, s, cs[3]);
      assert !Excluded(rule, s');
      forall c | c in CAUSES ensures !Unsure(rule, s', c) {
        assert !Unsure(rule, s, c);
      }
      assert Causes(rule, s') == {};
    } else {
      assert Excluded(rule, s');
    }
  }

  lemma {:induction false} MatchesAreStable(rules: seq<Rule>, s: Subject, s': Subject)
    requires Refines(s, s')
    requires forall m :: m in Matches(rules, s) ==> m.condition == Match
    ensures Matches(rules, s') == Matches(rules, s)
  {
    if rules != [] {
      var m := MatchOf(rules[0], s);
      hide MatchOf, Refines;
      assert m.Some? ==> m.value in Matches(rules, s);
      MatchIsStable(rules[0], s, s');
      assert forall m :: m in Matches(rules[1..], s) ==> m in Matches(rules, s);
      MatchesAreStable(rules[1..], s, s');
    }
  }

  lemma DecidedMatchesAreDefinite(s: Subject, rules: seq<Rule>, default: DefaultPolicy)
    requires Conclude(Sort(Matches(rules, s), MatchLe), CoverageComplete, default).applicability != Undecided
    ensures forall m :: m in Matches(rules, s) ==> m.condition == Match
  {
    var ms := Matches(rules, s);
    SortIsPermutation(ms, MatchLe);
    hide Matches, Sort, MatchLe, Actions;
    forall m | m in ms ensures m.condition == Match {
      assert m in Sort(ms, MatchLe);
      MatchKinds(rules, s, m);
    }
  }

  /** Unless the verdict is undecided, filling in unknown facts leaves the whole assessment unchanged. */
  lemma InformationMonotonicity(s: Subject, s': Subject, rules: seq<Rule>, collection: CoverageState,
                                default: DefaultPolicy)
    requires Refines(s, s')
    requires Evaluate(s, rules, collection, default).Ok?
    requires Evaluate(s, rules, collection, default).value.applicability != Undecided
    ensures Evaluate(s', rules, collection, default) == Evaluate(s, rules, collection, default)
  {
    hide Matches, Sort, MatchLe, RepeatsIdentity, Conclude, Refines;
    if collection == CoverageComplete {
      DecidedMatchesAreDefinite(s, rules, default);
      MatchesAreStable(rules, s, s');
    }
  }

  /** The facts a listener can be missing. */
  predicate IsMissingFact(c: Cause) {
    || c == InterfaceUncertainty || c == MissingApplicationIdentity || c == MissingServiceIdentity
    || c == ProfileUncertainty
  }

  predicate NamesInterface(rule: Rule) {
    rule.interface.kind != InterfaceDigest && rule.interface.kind != AnyInterface
  }

  function FillToMatch(rule: Rule, s: Subject): Subject {
    s.(profiles := if s.profiles == [] then rule.profiles else s.profiles,
       applicationDigest := if s.applicationDigest.None? && rule.application.ApplicationDigest?
                            then Some(rule.application.digest) else s.applicationDigest,
       serviceIdentity := if s.serviceIdentity.None? && rule.application.ServiceIdentity?
                          then Some(rule.application.identity) else s.serviceIdentity,
       interface := if s.interface.None? && NamesInterface(rule) then Some(rule.interface.kind) else s.interface,
       interfaceDigest := if s.interfaceDigest.None? && rule.interface.kind == InterfaceDigest
                          then Some(rule.interface.value) else s.interfaceDigest)
  }

  lemma SomeProfileOverlaps(rule: Rule)
    requires rule.profiles != []
    ensures exists p :: p in rule.profiles
  {
    assert rule.profiles[0] in rule.profiles;
  }

  /**
   * Where an indeterminate rule lacks only facts of the listener, the indecision is real:
   * the missing facts can be filled in, with a listener the program can build, so that the rule applies.
   */
  lemma IndecisionCanBecomeMatch(rule: Rule, s: Subject)
    requires !Excluded(rule, s)
    requires forall c :: c in Causes(rule, s) ==> IsMissingFact(c)
    ensures Refines(s, FillToMatch(rule, s))
    ensures MatchOf(rule, FillToMatch(rule, s)) == Some(RuleMatch(rule.id, rule.action, Match, true))
    ensures ValidRule(rule) && ValidSubject(s) ==> ValidSubject(FillToMatch(rule, s))
  {
    var s' := FillToMatch(rule, s);
    hide AddressMatches, RemoteIsAny, IsDigest, IsServiceIdentity;
    assert RemoteAddressUncertainty in CAUSES && TypedRangeOrParseUncertainty in CAUSES
        && UnknownEnablementOrState in CAUSES && UnsupportedFeatureCause in CAUSES;
    assert !Unsure(rule, s, RemoteAddressUncertainty) && !Unsure(rule, s, TypedRangeOrParseUncertainty)
        && !Unsure(rule, s, UnknownEnablementOrState) && !Unsure(rule, s, UnsupportedFeatureCause) by {
      assert RemoteAddressUncertainty !in Causes(rule, s) && TypedRangeOrParseUncertainty !in Causes(rule, s)
        && UnknownEnablementOrState !in Causes(rule, s) && UnsupportedFeatureCause !in Causes(rule, s);
    }
    if rule.profiles != [] { SomeProfileOverlaps(rule); }
    assert !Excluded(rule, s');
    forall c | c in CAUSES ensures !Unsure(rule, s', c) {}
    assert Causes(rule, s') == {};
  }

  function Repeated(c: char): string {
    seq(64, _ => c)
  }

  function OtherDigest(digest: string): (other: string)
    ensures IsDigest(other) && other != digest
  {
    assert Repeated('0')[0] != Repeated('1')[0];
    if digest == Repeated('0') then Repeated('1') else Repeated('0')
  }

  function OtherService(identity: string): (other: string)
    ensures IsServiceIdentity(other) && other != identity
  {
    assert "service:a"[8] != "service:b"[8];
    if identity == "service:a" then "service:b" else "service:a"
  }

  /** A missing fact that can rule the rule out: any but the profile, or the profile of a rule that lacks one. */
  ghost predicate CanRuleOut(rule: Rule, s: Subject) {
    exists c :: c in Causes(rule, s) && IsMissingFact(c)
      && (c != ProfileUncertainty || exists p: Profile :: p !in rule.profiles)
  }

  /** Where such a fact is missing, it can be filled in so that the rule does not apply. */
  lemma IndecisionCanBecomeNoMatch(rule: Rule, s: Subject) returns (s': Subject)
    requires !Excluded(rule, s) && CanRuleOut(rule, s)
    ensures Refines(s, s') && MatchOf(rule, s') == None
    ensures ValidSubject(s) ==> ValidSubject(s')
  {
    hide AddressMatches, RemoteIsAny, IsDigest, IsServiceIdentity, OtherDigest, OtherService;
    if MissingApplicationIdentity in Causes(rule, s) {
      s' := s.(applicationDigest := Some(OtherDigest(rule.application.digest)));
    } else if MissingServiceIdentity in Causes(rule, s) {
      s' := s.(serviceIdentity := Some(OtherService(rule.application.identity)));
    } else if InterfaceUncertainty in Causes(rule, s) {
      if rule.interface.kind == InterfaceDigest {
        s' := s.(interfaceDigest := Some(OtherDigest(rule.interface.value)));
      } else {
        s' := s.(interface := Some(if rule.interface.kind == Lan then Wireless else Lan));
      }
    } else {
      var p: Profile :| p !in rule.profiles;
      s' := s.(profiles := [p]);
    }
  }

  /** And nowhere else: a rule that some refinement rules out had such a fact missing. */
  lemma NoMatchNeedsMissingFact(rule: Rule, s: Subject, s': Subject)
    requires Refines(s, s') && !Excluded(rule, s) && MatchOf(rule, s') == None
    ensures CanRuleOut(rule, s)
  {
    hide AddressMatches, RemoteIsAny;
    var cs := [InterfaceUncertainty, MissingApplicationIdentity, MissingServiceIdentity, ProfileUncertainty];
    assert forall i :: 0 <= i < 4 ==> cs[i] in CAUSES;
    assert Excluded(rule, s');
    if c :| c in cs && c != ProfileUncertainty && Unsure(rule, s, c) {
      assert c in Causes(rule, s) && IsMissingFact(c);
    } else {
      assert !Unsure(rule, s, cs[0]) && !Unsure(rule, s, cs[1]) && !Unsure(rule, s, cs[2]);
      assert rule.profiles != [] && s.profiles == [] && s'.profiles != [] && Disjoint(rule.profiles, s'.profiles);
      assert s'.profiles[0] !in rule.profiles;
      assert ProfileUncertainty in Causes(rule, s);
    }
  }
}
