/** Listener reachability from binds and policy verdicts, and its report form. */
module Reachability {
  import opened Common
  import opened Orders
  import opened Vocabulary
  import opened FirewallContracts
  import opened FirewallPolicy
  import opened FirewallRules

  datatype ReachabilityBasis =
    | SocketLoopbackBind
    | SocketInterfaceBind
    | SocketWildcardBind
    | WindowsRestrictiveDefault
    | WindowsPermissiveDefault
    | WindowsFirewallDisabled
    | LinuxInputAccept
    | LinuxInputDrop
    | FirewallPolicyUnknown
    | HostPolicyExplicitBlock
    | HostPolicyEvaluatedBlock
    | HostPolicyExplicitAllow
    | HostPolicyDefaultContext
    | HostPolicyIncomplete

  datatype Reach = Reach(
    exposure: BindExposure, state: RemoteReachabilityState, basis: seq<ReachabilityBasis>, policy: Option<Assessment>)

  ghost predicate ValidReach(r: Reach) {
    r.basis != [] && Distinct(r.basis) && (r.policy.Some? ==> ValidAssessment(r.policy.value))
  }

  /** Each entry once, where it first stands. */
  function Unrepeated(s: seq<ReachabilityBasis>): seq<ReachabilityBasis> {
    if s == [] then []
    else
      var before := Unrepeated(s[..|s| - 1]);
      if s[|s| - 1] in before then before else before + [s[|s| - 1]]
  }

  function BindBasis(e: BindExposure): ReachabilityBasis {
    match e
    case Loopback => SocketLoopbackBind
    case Interface => SocketInterfaceBind
    case AllInterfaces => SocketWildcardBind
  }

  function AssessReachability(e: BindExposure, policyBasis: seq<ReachabilityBasis>, policy: Option<Assessment>): Reach {
    var basis := Unrepeated([BindBasis(e)] + policyBasis);
    if e == Loopback then Reach(e, NotRemotelyBound, basis, policy)
    else if policy.None? then Reach(e, PotentiallyReachable, basis, policy)
    else if policy.value.disposition == BlockEstablished then
      Reach(e, BlockedByObservedPolicy,
            Unrepeated(basis + [if policy.value.applicability == MatchingBlock then HostPolicyExplicitBlock
                                else HostPolicyEvaluatedBlock]), policy)
    else if policy.value.applicability == MatchingBlock && policy.value.coverage == CoverageComplete then
      Reach(e, BlockedByObservedPolicy, Unrepeated(basis + [HostPolicyExplicitBlock]), policy)
    else
      Reach(e, PotentiallyReachable,
            Unrepeated(basis + [match policy.value.applicability
                                case MatchingAllow => HostPolicyExplicitAllow
                                case NothingMatches => HostPolicyDefaultContext
                                case _ => HostPolicyIncomplete]), policy)
  }

  lemma {:induction false} UnrepeatedMeans(s: seq<ReachabilityBasis>)
    ensures Distinct(Unrepeated(s)) && forall b :: b in Unrepeated(s) <==> b in s
  {
    if s != [] {
      assert s == s[..|s| - 1] + [s[|s| - 1]];
      UnrepeatedMeans(s[..|s| - 1]);
    }
  }

  lemma ReachabilityIsValid(e: BindExposure, policyBasis: seq<ReachabilityBasis>, policy: Option<Assessment>)
    requires policy.Some? ==> ValidAssessment(policy.value)
    ensures ValidReach(AssessReachability(e, policyBasis, policy))
    ensures BindBasis(e) in AssessReachability(e, policyBasis, policy).basis
  {
    hide ValidAssessment;
    var basis := Unrepeated([BindBasis(e)] + policyBasis);
    UnrepeatedMeans([BindBasis(e)] + policyBasis);
    forall b { UnrepeatedMeans(basis + [b]); }
    hide Unrepeated;
    assert BindBasis(e) in basis;
    assert forall b :: BindBasis(e) in Unrepeated(basis + [b]);
  }

  // ----- blocked exactly when every rule left standing definitely blocks

  /** The rules of a snapshot that no known fact of the listener rules out. */
  ghost function Standing(rules: seq<Rule>, s: Subject): set<Rule> {
    set r | r in rules && forall c :: !Unmet(r, s, c)
  }

  ghost predicate SurelyBlocks(r: Rule, s: Subject) {
    r.action == Block && forall c :: !Unknown(r, s, c)
  }

  lemma StandingMatches(rules: seq<Rule>, s: Subject)
    requires IdsDistinct(rules)
    ensures |Standing(rules, s)| == |Applying(rules, s)|
    ensures (forall r :: r in Standing(rules, s) ==> SurelyBlocks(r, s))
      <==> forall m :: m in Applying(rules, s) ==> m.action == Block && m.condition == Match
  {
    hide Unmet, Unknown, MatchOf;
    forall r { MatchesByTerms(r, s); }
    var named := (r: Rule) => RuleMatch(r.id, r.action, if exists c :: Unknown(r, s, c) then Indeterminate else Match,
                                        !exists c :: Unknown(r, s, c));
    forall r | r in rules ensures r in Standing(rules, s) <==> MatchOf(r, s) == Some(named(r))
      ensures r !in Standing(rules, s) ==> MatchOf(r, s) == None
    {
    }
    forall x, y | x in rules && y in rules && named(x) == named(y) ensures x == y {
      assert x.id == y.id;
    }
    forall m | m in Applying(rules, s) ensures exists r :: r in Standing(rules, s) && named(r) == m {
      var r :| r in rules && MatchOf(r, s).Some? && MatchOf(r, s).value == m;
      assert r in Standing(rules, s);
    }
    RenamedSize(Standing(rules, s), Applying(rules, s), named);
  }

  /**
   * With complete collection a bound listener is blocked iff one to sixteen rules are not ruled
   * out by its known facts, and each of them is an enabled block whose every condition is known to hold.
   */
  lemma BlockedExactlyWhen(s: Subject, rules: seq<Rule>, collection: CoverageState, default: DefaultPolicy,
                           policyBasis: seq<ReachabilityBasis>)
    requires |rules| <= 8192 && IdsDistinct(rules)
    ensures Evaluate(s, rules, collection, default).Ok?
    ensures
      (AssessReachability(s.exposure, policyBasis, Some(Evaluate(s, rules, collection, default).value)).state
         == BlockedByObservedPolicy)
      <==>
        && s.exposure != Loopback && collection == CoverageComplete
        && 1 <= |Standing(rules, s)| <= 16
        && forall r :: r in Standing(rules, s) ==> SurelyBlocks(r, s)
  {
    StandingMatches(rules, s);
    NoVerdictOtherwise(s, rules, collection, default);
    hide Evaluate, IdsDistinct, Standing, SurelyBlocks, Unrepeated;
    if collection == CoverageComplete {
      VerdictIs(s, rules, default);
      var ms := Applying(rules, s);
      KindsOfMatches(rules, s);
      hide Applying;
      assert |ms| >= 1 <==> exists m :: m in ms by { if |ms| == 0 { assert ms == {}; } }
      assert forall m :: m in ms ==> (m.action == Allow <==> m.action != Block);
    }
  }

  lemma KindsOfMatches(rules: seq<Rule>, s: Subject)
    ensures forall m :: m in Applying(rules, s) ==> (m.condition == Match <==> m.condition != Indeterminate)
  {
    forall r { RuleIsItsConditions(r, s); }
    hide MatchOf, RuledOutBy, InDoubtOver;
  }

  // ----- coverage

  function Conclusive(s: RemoteReachabilityState): bool {
    s == NotRemotelyBound || s == BlockedByObservedPolicy || s == ConfirmedReachable
  }

  function ReachabilityCoverage(socket: CoverageState, reached: seq<Reach>): CoverageState {
    if socket == CoverageUnknown && reached == [] then CoverageUnknown
    else if socket != CoverageComplete then CoverageIncomplete
    else if forall r :: r in reached ==> Conclusive(r.state) then CoverageComplete
    else CoverageIncomplete
  }

  /**
   * Coverage of assessed listeners is complete iff sockets are fully known and each listener is
   * loopback or blocked.
   */
  lemma CoverageCompleteExactlyWhen(socket: CoverageState, exposures: seq<BindExposure>,
                                    policies: seq<Option<Assessment>>, reached: seq<Reach>)
    requires |exposures| == |policies| == |reached|
    requires forall i :: 0 <= i < |reached| ==> reached[i] == AssessReachability(exposures[i], [], policies[i])
    ensures ReachabilityCoverage(socket, reached) == CoverageComplete <==>
      socket == CoverageComplete
      && forall i :: 0 <= i < |reached| ==> exposures[i] == Loopback || reached[i].state == BlockedByObservedPolicy
  {
    hide Unrepeated;
    forall i | 0 <= i < |reached|
      ensures Conclusive(reached[i].state) <==> exposures[i] == Loopback || reached[i].state == BlockedByObservedPolicy
    {
      assert reached[i] == AssessReachability(exposures[i], [], policies[i]);
    }
    forall i | 0 <= i < |reached| ensures reached[i] in reached {}
  }

  // ----- report form

  /** The text of a closed vocabulary: a known value's text, or some other text. */
  datatype Token<T> = Known(value: T) | Other(text: string)

  datatype PolicyMapping = PolicyMapping(
    applicability: Token<Applicability>,
    defaultPolicy: Token<DefaultPolicy>,
    basis: seq<Token<PolicyBasis>>,
    digests: seq<string>,
    collection: Token<CoverageState>,
    coverage: Token<CoverageState>,
    disposition: Option<Token<Disposition>>)

  /** Schemas 1.6 and 1.7 carry policy assessments; others do not. */
  datatype PolicySchema = Schema16 | Schema17 | OtherSchema

  function Tokens<T>(s: seq<T>): seq<Token<T>> {
    seq(|s|, i requires 0 <= i < |s| => Known(s[i]))
  }

  function Digests(ms: seq<RuleMatch>): seq<string> {
    if ms == [] then [] else (if ms[0].condition != NoMatch then [ms[0].id] else []) + Digests(ms[1..])
  }

  function WritePolicy(a: Assessment): PolicyMapping {
    PolicyMapping(Known(a.applicability), Known(a.defaultPolicy), Tokens(a.basis), Digests(a.matches),
                  Known(a.collection), Known(a.coverage), Some(Known(a.disposition)))
  }

  predicate AllKnown<T(!new)>(s: seq<Token<T>>) {
    forall i :: 0 <= i < |s| ==> s[i].Known?
  }

  function Values<T(!new)>(s: seq<Token<T>>): seq<T>
    requires AllKnown(s)
  {
    seq(|s|, i requires 0 <= i < |s| => s[i].value)
  }

  /** The match a digest stands for once the details are forgotten. */
  function ReadMatch(digest: string, a: Applicability): RuleMatch {
    RuleMatch(digest, if a == MatchingBlock then Block else Allow, Match, a == MatchingBlock)
  }

  function ReadMatches(digests: seq<string>, a: Applicability,
                       digestOf: string -> Option<string>): Option<seq<RuleMatch>>
  {
    if digests == [] then Some([])
    else
      var first := digestOf(digests[0]);
      var rest := ReadMatches(digests[1..], a, digestOf);
      if first.None? || rest.None? then None else Some([ReadMatch(first.value, a)] + rest.value)
  }

  /** What the reader takes as disposition: fixed for 1.6, required for 1.7. */
  function ReadDisposition(m: PolicyMapping, schema: PolicySchema): Option<Disposition> {
    match schema
    case Schema16 => if m.disposition.None? then Some(NotEstablished) else None
    case Schema17 => if m.disposition.Some? && m.disposition.value.Known? then Some(m.disposition.value.value) else None
    case OtherSchema => None
  }

  /** None is a rejected mapping. digestOf canonicalises a digest, or rejects it. */
  ghost function ReadPolicy(m: PolicyMapping, schema: PolicySchema,
                            digestOf: string -> Option<string>): Option<Assessment>
  {
    var disposition := ReadDisposition(m, schema);
    if disposition.None? || !m.applicability.Known? || !m.defaultPolicy.Known? || !AllKnown(m.basis)
       || !m.collection.Known? || !m.coverage.Known? then None
    else
      var matches := ReadMatches(m.digests, m.applicability.value, digestOf);
      if matches.None? then None
      else
        var a := Assessment(m.applicability.value, m.defaultPolicy.value, Sort(matches.value, MatchLe), Values(m.basis),
                            m.collection.value, m.coverage.value, disposition.value);
        if ValidAssessment(a) then Some(a) else None
  }

  /** Canonical digests are kept. */
  ghost predicate CanonicalIds(a: Assessment, digestOf: string -> Option<string>) {
    forall m :: m in a.matches ==> digestOf(m.id) == Some(m.id)
  }

  /** The assessment with its match details forgotten. */
  function Forgotten(a: Assessment): Assessment {
    a.(matches := ForgottenMatches(a.matches, a.applicability))
  }

  function ForgottenMatches(ms: seq<RuleMatch>, a: Applicability): seq<RuleMatch> {
    if ms == [] then []
    else (if ms[0].condition != NoMatch then [ReadMatch(ms[0].id, a)] else []) + ForgottenMatches(ms[1..], a)
  }

  lemma {:induction false} ReadsDigests(ms: seq<RuleMatch>, a: Applicability, digestOf: string -> Option<string>)
    requires forall m :: m in ms ==> digestOf(m.id) == Some(m.id)
    ensures ReadMatches(Digests(ms), a, digestOf) == Some(ForgottenMatches(ms, a))
  {
    if ms != [] {
      assert ms == [ms[0]] + ms[1..];
      ReadsDigests(ms[1..], a, digestOf);
      if ms[0].condition != NoMatch {
        assert Digests(ms)[1..] == Digests(ms[1..]);
      } else {
        assert Digests(ms) == Digests(ms[1..]) && ForgottenMatches(ms, a) == ForgottenMatches(ms[1..], a);
      }
    }
  }

  lemma {:induction false} ForgottenFacts(ms: seq<RuleMatch>, a: Applicability)
    ensures Digests(ForgottenMatches(ms, a)) == Digests(ms)
    ensures |ForgottenMatches(ms, a)| <= |ms|
    ensures forall m :: m in ForgottenMatches(ms, a) ==>
      m == ReadMatch(m.id, a) && exists k :: k in ms && k.id == m.id
    ensures (forall m :: m in ms ==> m.condition != NoMatch) ==> |ForgottenMatches(ms, a)| == |ms|
  {
    if ms != [] {
      ForgottenFacts(ms[1..], a);
      assert ms == [ms[0]] + ms[1..];
      var rest := ForgottenMatches(ms[1..], a);
      if ms[0].condition != NoMatch {
        assert ForgottenMatches(ms, a)[1..] == rest;
        assert ms[0] in ms;
      } else {
        assert ForgottenMatches(ms, a) == rest && Digests(ms) == Digests(ms[1..]);
      }
      forall m | m in rest ensures exists k :: k in ms && k.id == m.id {
        var k :| k in ms[1..] && k.id == m.id;
        assert k in ms;
      }
    }
  }

  /** Sorted by id, no id twice. */
  ghost predicate Ascending(ms: seq<RuleMatch>) {
    forall i, j :: 0 <= i < j < |ms| ==> ms[i].id != ms[j].id && StrLe(ms[i].id, ms[j].id)
  }

  lemma AscendingMeans(ms: seq<RuleMatch>)
    ensures Ascending(ms) <==> Sorted(ms, MatchLe) && MatchIdsDistinct(ms)
  {
    hide StrLe;
    if Ascending(ms) {
      assert forall i, j :: 0 <= i < j < |ms| ==> MatchLe(ms[i], ms[j]);
    }
    if Sorted(ms, MatchLe) && MatchIdsDistinct(ms) {
      forall i, j | 0 <= i < j < |ms| ensures StrLe(ms[i].id, ms[j].id) { assert MatchLe(ms[i], ms[j]); }
    }
  }

  lemma {:induction false} ForgottenAscends(ms: seq<RuleMatch>, a: Applicability)
    requires Ascending(ms)
    ensures Ascending(ForgottenMatches(ms, a))
  {
    hide StrLe, ForgottenMatches;
    if ms == [] {
      ForgottenOfNone(a);
    } else {
      ForgottenAscends(ms[1..], a);
      ForgottenFacts(ms[1..], a);
      var rest := ForgottenMatches(ms[1..], a);
      forall m | m in rest ensures ms[0].id != m.id && StrLe(ms[0].id, m.id) {
        var k :| k in ms[1..] && k.id == m.id;
        var i :| 0 <= i < |ms[1..]| && ms[1..][i] == k;
        assert ms[i + 1] == k;
      }
      ForgottenUnfolds(ms, a);
    }
  }

  lemma ForgottenOfNone(a: Applicability)
    ensures ForgottenMatches([], a) == []
  {
  }

  lemma ForgottenUnfolds(ms: seq<RuleMatch>, a: Applicability)
    requires ms != []
    ensures ForgottenMatches(ms, a)
      == (if ms[0].condition != NoMatch then [ReadMatch(ms[0].id, a)] else []) + ForgottenMatches(ms[1..], a)
  {
  }

  lemma ForgottenStaysSorted(ms: seq<RuleMatch>, a: Applicability)
    requires Sorted(ms, MatchLe) && MatchIdsDistinct(ms)
    ensures Sorted(ForgottenMatches(ms, a), MatchLe) && MatchIdsDistinct(ForgottenMatches(ms, a))
  {
    AscendingMeans(ms);
    ForgottenAscends(ms, a);
    AscendingMeans(ForgottenMatches(ms, a));
  }

  lemma SortedMatchesStay(ms: seq<RuleMatch>)
    requires Sorted(ms, MatchLe)
    ensures Sort(ms, MatchLe) == ms
  {
    StrLeIsTotal();
    assert forall x, y :: x in ms && y in ms ==> MatchLe(x, y) || MatchLe(y, x) by { hide StrLe; }
    assert forall x :: x in ms ==> MatchLe(x, x) by { hide StrLe; }
    SortedStays(ms, MatchLe);
  }

  lemma ForgottenIsValid(a: Assessment)
    requires ValidAssessment(a)
    ensures ValidAssessment(Forgotten(a))
  {
    hide MatchLe;
    ForgottenFacts(a.matches, a.applicability);
    ForgottenStaysSorted(a.matches, a.applicability);
    hide ForgottenMatches, Digests;
    if a.applicability == MatchingBlock || a.applicability == MatchingAllow {
      assert forall m :: m in a.matches ==> m.condition != NoMatch;
    }
  }

  lemma TokensBack<T(!new)>(s: seq<T>)
    ensures AllKnown(Tokens(s)) && Values(Tokens(s)) == s
  {
  }

  lemma WrittenIsReadBack(a: Assessment, digestOf: string -> Option<string>)
    requires ValidAssessment(a) && CanonicalIds(a, digestOf)
    ensures ReadPolicy(WritePolicy(a), Schema17, digestOf) == Some(Forgotten(a))
  {
    ForgottenIsValid(a);
    ForgottenStaysSorted(a.matches, a.applicability);
    hide ReadMatches, Digests, Sort, MatchLe, Tokens, ValidAssessment, Sorted, ForgottenMatches;
    ReadsDigests(a.matches, a.applicability, digestOf);
    SortedMatchesStay(ForgottenMatches(a.matches, a.applicability));
    TokensBack(a.basis);
  }

  /** Writing, reading and writing a valid assessment: only the match details are forgotten. */
  lemma PolicyRoundTrip(a: Assessment, digestOf: string -> Option<string>)
    requires ValidAssessment(a) && CanonicalIds(a, digestOf)
    ensures ReadPolicy(WritePolicy(a), Schema17, digestOf) == Some(Forgotten(a))
    ensures WritePolicy(Forgotten(a)) == WritePolicy(a)
    ensures ReadPolicy(WritePolicy(a), Schema17, digestOf) == Some(a) <==>
      forall m :: m in a.matches ==> m == ReadMatch(m.id, a.applicability)
  {
    hide ReadPolicy, Digests, Tokens, ValidAssessment, ForgottenMatches;
    WrittenIsReadBack(a, digestOf);
    ForgottenFacts(a.matches, a.applicability);
    if forall m :: m in a.matches ==> m == ReadMatch(m.id, a.applicability) {
      NothingToForget(a.matches, a.applicability);
    }
  }

  lemma {:induction false} NothingToForget(ms: seq<RuleMatch>, a: Applicability)
    requires forall m :: m in ms ==> m == ReadMatch(m.id, a)
    ensures ForgottenMatches(ms, a) == ms
  {
    if ms != [] {
      assert ms == [ms[0]] + ms[1..];
      assert ms[0] in ms;
      NothingToForget(ms[1..], a);
    }
  }

  lemma {:induction false} ReadMatchesAreCanonical(digests: seq<string>, a: Applicability,
                                                   digestOf: string -> Option<string>)
    requires ReadMatches(digests, a, digestOf).Some?
    ensures forall m :: m in ReadMatches(digests, a, digestOf).value ==>
      m == ReadMatch(m.id, a) && exists d :: digestOf(d) == Some(m.id)
  {
    if digests != [] {
      ReadMatchesAreCanonical(digests[1..], a, digestOf);
    }
  }

  /** What has been read once is read back unchanged ever after. */
  lemma ReadIsStable(m: PolicyMapping, schema: PolicySchema, digestOf: string -> Option<string>)
    requires forall d :: digestOf(d).Some? ==> digestOf(digestOf(d).value) == digestOf(d)
    requires ReadPolicy(m, schema, digestOf).Some?
    ensures ReadPolicy(WritePolicy(ReadPolicy(m, schema, digestOf).value), Schema17, digestOf)
      == ReadPolicy(m, schema, digestOf)
  {
    var b := ReadPolicy(m, schema, digestOf).value;
    var ms := ReadMatches(m.digests, m.applicability.value, digestOf).value;
    ReadMatchesAreCanonical(m.digests, m.applicability.value, digestOf);
    SortIsPermutation(ms, MatchLe);
    hide Sort, MatchLe, ValidAssessment, ReadMatches, WritePolicy;
    forall k | k in b.matches ensures k == ReadMatch(k.id, b.applicability) && digestOf(k.id) == Some(k.id) {
      assert k in ms;
      var d :| digestOf(d) == Some(k.id);
    }
    PolicyRoundTrip(b, digestOf);
  }

  datatype ReachMapping = ReachMapping(
    exposure: Token<BindExposure>,
    bindRole: string,
    state: Token<RemoteReachabilityState>,
    stateRole: string,
    basis: seq<Token<ReachabilityBasis>>,
    policy: Option<PolicyMapping>)

  const OBSERVED_FACT := "OBSERVED_FACT"
  const DETERMINISTIC_DERIVATION := "DETERMINISTIC_DERIVATION"

  function WriteReach(r: Reach): ReachMapping {
    ReachMapping(Known(r.exposure), OBSERVED_FACT, Known(r.state), DETERMINISTIC_DERIVATION, Tokens(r.basis),
                 if r.policy.Some? then Some(WritePolicy(r.policy.value)) else None)
  }

  ghost function ReadReach(m: ReachMapping, schema: PolicySchema, digestOf: string -> Option<string>): Option<Reach> {
    if m.bindRole != OBSERVED_FACT || m.stateRole != DETERMINISTIC_DERIVATION
       || !m.exposure.Known? || !m.state.Known? || !AllKnown(m.basis) then None
    else if m.policy.None? then
      var r := Reach(m.exposure.value, m.state.value, Values(m.basis), None);
      if ValidReach(r) then Some(r) else None
    else
      var policy := ReadPolicy(m.policy.value, schema, digestOf);
      if policy.None? then None
      else
        var r := Reach(m.exposure.value, m.state.value, Values(m.basis), policy);
        if ValidReach(r) then Some(r) else None
  }

  /** Every valid reachability assessment survives a schema 1.7 report up to match details. */
  lemma ReachRoundTrip(r: Reach, digestOf: string -> Option<string>)
    requires ValidReach(r) && (r.policy.Some? ==> CanonicalIds(r.policy.value, digestOf))
    ensures ReadReach(WriteReach(r), Schema17, digestOf).Some?
    ensures var back := ReadReach(WriteReach(r), Schema17, digestOf).value;
      && WriteReach(back) == WriteReach(r)
      && back.state == r.state && back.exposure == r.exposure && back.basis == r.basis
      && (r.policy.None? ==> back == r)
  {
    TokensBack(r.basis);
    if r.policy.Some? {
      PolicyRoundTrip(r.policy.value, digestOf);
      ForgottenIsValid(r.policy.value);
    }
    hide ReadPolicy, WritePolicy, ValidAssessment, Forgotten, Tokens, Values, AllKnown;
  }
}
