/** What a rule means for a listener: each condition on its own, and the rule as their conjunction. */
module FirewallRules {
  import opened Common
  import opened Orders
  import opened Vocabulary
  import opened FirewallContracts
  import opened FirewallPolicy

  /** The independent conditions of a rule. */
  datatype Condition =
    | OnEnablement
    | OnDirection
    | OnProfile
    | OnProtocol
    | OnPort
    | OnAddress
    | OnRemote
    | OnApplication
    | OnInterface
    | OnUnsupported

  /** A rule of this action that applies to everyone. */
  function Open(rule: Rule): Rule {
    Rule(rule.id, rule.technology, Enabled, Inbound, rule.action, [], None, [], [], [], AnyApplication,
         InterfaceCondition(AnyInterface, ""), None, [], [])
  }

  /** The rule with one of its conditions only. */
  function Only(rule: Rule, c: Condition): Rule {
    var open := Open(rule);
    match c
    case OnEnablement => open.(enabled := rule.enabled)
    case OnDirection => open.(direction := rule.direction)
    case OnProfile => open.(profiles := rule.profiles)
    case OnProtocol => open.(protocol := rule.protocol)
    case OnPort => open.(localPorts := rule.localPorts)
    case OnAddress => open.(localAddresses := rule.localAddresses)
    case OnRemote => open.(remoteAddresses := rule.remoteAddresses)
    case OnApplication => open.(application := rule.application)
    case OnInterface => open.(interface := rule.interface)
    case OnUnsupported => open.(unsupported := rule.unsupported)
  }

  function Sure(rule: Rule): Option<RuleMatch> {
    Some(RuleMatch(rule.id, rule.action, Match, true))
  }

  function Doubtful(rule: Rule): Option<RuleMatch> {
    Some(RuleMatch(rule.id, rule.action, Indeterminate, false))
  }

  /** A rule applies for sure, is in doubt, or is ruled out. */
  lemma ThreeOutcomes(rule: Rule, s: Subject)
    ensures MatchOf(rule, s) ==
      if Excluded(rule, s) then None else if Causes(rule, s) == {} then Sure(rule) else Doubtful(rule)
  {
    if MatchOf(rule, s).Some? && MatchOf(rule, s).value.condition == Match { DefiniteIsUniversal(rule, s); }
    hide Excluded, Causes, RemoteIsAny;
  }

  lemma NoCauses(rule: Rule, s: Subject)
    requires forall c :: c in CAUSES ==> !Unsure(rule, s, c)
    ensures Causes(rule, s) == {}
  {
    hide Unsure;
  }

  lemma SomeCause(rule: Rule, s: Subject, c: Cause)
    requires Unsure(rule, s, c)
    ensures Causes(rule, s) != {}
  {
    EveryCauseIsListed(c);
    assert c in Causes(rule, s) by { hide Unsure; }
  }

  lemma EveryCauseIsListed(c: Cause)
    ensures c in CAUSES
  {
    var i := match c
      case InterfaceUncertainty => 0
      case MissingApplicationIdentity => 1
      case MissingServiceIdentity => 2
      case OtherClosedIndeterminate => 3
      case ProfileUncertainty => 4
      case RemoteAddressUncertainty => 5
      case TypedRangeOrParseUncertainty => 6
      case UnknownEnablementOrState => 7
      case UnsupportedFeatureCause => 8;
    assert CAUSES[i] == c;
  }

  // ----- single conditions

  /** Disabled rules never apply; of others it must be known that they are enabled. */
  lemma EnablementDecides(rule: Rule, s: Subject)
    ensures MatchOf(Only(rule, OnEnablement), s)
      == if rule.enabled == Disabled then None else if rule.enabled == Enabled then Sure(rule) else Doubtful(rule)
  {
    var only := Only(rule, OnEnablement);
    ThreeOutcomes(only, s);
    if rule.enabled == UnknownEnablement { SomeCause(only, s, UnknownEnablementOrState); }
    if rule.enabled == Enabled { NoCauses(only, s); }
    hide MatchOf, Causes;
  }

  lemma DirectionDecides(rule: Rule, s: Subject)
    ensures MatchOf(Only(rule, OnDirection), s) == if rule.direction == Inbound then Sure(rule) else None
  {
    ThreeOutcomes(Only(rule, OnDirection), s);
    NoCauses(Only(rule, OnDirection), s);
    hide MatchOf, Causes;
  }

  /** A rule for some profiles applies where the listener has one of them, and is in doubt where it has none known. */
  lemma ProfileDecides(rule: Rule, s: Subject)
    ensures MatchOf(Only(rule, OnProfile), s)
      == if rule.profiles == [] || (exists p :: p in rule.profiles && p in s.profiles) then Sure(rule)
         else if s.profiles == [] then Doubtful(rule)
         else None
  {
    var only := Only(rule, OnProfile);
    ThreeOutcomes(only, s);
    if rule.profiles != [] && s.profiles == [] { SomeCause(only, s, ProfileUncertainty); } else { NoCauses(only, s); }
    hide MatchOf, Causes;
  }

  lemma ProtocolDecides(rule: Rule, s: Subject)
    ensures MatchOf(Only(rule, OnProtocol), s)
      == if rule.protocol == None || rule.protocol == Some(s.protocol) then Sure(rule) else None
  {
    ThreeOutcomes(Only(rule, OnProtocol), s);
    NoCauses(Only(rule, OnProtocol), s);
    hide MatchOf, Causes;
  }

  /** The ports of a list of ranges, both ends in. */
  ghost predicate Covers(ranges: seq<PortRange>, port: nat) {
    exists r :: r in ranges && r.start <= port && port <= r.end
  }

  /** A rule for some ports applies exactly to the listeners on one of them. */
  lemma PortDecides(rule: Rule, s: Subject)
    ensures MatchOf(Only(rule, OnPort), s)
      == if rule.localPorts == [] || Covers(rule.localPorts, s.port) then Sure(rule) else None
  {
    ThreeOutcomes(Only(rule, OnPort), s);
    NoCauses(Only(rule, OnPort), s);
    hide MatchOf, Causes;
  }

  /** The addresses a condition names; ranges are never decided. */
  ghost predicate Contains(c: AddressCondition, a: Address) {
    match c
    case AnyAddress => true
    case Exact(b) => a == b
    case Cidr(first, last) => (a.V4? <==> first.V4?) && first.bits <= a.bits && a.bits <= last.bits
    case LoopbackScope => if a.V4? then 0x7F00_0000 <= a.bits <= 0x7FFF_FFFF else a.bits == 1
    case LocalSubnetScope => false
    case V4Range(_, _) => false
    case V6Range(_, _) => false
  }

  predicate IsRange(c: AddressCondition) {
    c.V4Range? || c.V6Range?
  }

  lemma MatchIsContained(c: AddressCondition, a: Address)
    ensures AddressMatches(c, a) == Match <==> Contains(c, a)
    ensures AddressMatches(c, a) == Indeterminate <==> IsRange(c)
  {
  }

  /** A rule for some addresses applies where one contains the listener's, and is in doubt over a range otherwise. */
  lemma AddressDecides(rule: Rule, s: Subject)
    ensures MatchOf(Only(rule, OnAddress), s)
      == if rule.localAddresses == [] then Sure(rule)
         else if exists c :: c in rule.localAddresses && Contains(c, s.address) then Sure(rule)
         else if exists c :: c in rule.localAddresses && IsRange(c) then Doubtful(rule)
         else None
  {
    var only := Only(rule, OnAddress);
    ThreeOutcomes(only, s);
    forall c { MatchIsContained(c, s.address); }
    hide AddressMatches, Contains, IsRange;
    if Unsure(only, s, TypedRangeOrParseUncertainty) {
      SomeCause(only, s, TypedRangeOrParseUncertainty);
    } else {
      NoCauses(only, s);
    }
    hide MatchOf, Causes;
  }

  /** A rule restricted to some remote addresses is never certain. */
  lemma RemoteDecides(rule: Rule, s: Subject)
    ensures MatchOf(Only(rule, OnRemote), s)
      == if forall c :: c in rule.remoteAddresses ==> c == AnyAddress then Sure(rule) else Doubtful(rule)
  {
    var only := Only(rule, OnRemote);
    ThreeOutcomes(only, s);
    if RemoteIsAny(only) { NoCauses(only, s); } else { SomeCause(only, s, RemoteAddressUncertainty); }
    hide MatchOf, Causes;
  }

  /** A rule for one program applies to that program alone, and is in doubt where the program is unknown. */
  lemma ApplicationDecides(rule: Rule, s: Subject)
    ensures MatchOf(Only(rule, OnApplication), s)
      == match rule.application
         case AnyApplication => Sure(rule)
         case ApplicationDigest(digest) =>
           if s.applicationDigest == None then Doubtful(rule)
           else if s.applicationDigest == Some(digest) then Sure(rule) else None
         case ServiceIdentity(identity) =>
           if s.serviceIdentity == None then Doubtful(rule)
           else if s.serviceIdentity == Some(identity) then Sure(rule) else None
  {
    var only := Only(rule, OnApplication);
    ThreeOutcomes(only, s);
    if rule.application.ApplicationDigest? && s.applicationDigest == None {
      SomeCause(only, s, MissingApplicationIdentity);
    } else if rule.application.ServiceIdentity? && s.serviceIdentity == None {
      SomeCause(only, s, MissingServiceIdentity);
    } else {
      NoCauses(only, s);
    }
    hide MatchOf, Causes;
  }

  /** A rule for one interface or type of interface applies there alone, and is in doubt where it is unknown. */
  lemma InterfaceDecides(rule: Rule, s: Subject)
    ensures MatchOf(Only(rule, OnInterface), s)
      == if rule.interface.kind == AnyInterface then Sure(rule)
         else if rule.interface.kind == InterfaceDigest then
           if s.interfaceDigest == None then Doubtful(rule)
           else if s.interfaceDigest == Some(rule.interface.value) then Sure(rule) else None
         else
           if s.interface == None then Doubtful(rule)
           else if s.interface == Some(rule.interface.kind) then Sure(rule) else None
  {
    var only := Only(rule, OnInterface);
    ThreeOutcomes(only, s);
    if Unsure(only, s, InterfaceUncertainty) { SomeCause(only, s, InterfaceUncertainty); } else { NoCauses(only, s); }
    hide MatchOf, Causes;
  }

  lemma UnsupportedDecides(rule: Rule, s: Subject)
    ensures MatchOf(Only(rule, OnUnsupported), s) == if rule.unsupported == [] then Sure(rule) else Doubtful(rule)
  {
    var only := Only(rule, OnUnsupported);
    ThreeOutcomes(only, s);
    if rule.unsupported == [] { NoCauses(only, s); } else { SomeCause(only, s, UnsupportedFeatureCause); }
    hide MatchOf, Causes;
  }

  // ----- the rule as the conjunction of its conditions

  ghost predicate RuledOutBy(rule: Rule, s: Subject, c: Condition) {
    MatchOf(Only(rule, c), s) == None
  }

  ghost predicate InDoubtOver(rule: Rule, s: Subject, c: Condition) {
    MatchOf(Only(rule, c), s) == Doubtful(rule)
  }

  lemma ExcludedByOne(rule: Rule, s: Subject)
    ensures Excluded(rule, s) <==> exists c :: Excluded(Only(rule, c), s)
  {
    forall c ensures Excluded(Only(rule, c), s) ==> Excluded(rule, s) {
      hide OutsidePorts, OutsideAddresses, Disjoint;
    }
    if Excluded(rule, s) {
      var c := ExcludingCondition(rule, s);
    }
    hide Excluded, Only;
  }

  lemma ExcludingCondition(rule: Rule, s: Subject) returns (c: Condition)
    requires Excluded(rule, s)
    ensures Excluded(Only(rule, c), s)
  {
    hide OutsidePorts, OutsideAddresses, Disjoint;
    c := if rule.enabled == Disabled then OnEnablement
      else if rule.direction != Inbound then OnDirection
      else if rule.profiles != [] && s.profiles != [] && Disjoint(rule.profiles, s.profiles) then OnProfile
      else if rule.protocol.Some? && rule.protocol.value != s.protocol then OnProtocol
      else if rule.localPorts != [] && OutsidePorts(rule.localPorts, s.port) then OnPort
      else if rule.localAddresses != [] && OutsideAddresses(rule.localAddresses, s.address) then OnAddress
      else if !rule.application.AnyApplication? && Excluded(Only(rule, OnApplication), s) then OnApplication
      else OnInterface;
  }

  lemma UnsureOverOne(rule: Rule, s: Subject, cause: Cause)
    ensures Unsure(rule, s, cause) <==> exists c :: Unsure(Only(rule, c), s, cause)
  {
    hide AddressMatches, RemoteIsAny;
    RemoteOfOpen(rule);
    forall c ensures Unsure(Only(rule, c), s, cause) ==> Unsure(rule, s, cause) {
    }
    if Unsure(rule, s, cause) {
      var c := match cause
        case InterfaceUncertainty => OnInterface
        case MissingApplicationIdentity => OnApplication
        case MissingServiceIdentity => OnApplication
        case OtherClosedIndeterminate => OnUnsupported
        case ProfileUncertainty => OnProfile
        case RemoteAddressUncertainty => OnRemote
        case TypedRangeOrParseUncertainty => OnAddress
        case UnknownEnablementOrState => OnEnablement
        case UnsupportedFeatureCause => OnUnsupported;
      assert Unsure(Only(rule, c), s, cause);
    }
  }

  lemma RemoteOfOpen(rule: Rule)
    ensures forall c :: RemoteIsAny(Only(rule, c)) <==> (c != OnRemote || RemoteIsAny(rule))
  {
  }

  lemma DoubtOverOne(rule: Rule, s: Subject)
    ensures Causes(rule, s) != {} <==> exists c :: Causes(Only(rule, c), s) != {}
  {
    if Causes(rule, s) != {} {
      var cause :| cause in Causes(rule, s);
      UnsureOverOne(rule, s, cause);
      var c :| Unsure(Only(rule, c), s, cause);
      hide Unsure;
      SomeCause(Only(rule, c), s, cause);
    }
    if c :| Causes(Only(rule, c), s) != {} {
      var cause :| cause in Causes(Only(rule, c), s);
      UnsureOverOne(rule, s, cause);
      hide Unsure;
      SomeCause(rule, s, cause);
    }
  }

  /**
   * A rule is ruled out exactly if one of its conditions rules it out, in doubt if none does and
   * it is in doubt over one, and applies for sure otherwise.
   */
  lemma RuleIsItsConditions(rule: Rule, s: Subject)
    ensures MatchOf(rule, s)
      == if exists c :: RuledOutBy(rule, s, c) then None
         else if exists c :: InDoubtOver(rule, s, c) then Doubtful(rule)
         else Sure(rule)
  {
    ThreeOutcomes(rule, s);
    ExcludedByOne(rule, s);
    DoubtOverOne(rule, s);
    forall c ensures RuledOutBy(rule, s, c) <==> Excluded(Only(rule, c), s)
      ensures InDoubtOver(rule, s, c) <==> !Excluded(Only(rule, c), s) && Causes(Only(rule, c), s) != {}
    {
      ThreeOutcomes(Only(rule, c), s);
      SameName(rule, c);
      hide MatchOf, Excluded, Causes, Only;
    }
    hide MatchOf, Excluded, Causes, Only, RuledOutBy, InDoubtOver;
  }

  lemma SameName(rule: Rule, c: Condition)
    ensures Only(rule, c).id == rule.id && Only(rule, c).action == rule.action
  {
  }

  /** Splitting a port range, joining ranges, or any other change that keeps the ports keeps the match. */
  lemma OnlyPortsMatter(rule: Rule, ranges: seq<PortRange>, s: Subject)
    requires rule.localPorts != [] && ranges != []
    requires Covers(rule.localPorts, s.port) <==> Covers(ranges, s.port)
    ensures MatchOf(rule.(localPorts := ranges), s) == MatchOf(rule, s)
  {
    var other := rule.(localPorts := ranges);
    forall c { SameOutcome(rule, ranges, s, c); }
    hide MatchOf, RuledOutBy, InDoubtOver, Covers;
    RuleIsItsConditions(rule, s);
    RuleIsItsConditions(other, s);
  }

  lemma SameOutcome(rule: Rule, ranges: seq<PortRange>, s: Subject, c: Condition)
    requires rule.localPorts != [] && ranges != []
    requires Covers(rule.localPorts, s.port) <==> Covers(ranges, s.port)
    ensures RuledOutBy(rule.(localPorts := ranges), s, c) <==> RuledOutBy(rule, s, c)
    ensures InDoubtOver(rule.(localPorts := ranges), s, c) <==> InDoubtOver(rule, s, c)
  {
    var other := rule.(localPorts := ranges);
    PortDecides(rule, s);
    PortDecides(other, s);
    hide MatchOf, Covers;
    if c == OnPort {
      hide Only;
    } else {
      assert Only(other, c) == Only(rule, c);
      hide Only;
    }
  }

  lemma SplitCovers(before: seq<PortRange>, a: nat, b: nat, c: nat, after: seq<PortRange>, port: nat)
    requires a <= b < c
    ensures Covers(before + [PortRange(a, c)] + after, port)
      <==> Covers(before + [PortRange(a, b), PortRange(b + 1, c)] + after, port)
  {
    var whole, parts := PortRange(a, c), [PortRange(a, b), PortRange(b + 1, c)];
    assert whole in before + [whole] + after;
    assert parts[0] in before + parts + after && parts[1] in before + parts + after;
  }

  /** Writing a port range as two adjoining ones never changes whether the rule applies. */
  lemma SplittingARangeChangesNothing(rule: Rule, before: seq<PortRange>, a: nat, b: nat, c: nat, after: seq<PortRange>,
                                      s: Subject)
    requires a <= b < c && rule.localPorts == before + [PortRange(a, c)] + after
    ensures MatchOf(rule.(localPorts := before + [PortRange(a, b), PortRange(b + 1, c)] + after), s) == MatchOf(rule, s)
  {
    SplitCovers(before, a, b, c, after, s.port);
    hide MatchOf, Covers;
    OnlyPortsMatter(rule, before + [PortRange(a, b), PortRange(b + 1, c)] + after, s);
  }

  // ----- what rules a rule out and what leaves it in doubt, in the terms of the rule itself

  /** The listener is known not to meet the condition. */
  ghost predicate Unmet(rule: Rule, s: Subject, c: Condition) {
    match c
    case OnEnablement => rule.enabled == Disabled
    case OnDirection => rule.direction == Outbound
    case OnProfile => rule.profiles != [] && s.profiles != [] && !exists p :: p in rule.profiles && p in s.profiles
    case OnProtocol => exists p :: rule.protocol == Some(p) && p != s.protocol
    case OnPort => rule.localPorts != [] && !Covers(rule.localPorts, s.port)
    case OnAddress =>
      rule.localAddresses != [] && !exists a :: a in rule.localAddresses && (Contains(a, s.address) || IsRange(a))
    case OnRemote => false
    case OnApplication =>
      (match rule.application
       case AnyApplication => false
       case ApplicationDigest(digest) => exists d :: s.applicationDigest == Some(d) && d != digest
       case ServiceIdentity(identity) => exists i :: s.serviceIdentity == Some(i) && i != identity)
    case OnUnsupported => false
    case OnInterface =>
      match rule.interface.kind
      case AnyInterface => false
      case InterfaceDigest => exists d :: s.interfaceDigest == Some(d) && d != rule.interface.value
      case kind => exists k :: s.interface == Some(k) && k != kind
  }

  /** Whether the listener meets the condition is not known. */
  ghost predicate Unknown(rule: Rule, s: Subject, c: Condition) {
    match c
    case OnEnablement => rule.enabled == UnknownEnablement
    case OnDirection => false
    case OnProfile => rule.profiles != [] && s.profiles == []
    case OnProtocol => false
    case OnPort => false
    case OnAddress =>
      && (exists a :: a in rule.localAddresses && IsRange(a))
      && !exists a :: a in rule.localAddresses && Contains(a, s.address)
    case OnRemote => exists a :: a in rule.remoteAddresses && a != AnyAddress
    case OnApplication =>
      || (rule.application.ApplicationDigest? && s.applicationDigest == None)
      || (rule.application.ServiceIdentity? && s.serviceIdentity == None)
    case OnUnsupported => rule.unsupported != []
    case OnInterface =>
      match rule.interface.kind
      case AnyInterface => false
      case InterfaceDigest => s.interfaceDigest == None
      case _ => s.interface == None
  }

  lemma ConditionIsItsTerms(rule: Rule, s: Subject, c: Condition)
    ensures RuledOutBy(rule, s, c) <==> Unmet(rule, s, c)
    ensures InDoubtOver(rule, s, c) <==> Unknown(rule, s, c)
  {
    hide MatchOf, Only, Covers, Contains, IsRange;
    if c == OnApplication {
      ApplicationTerms(rule, s);
    } else if c == OnInterface {
      InterfaceTerms(rule, s);
    } else if c == OnAddress || c == OnPort || c == OnRemote {
      AddressDecides(rule, s);
      PortDecides(rule, s);
      RemoteDecides(rule, s);
    } else {
      EnablementDecides(rule, s);
      DirectionDecides(rule, s);
      ProfileDecides(rule, s);
      ProtocolDecides(rule, s);
      UnsupportedDecides(rule, s);
    }
  }

  lemma ApplicationTerms(rule: Rule, s: Subject)
    ensures RuledOutBy(rule, s, OnApplication) <==> Unmet(rule, s, OnApplication)
    ensures InDoubtOver(rule, s, OnApplication) <==> Unknown(rule, s, OnApplication)
  {
    ApplicationDecides(rule, s);
    hide MatchOf, Only;
  }

  lemma InterfaceTerms(rule: Rule, s: Subject)
    ensures RuledOutBy(rule, s, OnInterface) <==> Unmet(rule, s, OnInterface)
    ensures InDoubtOver(rule, s, OnInterface) <==> Unknown(rule, s, OnInterface)
  {
    InterfaceDecides(rule, s);
    hide MatchOf, Only;
  }

  /** Which rules apply for sure and which are in doubt, term by term. */
  lemma MatchesByTerms(rule: Rule, s: Subject)
    ensures MatchOf(rule, s)
      == if exists c :: Unmet(rule, s, c) then None
         else if exists c :: Unknown(rule, s, c) then Doubtful(rule)
         else Sure(rule)
  {
    RuleIsItsConditions(rule, s);
    forall c { ConditionIsItsTerms(rule, s, c); }
    hide MatchOf, RuledOutBy, InDoubtOver, Unmet, Unknown;
  }

  // ----- why a rule is in doubt

  /** Each cause names the condition that is in doubt. */
  lemma CausesNameConditions(rule: Rule, s: Subject, cause: Cause)
    ensures cause in Causes(rule, s) <==>
      match cause
      case InterfaceUncertainty => InDoubtOver(rule, s, OnInterface)
      case MissingApplicationIdentity => rule.application.ApplicationDigest? && InDoubtOver(rule, s, OnApplication)
      case MissingServiceIdentity => rule.application.ServiceIdentity? && InDoubtOver(rule, s, OnApplication)
      case OtherClosedIndeterminate => false
      case ProfileUncertainty => InDoubtOver(rule, s, OnProfile)
      case RemoteAddressUncertainty => InDoubtOver(rule, s, OnRemote)
      case TypedRangeOrParseUncertainty => InDoubtOver(rule, s, OnAddress)
      case UnknownEnablementOrState => InDoubtOver(rule, s, OnEnablement)
      case UnsupportedFeatureCause => InDoubtOver(rule, s, OnUnsupported)
  {
    EveryCauseIsListed(cause);
    CauseIsUnsure(rule, s, cause);
    EnablementDecides(rule, s);
    ProfileDecides(rule, s);
    AddressDecides(rule, s);
    RemoteDecides(rule, s);
    ApplicationDecides(rule, s);
    InterfaceDecides(rule, s);
    UnsupportedDecides(rule, s);
    forall c { MatchIsContained(c, s.address); }
    hide MatchOf, Causes, Excluded, AddressMatches, Contains, IsRange, Only;
  }

  lemma CauseIsUnsure(rule: Rule, s: Subject, cause: Cause)
    requires cause in CAUSES
    ensures cause in Causes(rule, s) <==> Unsure(rule, s, cause)
  {
    hide Unsure;
  }

  // ----- the verdict

  ghost function Applying(rules: seq<Rule>, s: Subject): set<RuleMatch> {
    set r | r in rules && MatchOf(r, s).Some? :: MatchOf(r, s).value
  }

  ghost predicate SomeInDoubt(ms: set<RuleMatch>) {
    exists m :: m in ms && m.condition == Indeterminate
  }

  ghost predicate SomeWith(ms: set<RuleMatch>, action: Action) {
    exists m :: m in ms && m.action == action
  }

  /** The verdict that the applying rules of a completely collected snapshot call for. */
  ghost predicate VerdictFits(v: Applicability, ms: set<RuleMatch>) {
    var undecided := |ms| > 16 || SomeInDoubt(ms);
    var allow, block := SomeWith(ms, Allow), SomeWith(ms, Block);
    && (v == Undecided <==> undecided)
    && (v == Conflicting <==> !undecided && allow && block)
    && (v == MatchingBlock <==> !undecided && block && !allow)
    && (v == MatchingAllow <==> !undecided && allow && !block)
    && (v == NothingMatches <==> !undecided && !allow && !block)
  }

  /** The evidence each verdict comes with. */
  predicate BasisFits(a: Assessment) {
    match a.applicability
    case MatchingBlock => a.basis == [ExplicitUniversalBlock] && a.coverage == CoverageComplete
    case MatchingAllow => a.basis == [ExplicitAllow] && a.coverage == CoverageComplete
    case NothingMatches => a.basis == [NoApplicableRule, DefaultPolicyContext] && a.coverage == CoverageComplete
    case Conflicting => a.basis == [PolicyConflict] && a.coverage == CoverageIncomplete
    case Undecided => a.basis == [PolicyEvaluationIncomplete] && a.coverage == CoverageIncomplete
    case _ => false
  }

  lemma ConcludeIs(ms: seq<RuleMatch>, default: DefaultPolicy)
    requires forall m :: m in ms ==> m.condition == Match || m.condition == Indeterminate
    requires forall m :: m in ms ==> m.condition == Match ==> m.universal
    requires MatchIdsDistinct(ms)
    ensures var a := Conclude(ms, CoverageComplete, default);
      && VerdictFits(a.applicability, Elems(ms)) && BasisFits(a)
      && a.matches == (if |ms| > 16 then [] else ms)
      && a.defaultPolicy == default && a.collection == CoverageComplete && a.disposition == NotEstablished
  {
    MatchIdsOfMembers(ms);
    DistinctLength(ms);
    ActionsMean(ms);
    DoubtMeans(ms);
    hide Distinct, MatchIdsDistinct, MatchLe, Separates, Actions, SomeWith, SomeInDoubt, Elems;
    ConclusionFollows(ms, default);
  }

  lemma DoubtMeans(ms: seq<RuleMatch>)
    requires forall m :: m in ms ==> m.condition == Match || m.condition == Indeterminate
    requires forall m :: m in ms ==> m.condition == Match ==> m.universal
    ensures SomeInDoubt(Elems(ms)) <==> exists m :: m in ms && m.condition == Indeterminate
    ensures !SomeInDoubt(Elems(ms)) ==> forall m :: m in ms ==> m.universal
  {
  }

  lemma ConclusionFollows(ms: seq<RuleMatch>, default: DefaultPolicy)
    requires |Elems(ms)| == |ms|
    requires SomeInDoubt(Elems(ms)) <==> exists m :: m in ms && m.condition == Indeterminate
    requires !SomeInDoubt(Elems(ms)) ==> forall m :: m in ms ==> m.universal
    requires Actions(ms) == {Allow, Block} <==> SomeWith(Elems(ms), Allow) && SomeWith(Elems(ms), Block)
    requires Actions(ms) == {Allow} <==> SomeWith(Elems(ms), Allow) && !SomeWith(Elems(ms), Block)
    requires Actions(ms) == {Block} <==> !SomeWith(Elems(ms), Allow) && SomeWith(Elems(ms), Block)
    requires Actions(ms) == {} <==> !SomeWith(Elems(ms), Allow) && !SomeWith(Elems(ms), Block)
    ensures var a := Conclude(ms, CoverageComplete, default);
      && VerdictFits(a.applicability, Elems(ms)) && BasisFits(a)
      && a.matches == (if |ms| > 16 then [] else ms)
      && a.defaultPolicy == default && a.collection == CoverageComplete && a.disposition == NotEstablished
  {
    hide Actions, SomeWith, SomeInDoubt, Elems;
  }

  lemma ActionsMean(ms: seq<RuleMatch>)
    ensures Actions(ms) == {Allow, Block} <==> SomeWith(Elems(ms), Allow) && SomeWith(Elems(ms), Block)
    ensures Actions(ms) == {Allow} <==> SomeWith(Elems(ms), Allow) && !SomeWith(Elems(ms), Block)
    ensures Actions(ms) == {Block} <==> !SomeWith(Elems(ms), Allow) && SomeWith(Elems(ms), Block)
    ensures Actions(ms) == {} <==> !SomeWith(Elems(ms), Allow) && !SomeWith(Elems(ms), Block)
  {
    ActionsAre(ms);
    assert Allow in Actions(ms) <==> SomeWith(Elems(ms), Allow);
    assert Block in Actions(ms) <==> SomeWith(Elems(ms), Block);
    hide Actions, SomeWith;
  }

  /** With complete collection the verdict, its matches and its evidence are those the applying rules call for. */
  lemma VerdictIs(s: Subject, rules: seq<Rule>, default: DefaultPolicy)
    requires |rules| <= 8192 && IdsDistinct(rules)
    ensures Evaluate(s, rules, CoverageComplete, default).Ok?
    ensures var a := Evaluate(s, rules, CoverageComplete, default).value;
      && VerdictFits(a.applicability, Applying(rules, s)) && BasisFits(a)
      && Elems(a.matches) == (if |Applying(rules, s)| > 16 then {} else Applying(rules, s))
      && a.defaultPolicy == default && a.collection == CoverageComplete && a.disposition == NotEstablished
  {
    RuleIdsMean(rules);
    var ms := Matches(rules, s);
    MatchIds(rules, s);
    SortedMatches(ms);
    MatchesMean(rules, s);
    var sorted := Sort(ms, MatchLe);
    forall m | m in sorted ensures m.condition == Match || m.condition == Indeterminate
      ensures m.condition == Match ==> m.universal
    {
      MatchKinds(rules, s, m);
    }
    hide Matches, MatchOf, Sort, MatchLe, RepeatsIdentity, Conclude, VerdictFits, BasisFits, MatchIdsDistinct,
      IdsDistinct,
      Sorted;
    assert Elems(sorted) == Applying(rules, s);
    MatchIdsOfMembers(sorted);
    DistinctLength(sorted);
    ConcludeIs(sorted, default);
  }

  /** Without complete collection nothing is matched, and too large or repeating snapshots are refused. */
  lemma NoVerdictOtherwise(s: Subject, rules: seq<Rule>, collection: CoverageState, default: DefaultPolicy)
    ensures Evaluate(s, rules, collection, default) == Err(TooManyRules) <==> |rules| > 8192
    ensures Evaluate(s, rules, collection, default) == Err(DuplicateIdentity)
      <==> |rules| <= 8192 && !IdsDistinct(rules)
    ensures |rules| <= 8192 && IdsDistinct(rules) && collection == CoverageIncomplete ==>
      Evaluate(s, rules, collection, default) == Ok(Assessment(
        Undecided, default, [], [PolicyEvaluationIncomplete], CoverageIncomplete, CoverageIncomplete, NotEstablished))
    ensures |rules| <= 8192 && IdsDistinct(rules) && collection == CoverageUnknown ==>
      Evaluate(s, rules, collection, default) == Ok(Assessment(
        Unsupported, default, [], [PolicyTechnologyUnsupported], CoverageUnknown, CoverageUnknown, NotEstablished))
  {
    RuleIdsMean(rules);
    hide Matches, Sort, RepeatsIdentity, Conclude, IdsDistinct;
  }

  /** Applicability is covered as far as collection is, and not fully while some listener's verdict is not. */
  lemma CoverageIs(collection: CoverageState, assessments: seq<Assessment>)
    ensures ApplicabilityCoverage(collection, assessments) == CoverageUnknown <==> collection == CoverageUnknown
    ensures ApplicabilityCoverage(collection, assessments) == CoverageComplete <==>
      collection == CoverageComplete && !exists a :: a in assessments && a.coverage != CoverageComplete
  {
  }
}
