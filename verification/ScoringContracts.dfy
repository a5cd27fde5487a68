/** Closed vocabularies shared by findings, reports and listeners. */
module Vocabulary {
  datatype Severity = Info | Low | Medium | High | Critical {
    function Rank(): nat {
      match this
      case Info => 0
      case Low => 1
      case Medium => 2
      case High => 3
      case Critical => 4
    }

    function Value(): string {
      match this
      case Info => "INFO"
      case Low => "LOW"
      case Medium => "MEDIUM"
      case High => "HIGH"
      case Critical => "CRITICAL"
    }
  }

  datatype FindingKind = Risk | CoverageGap | Observation

  datatype AssessmentState = Confirmed | Potential | Incomplete | Informational {
    function Value(): string {
      match this
      case Confirmed => "CONFIRMED"
      case Potential => "POTENTIAL"
      case Incomplete => "INCOMPLETE"
      case Informational => "INFORMATIONAL"
    }
  }

  datatype BindExposure = Loopback | Interface | AllInterfaces {
    function Value(): string {
      match this
      case Loopback => "loopback"
      case Interface => "interface"
      case AllInterfaces => "all_interfaces"
    }
  }

  datatype RemoteReachabilityState =
    NotRemotelyBound | PotentiallyReachable | ConfirmedReachable | BlockedByObservedPolicy | UnknownReachability
  {
    function Value(): string {
      match this
      case NotRemotelyBound => "NOT_REMOTELY_BOUND"
      case PotentiallyReachable => "POTENTIALLY_REACHABLE"
      case ConfirmedReachable => "CONFIRMED_REACHABLE"
      case BlockedByObservedPolicy => "BLOCKED_BY_OBSERVED_POLICY"
      case UnknownReachability => "UNKNOWN"
    }
  }

  datatype CoverageState = CoverageComplete | CoverageIncomplete | CoverageUnknown
}

/** The immutable inputs and outputs of Scoring v2. */
module ScoringContracts {
  import opened Common
  import opened Text
  import opened Vocabulary

  const MAX_SCORING_TEXT_LENGTH := 256
  const MAX_SCORING_FINDING_ID_LENGTH := 512

  datatype ScoringCategory = NetworkExposure | FirewallPosture | OtherDeterministicRisk {
    function Value(): string {
      match this
      case NetworkExposure => "NETWORK_EXPOSURE"
      case FirewallPosture => "FIREWALL_POSTURE"
      case OtherDeterministicRisk => "OTHER_DETERMINISTIC_RISK"
    }
  }

  datatype ScoringBasisCode =
    | PotentialListenerExposure
    | ConfirmedListenerExposure
    | PotentialFirewallPolicyRisk
    | ConfirmedFirewallPolicyRisk
    | PotentialDeterministicRisk
    | ConfirmedDeterministicRisk
  {
    function Value(): string {
      match this
      case PotentialListenerExposure => "POTENTIAL_LISTENER_EXPOSURE"
      case ConfirmedListenerExposure => "CONFIRMED_LISTENER_EXPOSURE"
      case PotentialFirewallPolicyRisk => "POTENTIAL_FIREWALL_POLICY_RISK"
      case ConfirmedFirewallPolicyRisk => "CONFIRMED_FIREWALL_POLICY_RISK"
      case PotentialDeterministicRisk => "POTENTIAL_DETERMINISTIC_RISK"
      case ConfirmedDeterministicRisk => "CONFIRMED_DETERMINISTIC_RISK"
    }
  }

  datatype NetworkScoringIdentity = NetworkScoringIdentity(
    protocol: string,
    port: nat,
    bindExposure: BindExposure,
    reachability: RemoteReachabilityState,
    applicationIdentity: Option<string>,
    processBasename: Option<string>)
  {
    predicate Valid(text: TextServices) {
      && protocol in {"tcp", "udp"}
      && port <= 65535
      && (applicationIdentity.Some? ==> text.BoundedText(applicationIdentity.value, MAX_SCORING_TEXT_LENGTH))
      && (processBasename.Some? ==> text.BoundedText(processBasename.value, MAX_SCORING_TEXT_LENGTH))
    }
  }

  datatype ScoringFinding = ScoringFinding(
    findingId: string,
    severity: Severity,
    kind: FindingKind,
    state: AssessmentState,
    source: string,
    category: ScoringCategory,
    network: Option<NetworkScoringIdentity>)
  {
    /** The invariants every constructed finding satisfies. */
    predicate Valid(text: TextServices) {
      && text.BoundedText(findingId, MAX_SCORING_FINDING_ID_LENGTH)
      && text.BoundedText(source, MAX_SCORING_TEXT_LENGTH)
      && (category.NetworkExposure? <==> network.Some?)
      && (network.Some? ==> network.value.Valid(text))
    }
  }

  datatype ScoringRiskGroup = ScoringRiskGroup(
    groupId: string,
    category: ScoringCategory,
    findingIds: seq<string>,
    severity: Severity,
    state: AssessmentState,
    atomicPenalties: seq<nat>,
    basePenalty: nat,
    rawPenalty: nat,
    appliedPenalty: nat,
    basis: ScoringBasisCode)

  datatype CategoryBreakdown = CategoryBreakdown(
    category: ScoringCategory, rawPenalty: nat, appliedPenalty: nat, saturated: bool)

  datatype ScoringResult = ScoringResult(
    score: nat,
    riskLevel: string,
    counts: seq<(Severity, nat)>,
    totalPenalty: nat,
    categories: seq<CategoryBreakdown>,
    contributors: seq<ScoringRiskGroup>,
    highestConfirmed: Option<Severity>)
}
