/** What a diagnosis reports, in the texts of its vocabularies and the terms of rules and listeners. */
module FirewallCauses {
  import opened Common
  import opened Orders
  import opened FirewallContracts
  import opened FirewallPolicy
  import opened FirewallRules
  import opened FirewallDiagnostics

  // ----- texts

  function CauseText(c: Cause): string {
    match c
    case InterfaceUncertainty => "INTERFACE_UNCERTAINTY"
    case MissingApplicationIdentity => "MISSING_APPLICATION_IDENTITY"
    case MissingServiceIdentity => "MISSING_SERVICE_IDENTITY"
    case OtherClosedIndeterminate => "OTHER_CLOSED_INDETERMINATE"
    case ProfileUncertainty => "PROFILE_UNCERTAINTY"
    case RemoteAddressUncertainty => "REMOTE_ADDRESS_UNCERTAINTY"
    case TypedRangeOrParseUncertainty => "TYPED_RANGE_OR_PARSE_UNCERTAINTY"
    case UnknownEnablementOrState => "UNKNOWN_ENABLEMENT_OR_STATE"
    case UnsupportedFeatureCause => "UNSUPPORTED_FEATURE"
  }

  function FeatureText(f: UnsupportedFeature): string {
    match f
    case RemoteAddressRestricted => "REMOTE_ADDRESS_RESTRICTED"
    case RemotePortRestricted => "REMOTE_PORT_RESTRICTED"
    case UserOrPackageScope => "USER_OR_PACKAGE_SCOPE"
    case UnmodeledPlatformPredicate => "UNMODELED_PLATFORM_PREDICATE"
    case PrecedenceUnproven => "PRECEDENCE_UNPROVEN"
  }

  function ShapeText(x: Shape): string {
    match x
    case ExplicitRestriction => "EXPLICIT_RESTRICTION"
    case LocalSubnet => "LOCAL_SUBNET"
    case MixedSupportedRestriction => "MIXED_SUPPORTED_RESTRICTION"
    case OtherClosedRestriction => "OTHER_CLOSED_RESTRICTION"
  }

  function ProvenanceText(p: Provenance): string {
    match p
    case EdgeTraversalDeferred => "EDGE_TRAVERSAL_DEFERRED"
    case OtherClosedOrigin => "OTHER_CLOSED_ORIGIN"
    case RecoveredLocalPorts => "RECOVERED_LOCAL_PORTS"
    case RecoveredRemotePorts => "RECOVERED_REMOTE_PORTS"
    case RemotePrincipalOrSecureScope => "REMOTE_PRINCIPAL_OR_SECURE_SCOPE"
    case Rule2Unavailable => "RULE2_UNAVAILABLE"
    case Rule3Unavailable => "RULE3_UNAVAILABLE"
  }

  // ----- the order of what is reported

  /** Ascending by text, nothing twice. */
  ghost predicate Ascends<T>(s: seq<T>, text: T -> string) {
    forall i, j :: 0 <= i < j < |s| ==> text(s[i]) != text(s[j]) && StrLe(text(s[i]), text(s[j]))
  }

  /** a comes before b: they part at position k. */
  lemma PartAt(a: string, b: string, k: nat)
    requires k < |a| && k < |b| && a[..k] == b[..k] && a[k] < b[k]
    ensures a != b && StrLe(a, b) && !StrLe(b, a)
  {
    StrLeMeans(a, b);
    StrLeIsTotal();
  }

  lemma {:induction false} StepsAscend<T>(s: seq<T>, text: T -> string)
    requires forall i :: 0 <= i < |s| - 1 ==> StrLe(text(s[i]), text(s[i + 1])) && !StrLe(text(s[i + 1]), text(s[i]))
    ensures Ascends(s, text)
  {
    StrLeIsTotal();
    hide StrLe;
    if s != [] {
      var init := s[..|s| - 1];
      StepsAscend(init, text);
      forall i | 0 <= i < |s| - 1 ensures StrLe(text(s[i]), text(s[|s| - 1])) && text(s[i]) != text(s[|s| - 1]) {
        var k := |s| - 2;
        assert i < k ==> StrLe(text(init[i]), text(init[k]));
        assert init[i] == s[i] && init[k] == s[k];
        assert StrLe(text(s[k]), text(s[k + 1])) && !StrLe(text(s[k + 1]), text(s[k]));
      }
      forall i, j | 0 <= i < j < |s| ensures text(s[i]) != text(s[j]) && StrLe(text(s[i]), text(s[j])) {
        if j < |s| - 1 { assert init[i] == s[i] && init[j] == s[j]; }
      }
    }
  }

  lemma CausesAscend()
    ensures Ascends(CAUSES, CauseText)
  {
    PartAt(CauseText(CAUSES[0]), CauseText(CAUSES[1]), 0);
    PartAt(CauseText(CAUSES[1]), CauseText(CAUSES[2]), 8);
    PartAt(CauseText(CAUSES[2]), CauseText(CAUSES[3]), 0);
    PartAt(CauseText(CAUSES[3]), CauseText(CAUSES[4]), 0);
    PartAt(CauseText(CAUSES[4]), CauseText(CAUSES[5]), 0);
    PartAt(CauseText(CAUSES[5]), CauseText(CAUSES[6]), 0);
    PartAt(CauseText(CAUSES[6]), CauseText(CAUSES[7]), 0);
    PartAt(CauseText(CAUSES[7]), CauseText(CAUSES[8]), 2);
    hide StrLe, CauseText;
    StepsAscend(CAUSES, CauseText);
  }

  lemma FeaturesAscend()
    ensures Ascends(FEATURES, FeatureText)
  {
    PartAt(FeatureText(FEATURES[0]), FeatureText(FEATURES[1]), 0);
    PartAt(FeatureText(FEATURES[1]), FeatureText(FEATURES[2]), 7);
    PartAt(FeatureText(FEATURES[2]), FeatureText(FEATURES[3]), 0);
    PartAt(FeatureText(FEATURES[3]), FeatureText(FEATURES[4]), 1);
    hide StrLe, FeatureText;
    StepsAscend(FEATURES, FeatureText);
  }

  lemma ShapesAscend()
    ensures Ascends(SHAPES, ShapeText)
  {
    PartAt(ShapeText(SHAPES[0]), ShapeText(SHAPES[1]), 0);
    PartAt(ShapeText(SHAPES[1]), ShapeText(SHAPES[2]), 0);
    PartAt(ShapeText(SHAPES[2]), ShapeText(SHAPES[3]), 0);
    hide StrLe, ShapeText;
    StepsAscend(SHAPES, ShapeText);
  }

  lemma ProvenancesAscend()
    ensures Ascends(PROVENANCES, ProvenanceText)
  {
    PartAt(ProvenanceText(PROVENANCES[0]), ProvenanceText(PROVENANCES[1]), 0);
    PartAt(ProvenanceText(PROVENANCES[1]), ProvenanceText(PROVENANCES[2]), 0);
    PartAt(ProvenanceText(PROVENANCES[2]), ProvenanceText(PROVENANCES[3]), 10);
    PartAt(ProvenanceText(PROVENANCES[3]), ProvenanceText(PROVENANCES[4]), 2);
    PartAt(ProvenanceText(PROVENANCES[4]), ProvenanceText(PROVENANCES[5]), 1);
    PartAt(ProvenanceText(PROVENANCES[5]), ProvenanceText(PROVENANCES[6]), 4);
    hide StrLe, ProvenanceText;
    StepsAscend(PROVENANCES, ProvenanceText);
  }

  lemma {:induction false} PickedAreListed<T>(vocabulary: seq<T>, picked: set<T>, x: T)
    requires x in Ordered(vocabulary, picked)
    ensures x in vocabulary
  {
    if vocabulary != [] && !(vocabulary[0] in picked && x == vocabulary[0]) {
      PickedAreListed(vocabulary[1..], picked, x);
    }
  }

  /** Values picked from an ascending vocabulary, in its order, ascend. */
  lemma {:induction false} PickedAscend<T>(vocabulary: seq<T>, picked: set<T>, text: T -> string)
    requires Ascends(vocabulary, text)
    ensures Ascends(Ordered(vocabulary, picked), text)
  {
    hide StrLe;
    if vocabulary != [] {
      var rest, later := vocabulary[1..], Ordered(vocabulary[1..], picked);
      PickedAscend(rest, picked, text);
      forall i | 0 <= i < |later|
        ensures text(vocabulary[0]) != text(later[i]) && StrLe(text(vocabulary[0]), text(later[i]))
      {
        PickedAreListed(rest, picked, later[i]);
        var k :| 0 <= k < |rest| && rest[k] == later[i];
        assert vocabulary[k + 1] == later[i];
      }
    }
  }

  /** What a diagnosis lists ascends by text, nothing twice. */
  lemma DiagnosisAscends(d: Diagnostic)
    requires ValidDiagnostic(d)
    ensures Ascends(d.causes, CauseText) && Ascends(d.subtypes, FeatureText)
      && Ascends(d.shapes, ShapeText) && Ascends(d.provenance, ProvenanceText)
  {
    CausesAscend();
    FeaturesAscend();
    ShapesAscend();
    ProvenancesAscend();
    hide Ascends, Ordered, ValidAssessment;
    PickedAscend(CAUSES, Elems(d.causes), CauseText);
    PickedAscend(FEATURES, Elems(d.subtypes), FeatureText);
    PickedAscend(SHAPES, Elems(d.shapes), ShapeText);
    PickedAscend(PROVENANCES, Elems(d.provenance), ProvenanceText);
  }

  // ----- what is collected

  /** No known fact of the listener rules the rule out. */
  ghost predicate Stands(r: Rule, s: Subject) {
    forall c :: !Unmet(r, s, c)
  }

  /** The condition a cause names is in doubt. */
  ghost predicate DoubtedFor(r: Rule, s: Subject, cause: Cause) {
    match cause
    case InterfaceUncertainty => Unknown(r, s, OnInterface)
    case MissingApplicationIdentity => r.application.ApplicationDigest? && s.applicationDigest == None
    case MissingServiceIdentity => r.application.ServiceIdentity? && s.serviceIdentity == None
    case OtherClosedIndeterminate => false
    case ProfileUncertainty => Unknown(r, s, OnProfile)
    case RemoteAddressUncertainty => Unknown(r, s, OnRemote)
    case TypedRangeOrParseUncertainty => Unknown(r, s, OnAddress)
    case UnknownEnablementOrState => Unknown(r, s, OnEnablement)
    case UnsupportedFeatureCause => Unknown(r, s, OnUnsupported)
  }

  /** The shape of a restriction to some remote addresses. */
  ghost predicate IsShape(conditions: seq<AddressCondition>, x: Shape) {
    var local := LocalSubnetScope in conditions;
    var explicit := exists c :: c in conditions && (c.Exact? || c.Cidr? || c.V4Range? || c.V6Range?);
    match x
    case MixedSupportedRestriction => local && explicit
    case LocalSubnet => local && !explicit
    case ExplicitRestriction => !local && explicit
    case OtherClosedRestriction => !local && !explicit
  }

  lemma StandsIs(r: Rule, s: Subject)
    ensures !Excluded(r, s) <==> Stands(r, s)
  {
    ThreeOutcomes(r, s);
    MatchesByTerms(r, s);
    hide MatchOf, Excluded, Causes, Unmet, Unknown;
  }

  lemma CauseIs(r: Rule, s: Subject, cause: Cause)
    requires Stands(r, s)
    ensures cause in Causes(r, s) <==> DoubtedFor(r, s, cause)
  {
    CausesNameConditions(r, s, cause);
    forall c { ConditionIsItsTerms(r, s, c); }
    hide Causes, InDoubtOver, RuledOutBy, Unmet;
    assert Unknown(r, s, OnApplication) <==>
      || (r.application.ApplicationDigest? && s.applicationDigest == None)
      || (r.application.ServiceIdentity? && s.serviceIdentity == None);
    hide Unknown;
  }

  lemma ShapeIsIt(conditions: seq<AddressCondition>, x: Shape)
    ensures ShapeOf(conditions) == x <==> IsShape(conditions, x)
  {
    ShapeIs(conditions);
    hide ShapeOf;
  }

  lemma RestrictsRemote(r: Rule)
    ensures !RemoteIsAny(r) <==> exists a :: a in r.remoteAddresses && a != AnyAddress
  {
  }

  /** A diagnosis collects the causes, features, shapes and origins of the rules no known fact rules out. */
  lemma CollectedIs(rules: seq<Rule>, s: Subject, causes: set<Cause>, subtypes: set<UnsupportedFeature>,
                    shapes: set<Shape>, provenance: set<Provenance>)
    ensures Collected(rules, s, causes, subtypes, shapes, provenance) <==>
      && (forall c :: c in causes <==> exists r :: r in rules && Stands(r, s) && DoubtedFor(r, s, c))
      && (forall f :: f in subtypes <==> exists r :: r in rules && Stands(r, s) && f in r.unsupported)
      && (forall x :: x in shapes <==>
            exists r :: r in rules && Stands(r, s) && IsShape(r.remoteAddresses, x)
              && exists a :: a in r.remoteAddresses && a != AnyAddress)
      && (forall p :: p in provenance <==> exists r :: r in rules && Stands(r, s) && p in r.provenance)
  {
    forall r { StandsIs(r, s); }
    forall r, c | Stands(r, s) { CauseIs(r, s, c); }
    forall r, x { ShapeIsIt(r, x); }
    forall r { RestrictsRemote(r); }
    hide Stands, Excluded, Causes, DoubtedFor, ShapeOf, IsShape, RemoteIsAny;
  }
}
