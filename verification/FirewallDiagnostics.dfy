/** Why a policy evaluation stays undecided, per listener and in total; and rule normalisation. */
module FirewallDiagnostics {
  import opened Common
  import opened Orders
  import opened Vocabulary
  import opened FirewallContracts
  import opened FirewallPolicy

  const MAX_POLICY_DIAGNOSTIC_LISTENERS := 8192

  datatype Shape = ExplicitRestriction | LocalSubnet | MixedSupportedRestriction | OtherClosedRestriction

  /** Closed vocabularies in the text order of their values. */
  const FEATURES: seq<UnsupportedFeature> :=
    [PrecedenceUnproven, RemoteAddressRestricted, RemotePortRestricted, UnmodeledPlatformPredicate, UserOrPackageScope]

  const SHAPES: seq<Shape> := [ExplicitRestriction, LocalSubnet, MixedSupportedRestriction, OtherClosedRestriction]

  const PROVENANCES: seq<Provenance> :=
    [EdgeTraversalDeferred, OtherClosedOrigin, RecoveredLocalPorts, RecoveredRemotePorts, RemotePrincipalOrSecureScope,
     Rule2Unavailable, Rule3Unavailable]

  /** The members of s in the order of the vocabulary, which is the text order of their values. */
  function Ordered<T(==)>(vocabulary: seq<T>, s: set<T>): seq<T> {
    if vocabulary == [] then []
    else (if vocabulary[0] in s then [vocabulary[0]] else []) + Ordered(vocabulary[1..], s)
  }

  lemma {:induction false} OrderedMeans<T>(vocabulary: seq<T>, s: set<T>)
    ensures forall x :: x in Ordered(vocabulary, s) <==> x in vocabulary && x in s
  {
    if vocabulary != [] {
      OrderedMeans(vocabulary[1..], s);
      assert vocabulary == [vocabulary[0]] + vocabulary[1..];
    }
  }

  lemma {:induction false} OrderedSame<T>(vocabulary: seq<T>, s: set<T>, s': set<T>)
    requires forall x :: x in vocabulary ==> (x in s <==> x in s')
    ensures Ordered(vocabulary, s) == Ordered(vocabulary, s')
  {
    if vocabulary != [] {
      assert vocabulary[0] in vocabulary;
      assert forall x :: x in vocabulary[1..] ==> x in vocabulary;
      OrderedSame(vocabulary[1..], s, s');
    }
  }

  /** Unique and in vocabulary order. */
  ghost predicate Canonical<T>(vocabulary: seq<T>, s: seq<T>) {
    s == Ordered(vocabulary, Elems(s))
  }

  lemma OrderedIsCanonical<T>(vocabulary: seq<T>, s: set<T>)
    ensures Canonical(vocabulary, Ordered(vocabulary, s))
  {
    OrderedMeans(vocabulary, s);
    OrderedSame(vocabulary, s, Elems(Ordered(vocabulary, s)));
  }

  lemma VocabulariesAreComplete()
    ensures forall c: Cause {:trigger c in CAUSES} :: c in CAUSES
    ensures forall f: UnsupportedFeature {:trigger f in FEATURES} :: f in FEATURES
    ensures forall x: Shape {:trigger x in SHAPES} :: x in SHAPES
    ensures forall p: Provenance {:trigger p in PROVENANCES} :: p in PROVENANCES
  {
    forall c: Cause ensures c in CAUSES {
      assert c in CAUSES by {
        assert c == CAUSES[0] || c == CAUSES[1] || c == CAUSES[2] || c == CAUSES[3] || c == CAUSES[4]
          || c == CAUSES[5] || c == CAUSES[6] || c == CAUSES[7] || c == CAUSES[8];
      }
    }
    forall f: UnsupportedFeature ensures f in FEATURES {
      assert f == FEATURES[0] || f == FEATURES[1] || f == FEATURES[2] || f == FEATURES[3] || f == FEATURES[4];
    }
    forall x: Shape ensures x in SHAPES {
      assert x == SHAPES[0] || x == SHAPES[1] || x == SHAPES[2] || x == SHAPES[3];
    }
    forall p: Provenance ensures p in PROVENANCES {
      assert p == PROVENANCES[0] || p == PROVENANCES[1] || p == PROVENANCES[2] || p == PROVENANCES[3]
        || p == PROVENANCES[4] || p == PROVENANCES[5] || p == PROVENANCES[6];
    }
  }

  // ----- one rule

  /** How a remote restriction looks, without its addresses. */
  function ShapeOf(conditions: seq<AddressCondition>): Shape {
    var local := exists c :: c in conditions && c == LocalSubnetScope;
    var explicit := exists c :: c in conditions && (c.Exact? || c.Cidr? || c.V4Range? || c.V6Range?);
    if local && explicit then MixedSupportedRestriction
    else if local then LocalSubnet
    else if explicit then ExplicitRestriction
    else OtherClosedRestriction
  }

  datatype RuleDetails = RuleDetails(
    ruleMatch: RuleMatch, causes: seq<Cause>, subtypes: seq<UnsupportedFeature>, shapes: seq<Shape>,
    provenance: seq<Provenance>)

  /** Provenance is only recorded for rules with unmodelled semantics. */
  ghost predicate ProvenanceExplained(r: Rule) {
    r.provenance != [] ==> UnmodeledPlatformPredicate in r.unsupported
  }

  method LocalAddressCause(rule: Rule, s: Subject) returns (excluded: bool, unsure: bool)
    ensures excluded <==> rule.localAddresses != [] && OutsideAddresses(rule.localAddresses, s.address)
    ensures unsure <==> Unsure(rule, s, TypedRangeOrParseUncertainty)
  {
    excluded, unsure := false, false;
    if rule.localAddresses != [] {
      var results := seq(|rule.localAddresses|,
                         i requires 0 <= i < |rule.localAddresses| =>
                           AddressMatches(rule.localAddresses[i], s.address));
      assert forall c :: c in rule.localAddresses ==> AddressMatches(c, s.address) in results by {
        forall c | c in rule.localAddresses ensures AddressMatches(c, s.address) in results {
          var i :| 0 <= i < |rule.localAddresses| && rule.localAddresses[i] == c;
          assert results[i] == AddressMatches(c, s.address);
        }
      }
      hide AddressMatches;
      if Match !in results {
        if Indeterminate in results { unsure := true; } else { excluded := true; }
      } else {
        var i :| 0 <= i < |results| && results[i] == Match;
        assert rule.localAddresses[i] in rule.localAddresses;
      }
    }
  }

  method ApplicationCauses(rule: Rule, s: Subject) returns (excluded: bool, causes: set<Cause>)
    ensures excluded <==>
      || (rule.application.ApplicationDigest? && s.applicationDigest.Some?
          && s.applicationDigest.value != rule.application.digest)
      || (rule.application.ServiceIdentity? && s.serviceIdentity.Some?
          && s.serviceIdentity.value != rule.application.identity)
    ensures forall c :: c in causes <==>
      (c == MissingApplicationIdentity || c == MissingServiceIdentity) && Unsure(rule, s, c)
  {
    excluded, causes := false, {};
    match rule.application {
      case ApplicationDigest(digest) =>
        if s.applicationDigest.None? {
          causes := causes + {MissingApplicationIdentity};
        } else if digest != s.applicationDigest.value {
          excluded := true;
        }
      case ServiceIdentity(identity) =>
        if s.serviceIdentity.None? {
          causes := causes + {MissingServiceIdentity};
        } else if identity != s.serviceIdentity.value {
          excluded := true;
        }
      case AnyApplication =>
    }
  }

  method InterfaceCauses(rule: Rule, s: Subject) returns (excluded: bool, causes: set<Cause>)
    ensures excluded <==>
      || (rule.interface.kind == InterfaceDigest && s.interfaceDigest.Some?
          && s.interfaceDigest.value != rule.interface.value)
      || (rule.interface.kind != InterfaceDigest && rule.interface.kind != AnyInterface && s.interface.Some?
          && s.interface.value != rule.interface.kind)
    ensures forall c :: c in causes <==> c == InterfaceUncertainty && Unsure(rule, s, c)
  {
    excluded, causes := false, {};
    if rule.interface.kind == InterfaceDigest {
      if s.interfaceDigest.None? {
        causes := causes + {InterfaceUncertainty};
      } else if rule.interface.value != s.interfaceDigest.value {
        excluded := true;
      }
    } else if rule.interface.kind != AnyInterface {
      if s.interface.None? {
        causes := causes + {InterfaceUncertainty};
      } else if rule.interface.kind != s.interface.value {
        excluded := true;
      }
    }
  }

  lemma CausesAre(rule: Rule, s: Subject, causes: set<Cause>)
    requires forall c :: c in causes <==> Unsure(rule, s, c)
    ensures causes == Causes(rule, s)
  {
    VocabulariesAreComplete();
    hide Unsure;
  }

  lemma UnsureSimply(rule: Rule, s: Subject)
    ensures Unsure(rule, s, UnknownEnablementOrState) <==> rule.enabled == UnknownEnablement
    ensures Unsure(rule, s, UnsupportedFeatureCause) <==> rule.unsupported != []
    ensures Unsure(rule, s, ProfileUncertainty) <==> rule.profiles != [] && s.profiles == []
    ensures Unsure(rule, s, RemoteAddressUncertainty) <==> !RemoteIsAny(rule)
    ensures !Unsure(rule, s, OtherClosedIndeterminate)
  {
    hide RemoteIsAny;
  }

  /** The matching procedure: early exits on a known mismatch, one growing set of causes otherwise. */
  method MatchDetails(rule: Rule, s: Subject) returns (r: Option<RuleDetails>)
    ensures r.None? <==> Excluded(rule, s)
    ensures r.Some? ==>
      && MatchOf(rule, s) == Some(r.value.ruleMatch)
      && r.value.causes == Ordered(CAUSES, Causes(rule, s))
      && r.value.subtypes == Ordered(FEATURES, set f | f in rule.unsupported)
      && r.value.shapes == (if RemoteIsAny(rule) then [] else [ShapeOf(rule.remoteAddresses)])
      && r.value.provenance == rule.provenance
  {
    hide ShapeOf, AddressMatches, RemoteIsAny, Unsure, Causes, Disjoint, OutsidePorts, OutsideAddresses, Ordered;
    UnsureSimply(rule, s);
    if rule.enabled == Disabled || rule.direction != Inbound { return None; }
    var causes: set<Cause> := {};
    if rule.enabled == UnknownEnablement { causes := causes + {UnknownEnablementOrState}; }
    if rule.unsupported != [] { causes := causes + {UnsupportedFeatureCause}; }
    if rule.profiles != [] {
      if s.profiles == [] {
        causes := causes + {ProfileUncertainty};
      } else if Disjoint(rule.profiles, s.profiles) {
        return None;
      }
    }
    if rule.protocol.Some? && rule.protocol.value != s.protocol { return None; }
    if rule.localPorts != [] && OutsidePorts(rule.localPorts, s.port) { return None; }
    var outside, unsure := LocalAddressCause(rule, s);
    if outside { return None; }
    if unsure { causes := causes + {TypedRangeOrParseUncertainty}; }
    var otherApplication, applicationCauses := ApplicationCauses(rule, s);
    if otherApplication { return None; }
    causes := causes + applicationCauses;
    var otherInterface, interfaceCauses := InterfaceCauses(rule, s);
    if otherInterface { return None; }
    causes := causes + interfaceCauses;
    var remoteIsAny := RemoteIsAny(rule);
    if !remoteIsAny { causes := causes + {RemoteAddressUncertainty}; }
    assert !Excluded(rule, s);
    hide Excluded;
    CausesAre(rule, s, causes);
    var condition := if causes != {} then Indeterminate else Match;
    r := Some(RuleDetails(
      RuleMatch(rule.id, rule.action, condition, condition == Match && remoteIsAny),
      Ordered(CAUSES, causes), Ordered(FEATURES, set f | f in rule.unsupported),
      if !remoteIsAny then [ShapeOf(rule.remoteAddresses)] else [], rule.provenance));
  }

  // ----- one listener

  datatype Diagnostic = Diagnostic(
    assessment: Assessment, causes: seq<Cause>, subtypes: seq<UnsupportedFeature>, shapes: seq<Shape>,
    provenance: seq<Provenance>)

  /** The constructor's invariant. */
  ghost predicate ValidDiagnostic(d: Diagnostic) {
    && ValidAssessment(d.assessment)
    && Canonical(CAUSES, d.causes) && Canonical(FEATURES, d.subtypes)
    && Canonical(SHAPES, d.shapes) && Canonical(PROVENANCES, d.provenance)
    && (d.assessment.applicability != Undecided ==>
          d.causes == [] && d.subtypes == [] && d.shapes == [] && d.provenance == [])
    && (d.subtypes != [] ==> UnsupportedFeatureCause in d.causes)
    && (d.shapes != [] ==> RemoteAddressUncertainty in d.causes)
    && (d.provenance != [] ==> UnsupportedFeatureCause in d.causes)
  }

  /** Causes found among the rules not ruled out. */
  ghost predicate CauseAmong(rules: seq<Rule>, s: Subject, c: Cause) {
    exists r :: r in rules && !Excluded(r, s) && c in Causes(r, s)
  }

  ghost predicate FeatureAmong(rules: seq<Rule>, s: Subject, f: UnsupportedFeature) {
    exists r :: r in rules && !Excluded(r, s) && f in r.unsupported
  }

  ghost predicate ShapeAmong(rules: seq<Rule>, s: Subject, x: Shape) {
    exists r :: r in rules && !Excluded(r, s) && !RemoteIsAny(r) && x == ShapeOf(r.remoteAddresses)
  }

  ghost predicate ProvenanceAmong(rules: seq<Rule>, s: Subject, p: Provenance) {
    exists r :: r in rules && !Excluded(r, s) && p in r.provenance
  }

  /** The four sets hold exactly what the rules not ruled out contribute. */
  ghost predicate Collected(rules: seq<Rule>, s: Subject, causes: set<Cause>, subtypes: set<UnsupportedFeature>,
                            shapes: set<Shape>, provenance: set<Provenance>)
  {
    && (forall c :: c in causes <==> CauseAmong(rules, s, c))
    && (forall f :: f in subtypes <==> FeatureAmong(rules, s, f))
    && (forall x :: x in shapes <==> ShapeAmong(rules, s, x))
    && (forall p :: p in provenance <==> ProvenanceAmong(rules, s, p))
  }

  lemma AmongOneMore(rules: seq<Rule>, r: Rule, s: Subject)
    ensures forall c ::
      CauseAmong(rules + [r], s, c) <==> CauseAmong(rules, s, c) || (!Excluded(r, s) && c in Causes(r, s))
    ensures forall f ::
      FeatureAmong(rules + [r], s, f) <==> FeatureAmong(rules, s, f) || (!Excluded(r, s) && f in r.unsupported)
    ensures forall x :: ShapeAmong(rules + [r], s, x) <==>
      ShapeAmong(rules, s, x) || (!Excluded(r, s) && !RemoteIsAny(r) && x == ShapeOf(r.remoteAddresses))
    ensures forall p ::
      ProvenanceAmong(rules + [r], s, p) <==> ProvenanceAmong(rules, s, p) || (!Excluded(r, s) && p in r.provenance)
  {
    hide Excluded, Causes, ShapeOf, RemoteIsAny;
    assert r in rules + [r];
    assert forall q :: q in rules ==> q in rules + [r];
    forall c | CauseAmong(rules, s, c) ensures CauseAmong(rules + [r], s, c) {
      var q :| q in rules && !Excluded(q, s) && c in Causes(q, s);
    }
    forall f | FeatureAmong(rules, s, f) ensures FeatureAmong(rules + [r], s, f) {
      var q :| q in rules && !Excluded(q, s) && f in q.unsupported;
    }
    forall x | ShapeAmong(rules, s, x) ensures ShapeAmong(rules + [r], s, x) {
      var q :| q in rules && !Excluded(q, s) && !RemoteIsAny(q) && x == ShapeOf(q.remoteAddresses);
    }
    forall p | ProvenanceAmong(rules, s, p) ensures ProvenanceAmong(rules + [r], s, p) {
      var q :| q in rules && !Excluded(q, s) && p in q.provenance;
    }
  }

  /** A rule that is certain contributes nothing. */
  lemma CertainContributesNothing(r: Rule, s: Subject)
    requires ProvenanceExplained(r) && Causes(r, s) == {}
    ensures r.unsupported == [] && RemoteIsAny(r) && r.provenance == []
  {
    VocabulariesAreComplete();
    assert UnsupportedFeatureCause !in Causes(r, s) && RemoteAddressUncertainty !in Causes(r, s);
    assert UnsupportedFeatureCause in CAUSES && RemoteAddressUncertainty in CAUSES;
    hide RemoteIsAny;
  }

  lemma DetailsGive(rule: Rule, s: Subject)
    ensures forall c :: c in Ordered(CAUSES, Causes(rule, s)) <==> c in Causes(rule, s)
    ensures forall f :: f in Ordered(FEATURES, set f | f in rule.unsupported) <==> f in rule.unsupported
  {
    VocabulariesAreComplete();
    OrderedMeans(CAUSES, Causes(rule, s));
    OrderedMeans(FEATURES, set f | f in rule.unsupported);
    hide Ordered, Causes;
  }

  /** What one rule adds. */
  method Contribution(rule: Rule, s: Subject)
    returns (causes: set<Cause>, subtypes: set<UnsupportedFeature>, shapes: set<Shape>, provenance: set<Provenance>)
    requires ProvenanceExplained(rule)
    ensures forall c :: c in causes <==> !Excluded(rule, s) && c in Causes(rule, s)
    ensures forall f :: f in subtypes <==> !Excluded(rule, s) && f in rule.unsupported
    ensures forall x :: x in shapes <==> !Excluded(rule, s) && !RemoteIsAny(rule) && x == ShapeOf(rule.remoteAddresses)
    ensures forall p :: p in provenance <==> !Excluded(rule, s) && p in rule.provenance
  {
    causes, subtypes, shapes, provenance := {}, {}, {}, {};
    hide Excluded, Causes, ShapeOf, RemoteIsAny, ProvenanceExplained;
    var details := MatchDetails(rule, s);
    if details.Some? {
      DetailsGive(rule, s);
      hide Ordered;
      if details.value.ruleMatch.condition == Indeterminate {
        causes := set c | c in details.value.causes;
        subtypes := set f | f in details.value.subtypes;
        shapes := set x | x in details.value.shapes;
        provenance := set p | p in details.value.provenance;
      } else {
        CertainContributesNothing(rule, s);
      }
    }
  }

  method CollectCauses(rules: seq<Rule>, s: Subject)
    returns (causes: set<Cause>, subtypes: set<UnsupportedFeature>, shapes: set<Shape>, provenance: set<Provenance>)
    requires forall r :: r in rules ==> ProvenanceExplained(r)
    ensures Collected(rules, s, causes, subtypes, shapes, provenance)
  {
    causes, subtypes, shapes, provenance := {}, {}, {}, {};
    hide Excluded, Causes, ShapeOf, RemoteIsAny, ProvenanceExplained;
    for i := 0 to |rules|
      invariant Collected(rules[..i], s, causes, subtypes, shapes, provenance)
    {
      assert rules[..i + 1] == rules[..i] + [rules[i]];
      AmongOneMore(rules[..i], rules[i], s);
      hide CauseAmong, FeatureAmong, ShapeAmong, ProvenanceAmong;
      var moreCauses, moreSubtypes, moreShapes, moreProvenance := Contribution(rules[i], s);
      causes, subtypes := causes + moreCauses, subtypes + moreSubtypes;
      shapes, provenance := shapes + moreShapes, provenance + moreProvenance;
    }
    assert rules[..|rules|] == rules;
  }

  /** The causes of the undecided are closed: the catch-all is never needed. */
  method Diagnose(s: Subject, rules: seq<Rule>, collection: CoverageState, default: DefaultPolicy)
    returns (r: Result<Diagnostic, PolicyError>)
    requires forall rule :: rule in rules ==> ProvenanceExplained(rule)
    ensures r.Err? ==> Evaluate(s, rules, collection, default) == Err(r.error)
    ensures r.Ok? ==> Evaluate(s, rules, collection, default) == Ok(r.value.assessment)
    ensures r.Ok? ==> ValidDiagnostic(r.value) && OtherClosedIndeterminate !in r.value.causes
    ensures r.Ok? && r.value.assessment.applicability == Undecided && collection == CoverageComplete ==>
      Collected(rules, s, Elems(r.value.causes), Elems(r.value.subtypes), Elems(r.value.shapes),
                Elems(r.value.provenance))
    ensures r.Ok? && (exists m :: m in r.value.assessment.matches && m.condition == Indeterminate)
      ==> r.value.causes != []
  {
    var assessment := Evaluate(s, rules, collection, default);
    if assessment.Err? { return Err(assessment.error); }
    EvaluationIsValid(s, rules, collection, default);
    if assessment.value.applicability != Undecided || collection != CoverageComplete {
      DecidedHasNoIndeterminate(s, rules, collection, default);
      EmptyIsCanonical(assessment.value);
      hide Evaluate, ValidDiagnostic;
      return Ok(Diagnostic(assessment.value, [], [], [], []));
    }
    IndeterminateHasCause(s, rules, collection, default);
    hide Evaluate, ValidAssessment;
    var causes, subtypes, shapes, provenance := CollectCauses(rules, s);
    NoCatchAll(rules, s);
    if causes == {} && exists m :: m in assessment.value.matches && m.condition == Indeterminate {
      causes := causes + {OtherClosedIndeterminate};
    }
    r := Ok(Diagnostic(assessment.value, Ordered(CAUSES, causes), Ordered(FEATURES, subtypes), Ordered(SHAPES, shapes),
                       Ordered(PROVENANCES, provenance)));
    CollectedIsValid(s, rules, assessment.value, causes, subtypes, shapes, provenance);
    hide Collected, ValidDiagnostic, CauseAmong;
  }

  lemma EmptyIsCanonical(a: Assessment)
    requires ValidAssessment(a)
    ensures ValidDiagnostic(Diagnostic(a, [], [], [], []))
  {
    EmptyListIsCanonical(CAUSES);
    EmptyListIsCanonical(FEATURES);
    EmptyListIsCanonical(SHAPES);
    EmptyListIsCanonical(PROVENANCES);
    hide ValidAssessment, Canonical;
  }

  lemma EmptyListIsCanonical<T>(vocabulary: seq<T>)
    ensures Canonical(vocabulary, [])
  {
    OrderedNone(vocabulary, Elems<T>([]));
  }

  lemma {:induction false} OrderedNone<T>(vocabulary: seq<T>, s: set<T>)
    requires s == {}
    ensures Ordered(vocabulary, s) == []
  {
    if vocabulary != [] { OrderedNone(vocabulary[1..], s); }
  }

  lemma NoMembers<T>(s: seq<T>)
    ensures s == [] <==> Elems(s) == {}
  {
    if s != [] { assert s[0] in s && s[0] in Elems(s); }
  }

  lemma NoCatchAll(rules: seq<Rule>, s: Subject)
    ensures !CauseAmong(rules, s, OtherClosedIndeterminate)
  {
    hide Excluded;
  }

  lemma DecidedHasNoIndeterminate(s: Subject, rules: seq<Rule>, collection: CoverageState, default: DefaultPolicy)
    requires Evaluate(s, rules, collection, default).Ok?
    requires Evaluate(s, rules, collection, default).value.applicability != Undecided || collection != CoverageComplete
    ensures forall m :: m in Evaluate(s, rules, collection, default).value.matches ==> m.condition != Indeterminate
  {
    hide RepeatsIdentity, Matches, Sort, Actions;
  }

  lemma IndeterminateHasCause(s: Subject, rules: seq<Rule>, collection: CoverageState, default: DefaultPolicy)
    requires Evaluate(s, rules, collection, default).Ok? && collection == CoverageComplete
    ensures (exists m :: m in Evaluate(s, rules, collection, default).value.matches && m.condition == Indeterminate) ==>
      exists c :: CauseAmong(rules, s, c)
  {
    hide Sort, Matches, MatchLe, Actions, RepeatsIdentity;
    var a := Evaluate(s, rules, collection, default).value;
    if m :| m in a.matches && m.condition == Indeterminate {
      assert a.matches == Sort(Matches(rules, s), MatchLe);
      IndeterminateMatchHasCause(s, rules, m);
    }
  }

  lemma IndeterminateMatchHasCause(s: Subject, rules: seq<Rule>, m: RuleMatch)
    requires m in Sort(Matches(rules, s), MatchLe) && m.condition == Indeterminate
    ensures exists c :: CauseAmong(rules, s, c)
  {
    hide Sort, Matches, MatchLe, Excluded, Causes;
    SortIsPermutation(Matches(rules, s), MatchLe);
    MatchesMean(rules, s);
    var r :| r in rules && MatchOf(r, s) == Some(m);
    var c :| c in Causes(r, s);
    assert CauseAmong(rules, s, c);
  }

  lemma CollectedIsValid(s: Subject, rules: seq<Rule>, a: Assessment, causes: set<Cause>,
                         subtypes: set<UnsupportedFeature>, shapes: set<Shape>, provenance: set<Provenance>)
    requires ValidAssessment(a) && a.applicability == Undecided
    requires forall r :: r in rules ==> ProvenanceExplained(r)
    requires Collected(rules, s, causes, subtypes, shapes, provenance)
    ensures ValidDiagnostic(Diagnostic(a, Ordered(CAUSES, causes), Ordered(FEATURES, subtypes), Ordered(SHAPES, shapes),
                                       Ordered(PROVENANCES, provenance)))
    ensures Elems(Ordered(CAUSES, causes)) == causes && Elems(Ordered(FEATURES, subtypes)) == subtypes
    ensures Elems(Ordered(SHAPES, shapes)) == shapes && Elems(Ordered(PROVENANCES, provenance)) == provenance
    ensures Ordered(CAUSES, causes) == [] <==> causes == {}
  {
    hide ValidAssessment, Ordered;
    ContributionsHaveCauses(rules, s);
    VocabulariesAreComplete();
    OrderedMeans(CAUSES, causes);
    OrderedMeans(FEATURES, subtypes);
    OrderedMeans(SHAPES, shapes);
    OrderedMeans(PROVENANCES, provenance);
    OrderedIsCanonical(CAUSES, causes);
    OrderedIsCanonical(FEATURES, subtypes);
    OrderedIsCanonical(SHAPES, shapes);
    OrderedIsCanonical(PROVENANCES, provenance);
    hide Canonical;
    assert Elems(Ordered(CAUSES, causes)) == causes && Elems(Ordered(FEATURES, subtypes)) == subtypes
      && Elems(Ordered(SHAPES, shapes)) == shapes && Elems(Ordered(PROVENANCES, provenance)) == provenance;
    NoMembers(Ordered(CAUSES, causes));
    NoMembers(Ordered(FEATURES, subtypes));
    NoMembers(Ordered(SHAPES, shapes));
    NoMembers(Ordered(PROVENANCES, provenance));
    hide CauseAmong, FeatureAmong, ShapeAmong, ProvenanceAmong, ProvenanceExplained;
  }

  lemma ContributionsHaveCauses(rules: seq<Rule>, s: Subject)
    requires forall r :: r in rules ==> ProvenanceExplained(r)
    ensures forall f :: FeatureAmong(rules, s, f) ==> CauseAmong(rules, s, UnsupportedFeatureCause)
    ensures forall x :: ShapeAmong(rules, s, x) ==> CauseAmong(rules, s, RemoteAddressUncertainty)
    ensures forall p :: ProvenanceAmong(rules, s, p) ==> CauseAmong(rules, s, UnsupportedFeatureCause)
  {
    VocabulariesAreComplete();
    assert UnsupportedFeatureCause in CAUSES && RemoteAddressUncertainty in CAUSES;
    hide Excluded, ShapeOf, RemoteIsAny;
  }

  // ----- many listeners

  datatype SummaryStatus = SummaryComplete | LimitExceeded

  datatype Summary = Summary(
    status: SummaryStatus,
    total: nat,
    incomplete: nat,
    causes: seq<(Cause, nat)>,
    subtypes: seq<(UnsupportedFeature, nat)>,
    shapes: seq<(Shape, nat)>,
    provenance: seq<(Provenance, nat)>)

  function Incomplete(ds: seq<Diagnostic>): seq<Diagnostic> {
    if ds == [] then []
    else (if ds[0].assessment.applicability == Undecided then [ds[0]] else []) + Incomplete(ds[1..])
  }

  /** In how many diagnostics a value is listed. */
  function CountWith<T(==)>(ds: seq<Diagnostic>, values: Diagnostic -> seq<T>, v: T): nat {
    if ds == [] then 0 else (if v in values(ds[0]) then 1 else 0) + CountWith(ds[1..], values, v)
  }

  /** One entry for each value listed anywhere, in vocabulary order. */
  function Counts<T(==)>(vocabulary: seq<T>, ds: seq<Diagnostic>, values: Diagnostic -> seq<T>): seq<(T, nat)> {
    if vocabulary == [] then []
    else
      var n := CountWith(ds, values, vocabulary[0]);
      (if n > 0 then [(vocabulary[0], n)] else []) + Counts(vocabulary[1..], ds, values)
  }

  function CausesOf(d: Diagnostic): seq<Cause> { d.causes }
  function SubtypesOf(d: Diagnostic): seq<UnsupportedFeature> { d.subtypes }
  function ShapesOf(d: Diagnostic): seq<Shape> { d.shapes }
  function ProvenanceOf(d: Diagnostic): seq<Provenance> { d.provenance }

  function Aggregate(ds: seq<Diagnostic>): Summary {
    if |ds| > MAX_POLICY_DIAGNOSTIC_LISTENERS then Summary(LimitExceeded, 0, 0, [], [], [], [])
    else
      var undecided := Incomplete(ds);
      Summary(SummaryComplete, |ds|, |undecided|, Counts(CAUSES, undecided, CausesOf),
              Counts(FEATURES, undecided, SubtypesOf), Counts(SHAPES, undecided, ShapesOf),
              Counts(PROVENANCES, undecided, ProvenanceOf))
  }

  function Keys<T>(counts: seq<(T, nat)>): seq<T> {
    if counts == [] then [] else [counts[0].0] + Keys(counts[1..])
  }

  ghost predicate ValidCounts<T>(vocabulary: seq<T>, counts: seq<(T, nat)>, incomplete: nat) {
    && Canonical(vocabulary, Keys(counts))
    && forall e :: e in counts ==> 0 < e.1 <= incomplete
  }

  /** The constructor's invariant. */
  ghost predicate ValidSummary(m: Summary) {
    && m.incomplete <= m.total <= MAX_POLICY_DIAGNOSTIC_LISTENERS
    && ValidCounts(CAUSES, m.causes, m.incomplete) && ValidCounts(FEATURES, m.subtypes, m.incomplete)
    && ValidCounts(SHAPES, m.shapes, m.incomplete) && ValidCounts(PROVENANCES, m.provenance, m.incomplete)
    && (m.subtypes != [] ==> UnsupportedFeatureCause in Keys(m.causes))
    && (m.shapes != [] ==> RemoteAddressUncertainty in Keys(m.causes))
    && (m.provenance != [] ==> UnsupportedFeatureCause in Keys(m.causes))
    && (m.status != SummaryComplete ==>
          m.total == 0 && m.causes == [] && m.subtypes == [] && m.shapes == [] && m.provenance == [])
  }

  lemma {:induction false} IncompleteMeans(ds: seq<Diagnostic>)
    ensures |Incomplete(ds)| <= |ds|
    ensures forall d :: d in Incomplete(ds) <==> d in ds && d.assessment.applicability == Undecided
  {
    if ds != [] {
      IncompleteMeans(ds[1..]);
      assert ds == [ds[0]] + ds[1..];
    }
  }

  lemma {:induction false} CountMeans<T>(ds: seq<Diagnostic>, values: Diagnostic -> seq<T>, v: T)
    ensures CountWith(ds, values, v) <= |ds|
    ensures CountWith(ds, values, v) > 0 <==> exists d :: d in ds && v in values(d)
  {
    if ds != [] {
      CountMeans(ds[1..], values, v);
      assert ds == [ds[0]] + ds[1..];
    }
  }

  /** The entries are exactly the values listed somewhere, each with its listener count. */
  lemma {:induction false} CountsMean<T>(vocabulary: seq<T>, ds: seq<Diagnostic>, values: Diagnostic -> seq<T>)
    ensures forall e :: e in Counts(vocabulary, ds, values) <==>
      e.0 in vocabulary && e.1 == CountWith(ds, values, e.0) && e.1 > 0
    ensures forall v :: v in Keys(Counts(vocabulary, ds, values)) <==> v in vocabulary && CountWith(ds, values, v) > 0
    ensures Counts(vocabulary, ds, values) == [] <==> Keys(Counts(vocabulary, ds, values)) == []
  {
    hide CountWith;
    if vocabulary != [] {
      CountsMean(vocabulary[1..], ds, values);
      assert vocabulary == [vocabulary[0]] + vocabulary[1..];
      var n := CountWith(ds, values, vocabulary[0]);
      var rest := Counts(vocabulary[1..], ds, values);
      if n > 0 {
        assert ([(vocabulary[0], n)] + rest)[1..] == rest;
      } else {
        assert Counts(vocabulary, ds, values) == rest;
      }
    }
  }

  lemma {:induction false} CountKeysOrdered<T>(vocabulary: seq<T>, ds: seq<Diagnostic>, values: Diagnostic -> seq<T>,
                                               s: set<T>)
    requires forall v :: v in vocabulary ==> (v in s <==> CountWith(ds, values, v) > 0)
    ensures Keys(Counts(vocabulary, ds, values)) == Ordered(vocabulary, s)
  {
    hide CountWith;
    if vocabulary != [] {
      assert forall v :: v in vocabulary[1..] ==> v in vocabulary;
      CountKeysOrdered(vocabulary[1..], ds, values, s);
      assert vocabulary[0] in vocabulary;
      var n := CountWith(ds, values, vocabulary[0]);
      var rest := Counts(vocabulary[1..], ds, values);
      if n > 0 {
        assert ([(vocabulary[0], n)] + rest)[1..] == rest;
      } else {
        assert Counts(vocabulary, ds, values) == rest;
      }
    }
  }

  lemma CountsAreValid<T>(vocabulary: seq<T>, ds: seq<Diagnostic>, values: Diagnostic -> seq<T>)
    ensures ValidCounts(vocabulary, Counts(vocabulary, ds, values), |ds|)
  {
    CountsMean(vocabulary, ds, values);
    var counts := Counts(vocabulary, ds, values);
    CountKeysOrdered(vocabulary, ds, values, Elems(Keys(counts)));
    hide Counts, CountWith;
    forall e | e in counts ensures 0 < e.1 <= |ds| {
      CountMeans(ds, values, e.0);
    }
  }

  lemma CountedNeedsCause<T>(vocabulary: seq<T>, ds: seq<Diagnostic>, values: Diagnostic -> seq<T>, cause: Cause)
    requires forall d :: d in ds && values(d) != [] ==> cause in d.causes
    requires Counts(vocabulary, ds, values) != []
    ensures cause in Keys(Counts(CAUSES, ds, CausesOf))
  {
    CountsMean(vocabulary, ds, values);
    CountsMean(CAUSES, ds, CausesOf);
    VocabulariesAreComplete();
    hide Counts, CountWith, Keys;
    var first := Counts(vocabulary, ds, values)[0];
    assert first in Counts(vocabulary, ds, values);
    assert CountWith(ds, values, first.0) > 0;
    CountMeans(ds, values, first.0);
    var d :| d in ds && first.0 in values(d);
    assert cause in CausesOf(d);
    CountMeans(ds, CausesOf, cause);
  }

  /** Aggregation always yields a valid summary. */
  lemma AggregateIsValid(ds: seq<Diagnostic>)
    requires forall d :: d in ds ==> ValidDiagnostic(d)
    ensures ValidSummary(Aggregate(ds))
  {
    var undecided := Incomplete(ds);
    IncompleteMeans(ds);
    CountsAreValid(CAUSES, undecided, CausesOf);
    CountsAreValid(FEATURES, undecided, SubtypesOf);
    CountsAreValid(SHAPES, undecided, ShapesOf);
    CountsAreValid(PROVENANCES, undecided, ProvenanceOf);
    hide Incomplete, Counts, Canonical, ValidAssessment;
    if |ds| <= MAX_POLICY_DIAGNOSTIC_LISTENERS {
      if Counts(FEATURES, undecided, SubtypesOf) != [] {
        CountedNeedsCause(FEATURES, undecided, SubtypesOf, UnsupportedFeatureCause);
      }
      if Counts(SHAPES, undecided, ShapesOf) != [] {
        CountedNeedsCause(SHAPES, undecided, ShapesOf, RemoteAddressUncertainty);
      }
      if Counts(PROVENANCES, undecided, ProvenanceOf) != [] {
        CountedNeedsCause(PROVENANCES, undecided, ProvenanceOf, UnsupportedFeatureCause);
      }
    } else {
      EmptyCounts();
    }
  }

  lemma EmptyCounts()
    ensures ValidSummary(Summary(LimitExceeded, 0, 0, [], [], [], []))
  {
    CountsAreValid(CAUSES, [], CausesOf);
    CountsAreValid(FEATURES, [], SubtypesOf);
    CountsAreValid(SHAPES, [], ShapesOf);
    CountsAreValid(PROVENANCES, [], ProvenanceOf);
    NothingCounted(CAUSES, CausesOf);
    NothingCounted(FEATURES, SubtypesOf);
    NothingCounted(SHAPES, ShapesOf);
    NothingCounted(PROVENANCES, ProvenanceOf);
    hide Counts, Canonical;
  }

  lemma {:induction false} NothingCounted<T>(vocabulary: seq<T>, values: Diagnostic -> seq<T>)
    ensures Counts(vocabulary, [], values) == []
  {
    if vocabulary != [] { NothingCounted(vocabulary[1..], values); }
  }

  // ----- the summary counted out

  /** The undecided listeners that list a value. */
  ghost function ListedAt<T>(ds: seq<Diagnostic>, values: Diagnostic -> seq<T>, v: T): set<int> {
    set i | 0 <= i < |ds| && ds[i].assessment.applicability == Undecided && v in values(ds[i])
  }

  ghost function UndecidedAt(ds: seq<Diagnostic>): set<int> {
    set i | 0 <= i < |ds| && ds[i].assessment.applicability == Undecided
  }

  lemma {:induction false} IncompleteConcat(a: seq<Diagnostic>, b: seq<Diagnostic>)
    ensures Incomplete(a + b) == Incomplete(a) + Incomplete(b)
  {
    if a == [] {
      assert a + b == b;
    } else {
      assert (a + b)[1..] == a[1..] + b;
      IncompleteConcat(a[1..], b);
    }
  }

  lemma {:induction false} CountConcat<T>(a: seq<Diagnostic>, b: seq<Diagnostic>, values: Diagnostic -> seq<T>, v: T)
    ensures CountWith(a + b, values, v) == CountWith(a, values, v) + CountWith(b, values, v)
  {
    if a == [] {
      assert a + b == b;
    } else {
      assert (a + b)[1..] == a[1..] + b;
      CountConcat(a[1..], b, values, v);
    }
  }

  lemma {:induction false} CountIs<T>(ds: seq<Diagnostic>, values: Diagnostic -> seq<T>, v: T)
    ensures CountWith(Incomplete(ds), values, v) == |ListedAt(ds, values, v)|
    ensures |Incomplete(ds)| == |UndecidedAt(ds)|
  {
    if ds != [] {
      var init, d := ds[..|ds| - 1], ds[|ds| - 1];
      assert ds == init + [d];
      CountIs(init, values, v);
      IncompleteConcat(init, [d]);
      CountConcat(Incomplete(init), Incomplete([d]), values, v);
      CountOfOne(d, values, v);
      OnePlaceMore(init, d, values, v);
      hide Incomplete, CountWith, ListedAt, UndecidedAt;
    }
  }

  lemma CountOfOne<T>(d: Diagnostic, values: Diagnostic -> seq<T>, v: T)
    ensures Incomplete([d]) == if d.assessment.applicability == Undecided then [d] else []
    ensures CountWith(Incomplete([d]), values, v)
      == if d.assessment.applicability == Undecided && v in values(d) then 1 else 0
  {
  }

  lemma OnePlaceMore<T>(ds: seq<Diagnostic>, d: Diagnostic, values: Diagnostic -> seq<T>, v: T)
    ensures |UndecidedAt(ds + [d])| == |UndecidedAt(ds)| + if d.assessment.applicability == Undecided then 1 else 0
    ensures |ListedAt(ds + [d], values, v)|
      == |ListedAt(ds, values, v)| + if d.assessment.applicability == Undecided && v in values(d) then 1 else 0
  {
    var undecided := d.assessment.applicability == Undecided;
    assert UndecidedAt(ds + [d]) == UndecidedAt(ds) + if undecided then {|ds|} else {};
    assert ListedAt(ds + [d], values, v)
      == ListedAt(ds, values, v) + if undecided && v in values(d) then {|ds|} else {};
  }

  /** Entries that count, for each listed value of a vocabulary, the undecided listeners listing it. */
  ghost predicate CountsListeners<T(!new)>(entries: seq<(T, nat)>, vocabulary: seq<T>, ds: seq<Diagnostic>,
                                     values: Diagnostic -> seq<T>)
  {
    forall v, n :: (v, n) in entries <==> v in vocabulary && n == |ListedAt(ds, values, v)| && n > 0
  }

  lemma CountsAre<T(!new)>(vocabulary: seq<T>, ds: seq<Diagnostic>, values: Diagnostic -> seq<T>,
                           listed: Diagnostic -> seq<T>)
    requires forall d :: values(d) == listed(d)
    ensures CountsListeners(Counts(vocabulary, Incomplete(ds), values), vocabulary, ds, listed)
  {
    CountsMean(vocabulary, Incomplete(ds), values);
    forall v ensures CountWith(Incomplete(ds), values, v) == |ListedAt(ds, listed, v)| {
      CountIs(ds, values, v);
      assert ListedAt(ds, values, v) == ListedAt(ds, listed, v);
    }
    hide Counts, CountWith, Incomplete, ListedAt;
  }

  /** A summary within the bound counts the listeners, the undecided ones, and each listed value's undecided ones. */
  lemma AggregateCounts(ds: seq<Diagnostic>)
    requires |ds| <= MAX_POLICY_DIAGNOSTIC_LISTENERS
    ensures var m := Aggregate(ds);
      && m.status == SummaryComplete && m.total == |ds| && m.incomplete == |UndecidedAt(ds)|
      && CountsListeners(m.causes, CAUSES, ds, (d: Diagnostic) => d.causes)
      && CountsListeners(m.subtypes, FEATURES, ds, (d: Diagnostic) => d.subtypes)
      && CountsListeners(m.shapes, SHAPES, ds, (d: Diagnostic) => d.shapes)
      && CountsListeners(m.provenance, PROVENANCES, ds, (d: Diagnostic) => d.provenance)
  {
    CountIs(ds, CausesOf, InterfaceUncertainty);
    CountsAre(CAUSES, ds, CausesOf, (d: Diagnostic) => d.causes);
    CountsAre(FEATURES, ds, SubtypesOf, (d: Diagnostic) => d.subtypes);
    CountsAre(SHAPES, ds, ShapesOf, (d: Diagnostic) => d.shapes);
    CountsAre(PROVENANCES, ds, ProvenanceOf, (d: Diagnostic) => d.provenance);
    hide Counts, CountWith, Incomplete, UndecidedAt, ListedAt, CountsListeners;
  }

  /** How a restricted remote condition is described. */
  lemma ShapeIs(conditions: seq<AddressCondition>)
    ensures var local := LocalSubnetScope in conditions;
      var explicit := exists c :: c in conditions && (c.Exact? || c.Cidr? || c.V4Range? || c.V6Range?);
      && (ShapeOf(conditions) == MixedSupportedRestriction <==> local && explicit)
      && (ShapeOf(conditions) == LocalSubnet <==> local && !explicit)
      && (ShapeOf(conditions) == ExplicitRestriction <==> !local && explicit)
      && (ShapeOf(conditions) == OtherClosedRestriction <==> !local && !explicit)
  {
  }

  // ----- removing exact duplicates

  ghost predicate Collides(rules: seq<Rule>) {
    exists i, j :: 0 <= i < j < |rules| && rules[i].id == rules[j].id && !SameRule(rules[i], rules[j])
  }

  /** Two rules differ in something other than their provenance. */
  predicate Differ(a: Rule, b: Rule) {
    || a.id != b.id || a.technology != b.technology || a.enabled != b.enabled || a.direction != b.direction
    || a.action != b.action || a.profiles != b.profiles || a.protocol != b.protocol || a.localPorts != b.localPorts
    || a.localAddresses != b.localAddresses || a.remoteAddresses != b.remoteAddresses
    || a.application != b.application || a.interface != b.interface || a.edgeTraversal != b.edgeTraversal
    || a.unsupported != b.unsupported
  }

  /** A snapshot collides iff two of its rules share an id and differ in something other than their provenance. */
  lemma CollidesExactlyWhen(rules: seq<Rule>)
    ensures Collides(rules)
      <==> exists i, j :: 0 <= i < j < |rules| && rules[i].id == rules[j].id && Differ(rules[i], rules[j])
  {
    forall a, b ensures SameRule(a, b) <==> !Differ(a, b) {
    }
    hide SameRule, Differ;
  }

  function LastRule(rules: seq<Rule>, id: string): Option<Rule> {
    if rules == [] then None
    else if rules[|rules| - 1].id == id then Some(rules[|rules| - 1])
    else LastRule(rules[..|rules| - 1], id)
  }

  ghost predicate NormalForm(rules: seq<Rule>, normal: seq<Rule>) {
    && (forall i, j :: 0 <= i < j < |normal| ==> normal[i].id != normal[j].id && StrLe(normal[i].id, normal[j].id))
    && (forall k :: 0 <= k < |normal| ==> LastRule(rules, normal[k].id) == Some(normal[k]))
    && (forall r :: r in rules ==> exists k :: 0 <= k < |normal| && normal[k].id == r.id)
  }

  lemma {:induction false} LastRuleMeans(rules: seq<Rule>, id: string)
    ensures LastRule(rules, id).Some? ==> LastRule(rules, id).value in rules && LastRule(rules, id).value.id == id
    ensures LastRule(rules, id).None? <==> forall r :: r in rules ==> r.id != id
  {
    if rules != [] {
      assert rules == rules[..|rules| - 1] + [rules[|rules| - 1]];
      LastRuleMeans(rules[..|rules| - 1], id);
    }
  }

  method NormalizeRules(rules: seq<Rule>) returns (r: Option<seq<Rule>>)
    ensures r.None? <==> |rules| > MAX_FIREWALL_RULES || Collides(rules)
    ensures r.Some? ==> NormalForm(rules, r.value)
  {
    if |rules| > MAX_FIREWALL_RULES { return None; }
    var byId: map<string, Rule> := map[];
    for i := 0 to |rules|
      invariant !Collides(rules[..i])
      invariant forall id :: (if id in byId then Some(byId[id]) else None) == LastRule(rules[..i], id)
    {
      var rule := rules[i];
      assert rules[..i + 1] == rules[..i] + [rule];
      LastRuleMeans(rules[..i], rule.id);
      hide SameRule;
      if rule.id in byId && !SameRule(byId[rule.id], rule) {
        CollisionFound(rules, i, byId[rule.id]);
        return None;
      }
      NoNewCollision(rules[..i], rule);
      hide Collides;
      byId := byId[rule.id := rule];
      assert rules[..i + 1][..i] == rules[..i];
    }
    assert rules[..|rules|] == rules;
    var order := SortedListing(byId.Keys);
    var normal := seq(|order|, k requires 0 <= k < |order| => if order[k] in byId then byId[order[k]] else rules[0]);
    r := Some(normal);
    Normalised(rules, byId, order, normal);
  }

  lemma CollisionFound(rules: seq<Rule>, i: nat, earlier: Rule)
    requires i < |rules| && earlier in rules[..i] && earlier.id == rules[i].id && !SameRule(earlier, rules[i])
    ensures Collides(rules)
  {
    var k :| 0 <= k < i && rules[..i][k] == earlier;
    assert rules[k].id == rules[i].id && !SameRule(rules[k], rules[i]);
  }

  lemma NoNewCollision(rules: seq<Rule>, rule: Rule)
    requires !Collides(rules)
    requires LastRule(rules, rule.id).Some? ==> SameRule(LastRule(rules, rule.id).value, rule)
    ensures !Collides(rules + [rule])
  {
    LastRuleMeans(rules, rule.id);
    var more := rules + [rule];
    var last := LastRule(rules, rule.id);
    forall i, j | 0 <= i < j < |more| && more[i].id == more[j].id ensures SameRule(more[i], more[j]) {
      assert more[i] in rules;
      if j == |rules| {
        var k :| 0 <= k < |rules| && rules[k] == last.value;
        assert SameRule(rules[i], rules[k]) by {
          if i < k { assert !Collides(rules); } else if k < i { assert SameRule(rules[k], rules[i]); }
        }
      }
    }
  }

  lemma TextListing(ids: set<string>)
    ensures var order := Listing(ids, StrLe);
      && (forall i, j :: 0 <= i < j < |order| ==> order[i] != order[j] && StrLe(order[i], order[j]))
      && forall id :: id in order <==> id in ids
  {
    StrLeIsTotal();
    ListingFacts(ids, StrLe);
    hide StrLe, Listing, Preorder;
  }

  lemma Normalised(rules: seq<Rule>, byId: map<string, Rule>, order: seq<string>, normal: seq<Rule>)
    requires forall id :: (if id in byId then Some(byId[id]) else None) == LastRule(rules, id)
    requires order == Listing(byId.Keys, StrLe)
    requires |normal| == |order| && forall k :: 0 <= k < |order| && order[k] in byId ==> normal[k] == byId[order[k]]
    ensures NormalForm(rules, normal)
  {
    TextListing(byId.Keys);
    hide StrLe, Listing, LastRule;
    forall k | 0 <= k < |order| ensures normal[k].id == order[k] && LastRule(rules, order[k]) == Some(normal[k]) {
      assert order[k] in byId;
      LastRuleMeans(rules, order[k]);
    }
    forall r | r in rules ensures exists k :: 0 <= k < |normal| && normal[k].id == r.id {
      LastRuleMeans(rules, r.id);
      assert r.id in byId && r.id in order;
      var k :| 0 <= k < |order| && order[k] == r.id;
      assert normal[k].id == r.id;
    }
  }

  lemma {:induction false} LastRuleIs(rules: seq<Rule>, x: Rule)
    ensures LastRule(rules, x.id) == Some(x) <==>
      exists j :: 0 <= j < |rules| && rules[j] == x && forall i :: j < i < |rules| ==> rules[i].id != x.id
  {
    if rules != [] {
      var init, last := rules[..|rules| - 1], rules[|rules| - 1];
      LastRuleIs(init, x);
      assert forall i :: 0 <= i < |init| ==> init[i] == rules[i];
    }
  }

  /** Of the rules with one id a snapshot keeps the last, with the provenance that one has. */
  lemma NormalFormKeepsLast(rules: seq<Rule>, normal: seq<Rule>, x: Rule)
    requires NormalForm(rules, normal)
    ensures x in normal <==>
      exists j :: 0 <= j < |rules| && rules[j] == x && forall i :: j < i < |rules| ==> rules[i].id != x.id
  {
    LastRuleIs(rules, x);
    LastRuleMeans(rules, x.id);
    hide StrLe, LastRule;
    if LastRule(rules, x.id) == Some(x) {
      var k :| 0 <= k < |normal| && normal[k].id == x.id;
      assert normal[k] in normal;
    }
    if x in normal {
      var k :| 0 <= k < |normal| && normal[k] == x;
    }
  }

  // ----- normalisation and verdicts

  lemma NormalIds(rules: seq<Rule>, normal: seq<Rule>)
    requires NormalForm(rules, normal)
    ensures IdsDistinct(normal)
    ensures forall r :: r in normal ==> r in rules && LastRule(rules, r.id) == Some(r)
  {
    hide StrLe, LastRule;
    forall r | r in normal ensures r in rules && LastRule(rules, r.id) == Some(r) {
      var k :| 0 <= k < |normal| && normal[k] == r;
      LastRuleMeans(rules, r.id);
    }
  }

  lemma SameIdSameRule(rules: seq<Rule>, a: Rule, b: Rule)
    requires !Collides(rules) && a in rules && b in rules && a.id == b.id
    ensures SameRule(a, b)
  {
    var i :| 0 <= i < |rules| && rules[i] == a;
    var j :| 0 <= j < |rules| && rules[j] == b;
    if i < j { assert SameRule(rules[i], rules[j]); }
    if j < i { assert SameRule(rules[j], rules[i]); }
  }

  /** A way of dropping the repeats of a snapshot: one rule of each id. */
  ghost predicate Selects(rules: seq<Rule>, chosen: seq<Rule>) {
    && IdsDistinct(chosen)
    && (forall r :: r in chosen ==> r in rules)
    && (forall r :: r in rules ==> exists q :: q in chosen && q.id == r.id)
  }

  lemma SelectionsMirror(rules: seq<Rule>, a: seq<Rule>, b: seq<Rule>)
    requires !Collides(rules) && Selects(rules, a) && Selects(rules, b)
    ensures Mirrors(a, b)
  {
    hide SameRule, Collides, Selects;
    forall r | r in a ensures exists q :: q in b && SameRule(r, q) {
      ChosenAreRules(rules, a, r);
      var q := Chosen(rules, b, r);
      SameIdSameRule(rules, r, q);
    }
  }

  lemma ChosenAreRules(rules: seq<Rule>, chosen: seq<Rule>, r: Rule)
    requires Selects(rules, chosen) && r in chosen
    ensures r in rules
  {
  }

  lemma Chosen(rules: seq<Rule>, chosen: seq<Rule>, r: Rule) returns (q: Rule)
    requires Selects(rules, chosen) && r in rules
    ensures q in chosen && q in rules && q.id == r.id
  {
    hide IdsDistinct;
    q :| q in chosen && q.id == r.id;
  }

  lemma NormalFormSelects(rules: seq<Rule>, normal: seq<Rule>)
    requires NormalForm(rules, normal)
    ensures Selects(rules, normal)
  {
    NormalIds(rules, normal);
    hide StrLe, LastRule;
  }

  /**
   * Normalisation changes no verdict: whichever of several equal rules are kept, in whatever order,
   * the listener is judged as on the normal form.
   */
  lemma NormalisationKeepsVerdict(rules: seq<Rule>, normal: seq<Rule>, chosen: seq<Rule>, s: Subject,
                                  collection: CoverageState, default: DefaultPolicy)
    requires !Collides(rules) && NormalForm(rules, normal) && Selects(rules, chosen)
    ensures Evaluate(s, normal, collection, default) == Evaluate(s, chosen, collection, default)
  {
    NormalFormSelects(rules, normal);
    assert IdsDistinct(normal) && IdsDistinct(chosen);
    hide Evaluate, Collides, NormalForm, Selects, IdsDistinct;
    SelectionsMirror(rules, normal, chosen);
    SelectionsMirror(rules, chosen, normal);
    EvaluationIgnoresProvenance(s, normal, chosen, collection, default);
  }

  /** Snapshots of the same rules, ordered and repeated in any way, are judged the same once normalised. */
  lemma NormalisationForgetsOrder(a: seq<Rule>, b: seq<Rule>, m: seq<Rule>, n: seq<Rule>, s: Subject,
                                  collection: CoverageState, default: DefaultPolicy)
    requires forall r :: r in a <==> r in b
    requires !Collides(a) && NormalForm(a, m) && NormalForm(b, n)
    ensures Evaluate(s, m, collection, default) == Evaluate(s, n, collection, default)
  {
    NormalFormSelects(b, n);
    assert Selects(a, n) by { hide IdsDistinct; }
    hide Evaluate, Collides, NormalForm, Selects;
    NormalisationKeepsVerdict(a, m, n, s, collection, default);
  }

  predicate RuleLe(a: Rule, b: Rule) { StrLe(a.id, b.id) }

  /** Normalising twice changes nothing, provenance included. */
  lemma NormalisationIsIdempotent(rules: seq<Rule>, n: seq<Rule>, m: seq<Rule>)
    requires NormalForm(rules, n) && NormalForm(n, m)
    ensures m == n && !Collides(n)
  {
    NormalIds(rules, n);
    NormalIds(n, m);
    NormalOrder(rules, n);
    NormalOrder(n, m);
    hide StrLe, LastRule, RuleLe, Separates;
    forall r ensures r in m <==> r in n {
      if r in n {
        var k :| 0 <= k < |m| && m[k].id == r.id;
        assert m[k] in m;
      }
    }
    DistinctSameElems(m, n);
    hide NormalForm;
    SortedIsUnique(m, n, RuleLe);
  }

  lemma NormalOrder(rules: seq<Rule>, normal: seq<Rule>)
    requires NormalForm(rules, normal)
    ensures Distinct(normal) && Sorted(normal, RuleLe) && Separates(RuleLe, normal)
  {
    StrLeIsTotal();
    hide StrLe, LastRule;
    forall x, y | x in normal && y in normal && RuleLe(x, y) && RuleLe(y, x) ensures x == y {
      var i :| 0 <= i < |normal| && normal[i] == x;
      var j :| 0 <= j < |normal| && normal[j] == y;
      assert x.id == y.id;
    }
  }
}
