/** Binding of capability proposals: default materialisation and digests. */
module Proposals {
  import opened Common
  import opened Orders
  import opened Bytes
  import opened Encoding

  datatype ParameterSpec = ParameterSpec(key: string, kind: ParameterKind, required: bool)

  datatype Policy = Policy(
    capabilityId: string, key: string, default: Option<Parameter>, range: Option<(int, int)>, allowedText: seq<string>)

  datatype Effect = OrdinaryEffect | ProhibitedEffect
  datatype Permission = ReadOnly | UserApprovalRequired | ProhibitedPermission
  datatype Availability = Available | Unavailable | ProhibitedAvailability

  datatype Metadata = Metadata(
    capabilityId: string,
    version: string,
    effect: Effect,
    permission: Permission,
    availability: Availability,
    targetKinds: seq<TargetKind>,
    parameters: seq<ParameterSpec>)

  /** Integer and UTC timestamp texts; timestamps in microseconds, None where no such date exists. */
  datatype Readers = Readers(intOf: string -> int, timeOf: string -> Option<int>)

  datatype Failure =
    | UnknownCapability
    | UnavailableCapability
    | ProhibitedCapability
    | IncompatibleTarget
    | UnknownParameter
    | DuplicateParameter
    | MissingRequiredParameter
    | WrongParameterKind
    | InvalidParameterValue

  const SCORE_HISTORY := "cyberwatchtower.application.get_score_history"
  const FINDING_TIMELINE := "cyberwatchtower.application.get_finding_timeline"
  const COMPARE_REPORTS := "cyberwatchtower.application.compare_saved_reports"
  const SAVED_REPORT := "cyberwatchtower.application.get_saved_report"
  const INGEST_REPORT := "cyberwatchtower.application.ingest_saved_report_into_memory"
  const MICROSECONDS_IN_366_DAYS := 366 * 86_400 * 1_000_000
  const PROPOSAL_LIFETIME := 10 * 60 * 1_000_000

  function SpecFor(specs: seq<ParameterSpec>, key: string): Option<ParameterSpec> {
    if specs == [] then None
    else if specs[0].key == key then Some(specs[0])
    else SpecFor(specs[1..], key)
  }

  function PolicyFor(policies: seq<Policy>, capabilityId: string, key: string): Option<Policy> {
    if policies == [] then None
    else if policies[0].capabilityId == capabilityId && policies[0].key == key then Some(policies[0])
    else PolicyFor(policies[1..], capabilityId, key)
  }

  /** The default of a parameter, if its policy has one. */
  function DefaultFor(m: Metadata, policies: seq<Policy>, key: string): Option<Parameter> {
    var policy := PolicyFor(policies, m.capabilityId, key);
    if policy.Some? then policy.value.default else None
  }

  /** What the catalogue and policy validations guarantee of a capability. */
  ghost predicate WellFormed(m: Metadata, policies: seq<Policy>) {
    && |m.parameters| <= MAX_PARAMETERS
    && (forall i, j :: 0 <= i < j < |m.parameters| ==> m.parameters[i].key != m.parameters[j].key)
    && (forall s :: s in m.parameters && DefaultFor(m, policies, s.key).Some? ==>
          !s.required && DefaultFor(m, policies, s.key).value.key == s.key
          && DefaultFor(m, policies, s.key).value.kind == s.kind)
    && (m.capabilityId == SCORE_HISTORY ==>
          Requires(m, "start_at") && Requires(m, "end_at"))
  }

  predicate Requires(m: Metadata, key: string) {
    exists s :: s in m.parameters && s.key == key && s.required
  }

  // ----- the effective parameters

  predicate HasKey(ps: seq<Parameter>, key: string) {
    exists p :: p in ps && p.key == key
  }

  function Defaults(m: Metadata, policies: seq<Policy>, specs: seq<ParameterSpec>, ps: seq<Parameter>): seq<Parameter> {
    if specs == [] then []
    else
      var before := Defaults(m, policies, specs[..|specs| - 1], ps);
      var spec := specs[|specs| - 1];
      var default := DefaultFor(m, policies, spec.key);
      if HasKey(ps, spec.key) || default.None? then before else before + [default.value]
  }

  predicate ParameterLe(a: Parameter, b: Parameter) { StrLe(a.key, b.key) }

  /** The supplied parameters and the missing defaults, by key. */
  function Effective(m: Metadata, policies: seq<Policy>, ps: seq<Parameter>): seq<Parameter> {
    Sort(ps + Defaults(m, policies, m.parameters, ps), ParameterLe)
  }

  function ValueWith(ps: seq<Parameter>, key: string): Option<string> {
    if ps == [] then None else if ps[0].key == key then Some(ps[0].value) else ValueWith(ps[1..], key)
  }

  predicate ValueOk(m: Metadata, policies: seq<Policy>, p: Parameter, readers: Readers) {
    var policy := PolicyFor(policies, m.capabilityId, p.key);
    policy.Some? ==>
      && (policy.value.range.Some? ==>
            policy.value.range.value.0 <= readers.intOf(p.value) <= policy.value.range.value.1)
      && (policy.value.allowedText != [] ==> p.value in policy.value.allowedText)
  }

  /** A history range must be two real times, in order, at most 366 days apart. */
  predicate RangeOk(m: Metadata, ps: seq<Parameter>, readers: Readers) {
    m.capabilityId == SCORE_HISTORY ==>
      var startText, endText := ValueWith(ps, "start_at"), ValueWith(ps, "end_at");
      startText.Some? && endText.Some? &&
      var startAt, endAt := readers.timeOf(startText.value), readers.timeOf(endText.value);
      startAt.Some? && endAt.Some? && startAt.value <= endAt.value <= startAt.value + MICROSECONDS_IN_366_DAYS
  }

  predicate ValuesOk(m: Metadata, policies: seq<Policy>, ps: seq<Parameter>, readers: Readers) {
    (forall p :: p in ps ==> ValueOk(m, policies, p, readers)) && RangeOk(m, ps, readers)
  }

  ghost predicate Specified(m: Metadata, p: Parameter) {
    SpecFor(m.parameters, p.key).Some? && SpecFor(m.parameters, p.key).value.kind == p.kind
  }

  ghost predicate Supplied(m: Metadata, ps: seq<Parameter>) {
    forall s :: s in m.parameters && s.required ==> HasKey(ps, s.key)
  }

  ghost predicate Accepted(m: Metadata, policies: seq<Policy>, ps: seq<Parameter>, readers: Readers) {
    && |ps| <= MAX_PARAMETERS && KeysAscend(ps)
    && (forall p :: p in ps ==> Specified(m, p))
    && Supplied(m, ps)
    && ValuesOk(m, policies, Effective(m, policies, ps), readers)
  }

  lemma {:induction false} SpecForMeans(specs: seq<ParameterSpec>, key: string)
    ensures SpecFor(specs, key).Some? <==> exists s :: s in specs && s.key == key
    ensures SpecFor(specs, key).Some? ==> SpecFor(specs, key).value in specs && SpecFor(specs, key).value.key == key
  {
    if specs != [] {
      assert specs == [specs[0]] + specs[1..];
      SpecForMeans(specs[1..], key);
    }
  }

  ghost predicate IsMissingDefault(m: Metadata, policies: seq<Policy>, specs: seq<ParameterSpec>, ps: seq<Parameter>,
                                   x: Parameter)
  {
    exists s :: s in specs && !HasKey(ps, s.key) && DefaultFor(m, policies, s.key) == Some(x)
  }

  lemma {:induction false} DefaultsMean(m: Metadata, policies: seq<Policy>, specs: seq<ParameterSpec>,
                                        ps: seq<Parameter>)
    ensures forall x :: x in Defaults(m, policies, specs, ps) <==> IsMissingDefault(m, policies, specs, ps, x)
  {
    hide HasKey, DefaultFor;
    if specs != [] {
      var init, last := specs[..|specs| - 1], specs[|specs| - 1];
      assert specs == init + [last];
      DefaultsMean(m, policies, init, ps);
      forall x | IsMissingDefault(m, policies, init, ps, x) ensures IsMissingDefault(m, policies, specs, ps, x) {
        var s :| s in init && !HasKey(ps, s.key) && DefaultFor(m, policies, s.key) == Some(x);
        assert s in specs;
      }
      assert last in specs;
    }
  }

  ghost predicate KeysDiffer(ps: seq<Parameter>) {
    forall i, j :: 0 <= i < j < |ps| ==> ps[i].key != ps[j].key
  }

  /** Specs whose defaults carry their own key. */
  ghost predicate OwnKeys(m: Metadata, policies: seq<Policy>, specs: seq<ParameterSpec>) {
    && (forall i, j :: 0 <= i < j < |specs| ==> specs[i].key != specs[j].key)
    && (forall s :: s in specs && DefaultFor(m, policies, s.key).Some? ==>
          DefaultFor(m, policies, s.key).value.key == s.key)
  }

  lemma {:induction false} DefaultKeysDiffer(m: Metadata, policies: seq<Policy>, specs: seq<ParameterSpec>,
                                             ps: seq<Parameter>)
    requires OwnKeys(m, policies, specs)
    ensures KeysDiffer(Defaults(m, policies, specs, ps))
    ensures forall x ::
      x in Defaults(m, policies, specs, ps) ==> !HasKey(ps, x.key) && exists s :: s in specs && s.key == x.key
  {
    hide HasKey, DefaultFor;
    if specs != [] {
      var init, last := specs[..|specs| - 1], specs[|specs| - 1];
      assert specs == init + [last] && last in specs;
      DefaultKeysDiffer(m, policies, init, ps);
      var before := Defaults(m, policies, init, ps);
      forall x | x in before ensures x.key != last.key && exists s :: s in specs && s.key == x.key {
        var s :| s in init && s.key == x.key;
        assert s in specs;
      }
    }
  }

  lemma SortedByKey(ps: seq<Parameter>)
    requires KeysDiffer(ps)
    ensures KeysAscend(Sort(ps, ParameterLe)) && |Sort(ps, ParameterLe)| == |ps|
    ensures forall x :: x in Sort(ps, ParameterLe) <==> x in ps
  {
    StrLeIsTotal();
    assert Preorder(ParameterLe) by { hide StrLe; }
    SortIsPermutation(ps, ParameterLe);
    SortIsSorted(ps, ParameterLe);
    assert Distinct(ps);
    SortKeepsDistinct(ps, ParameterLe);
    hide StrLe, Sort, Preorder;
    var sorted := Sort(ps, ParameterLe);
    forall i, j | 0 <= i < j < |sorted| ensures sorted[i].key != sorted[j].key {
      assert sorted[i] in ps && sorted[j] in ps && sorted[i] != sorted[j];
    }
  }

  /** Unique keys in order, and nothing but the supplied parameters and the missing defaults. */
  lemma EffectiveIsCanonical(m: Metadata, policies: seq<Policy>, ps: seq<Parameter>)
    requires WellFormed(m, policies) && KeysDiffer(ps)
    ensures KeysAscend(Effective(m, policies, ps))
    ensures forall x :: x in Effective(m, policies, ps) <==>
      x in ps || IsMissingDefault(m, policies, m.parameters, ps, x)
  {
    hide DefaultFor, ParameterLe, Sort;
    assert OwnKeys(m, policies, m.parameters);
    DefaultKeysDiffer(m, policies, m.parameters, ps);
    DefaultsMean(m, policies, m.parameters, ps);
    var ds := Defaults(m, policies, m.parameters, ps);
    hide Defaults, IsMissingDefault, WellFormed, OwnKeys;
    forall i, j | 0 <= i < |ps| && 0 <= j < |ds| ensures ps[i].key != ds[j].key {
      assert ps[i] in ps && ds[j] in ds;
    }
    assert KeysDiffer(ps + ds);
    SortedByKey(ps + ds);
  }

  lemma SameKeySame(ps: seq<Parameter>, x: Parameter, y: Parameter)
    requires KeysAscend(ps) && x in ps && y in ps && x.key == y.key
    ensures x == y
  {
    hide StrLe;
  }

  lemma AscendingIsUnique(a: seq<Parameter>, b: seq<Parameter>)
    requires KeysAscend(a) && KeysAscend(b) && forall x :: x in a <==> x in b
    ensures a == b
  {
    StrLeIsTotal();
    hide StrLe;
    assert Distinct(a) && Distinct(b) && Sorted(a, ParameterLe) && Sorted(b, ParameterLe);
    assert Separates(ParameterLe, a);
    DistinctSameElems(a, b);
    SortedIsUnique(a, b, ParameterLe);
  }

  /** q supplies what ps supplies and spells out some of its defaults. */
  ghost predicate SpellsOut(m: Metadata, policies: seq<Policy>, ps: seq<Parameter>, q: seq<Parameter>) {
    && KeysAscend(q)
    && (forall x :: x in ps ==> x in q)
    && (forall x :: x in q ==> x in Effective(m, policies, ps))
  }

  lemma HasKeyGrows(ps: seq<Parameter>, q: seq<Parameter>, key: string)
    requires forall x :: x in ps ==> x in q
    ensures HasKey(ps, key) ==> HasKey(q, key)
  {
    if HasKey(ps, key) {
      var p :| p in ps && p.key == key;
      assert p in q;
    }
  }

  lemma SpelledOutDefault(m: Metadata, policies: seq<Policy>, ps: seq<Parameter>, q: seq<Parameter>, x: Parameter)
    requires WellFormed(m, policies) && KeysAscend(ps) && SpellsOut(m, policies, ps, q)
    requires IsMissingDefault(m, policies, m.parameters, ps, x)
    ensures x in q || IsMissingDefault(m, policies, m.parameters, q, x)
  {
    hide StrLe, DefaultFor;
    EffectiveIsCanonical(m, policies, ps);
    hide Effective;
    var s :| s in m.parameters && !HasKey(ps, s.key) && DefaultFor(m, policies, s.key) == Some(x);
    if HasKey(q, s.key) {
      var y :| y in q && y.key == s.key;
      SameKeySame(Effective(m, policies, ps), x, y);
    }
  }

  lemma MissingDefaultStays(m: Metadata, policies: seq<Policy>, ps: seq<Parameter>, q: seq<Parameter>, x: Parameter)
    requires forall x :: x in ps ==> x in q
    requires IsMissingDefault(m, policies, m.parameters, q, x)
    ensures IsMissingDefault(m, policies, m.parameters, ps, x)
  {
    hide DefaultFor, HasKey;
    var s :| s in m.parameters && !HasKey(q, s.key) && DefaultFor(m, policies, s.key) == Some(x);
    HasKeyGrows(ps, q, s.key);
  }

  /** Omitting a default or writing it out gives the same effective parameters. */
  lemma SpelledOutIsSame(m: Metadata, policies: seq<Policy>, ps: seq<Parameter>, q: seq<Parameter>)
    requires WellFormed(m, policies) && KeysAscend(ps) && SpellsOut(m, policies, ps, q)
    ensures Effective(m, policies, q) == Effective(m, policies, ps)
  {
    EffectiveIsCanonical(m, policies, ps);
    EffectiveIsCanonical(m, policies, q);
    var e, f := Effective(m, policies, ps), Effective(m, policies, q);
    hide Effective, IsMissingDefault, StrLe, WellFormed;
    forall x ensures x in e <==> x in f {
      if IsMissingDefault(m, policies, m.parameters, ps, x) { SpelledOutDefault(m, policies, ps, q, x); }
      if IsMissingDefault(m, policies, m.parameters, q, x) { MissingDefaultStays(m, policies, ps, q, x); }
    }
    AscendingIsUnique(e, f);
  }

  lemma EffectiveIsSpecified(m: Metadata, policies: seq<Policy>, ps: seq<Parameter>, x: Parameter)
    requires WellFormed(m, policies) && KeysAscend(ps) && forall p :: p in ps ==> Specified(m, p)
    requires x in Effective(m, policies, ps)
    ensures Specified(m, x)
  {
    EffectiveIsCanonical(m, policies, ps);
    hide Effective, StrLe, DefaultFor, HasKey;
    if x !in ps {
      var s :| s in m.parameters && !HasKey(ps, s.key) && DefaultFor(m, policies, s.key) == Some(x);
      SpecForMeans(m.parameters, x.key);
    }
  }

  lemma SpecifiedAreFew(m: Metadata, q: seq<Parameter>)
    requires KeysDiffer(q) && forall p :: p in q ==> Specified(m, p)
    ensures |q| <= |m.parameters|
  {
    var keys := seq(|q|, i requires 0 <= i < |q| => q[i].key);
    var specKeys := seq(|m.parameters|, i requires 0 <= i < |m.parameters| => m.parameters[i].key);
    forall k | k in keys ensures k in specKeys {
      var i :| 0 <= i < |q| && keys[i] == k;
      assert q[i] in q;
      SpecForMeans(m.parameters, k);
      var s :| s in m.parameters && s.key == k;
      var j :| 0 <= j < |m.parameters| && m.parameters[j] == s;
      assert specKeys[j] == k;
    }
    DistinctLength(keys);
    ElemsAtMost(specKeys);
    SubsetCardinality(Elems(keys), Elems(specKeys));
  }

  /** And it is accepted as well. */
  lemma SpelledOutIsAccepted(m: Metadata, policies: seq<Policy>, ps: seq<Parameter>, q: seq<Parameter>,
                             readers: Readers)
    requires WellFormed(m, policies) && Accepted(m, policies, ps, readers) && SpellsOut(m, policies, ps, q)
    ensures Accepted(m, policies, q, readers)
  {
    SpelledOutIsSame(m, policies, ps, q);
    hide Effective, StrLe, ValuesOk, HasKey, Specified;
    forall p | p in q ensures Specified(m, p) { EffectiveIsSpecified(m, policies, ps, p); }
    SpecifiedAreFew(m, q);
    forall s | s in m.parameters && s.required ensures HasKey(q, s.key) { HasKeyGrows(ps, q, s.key); }
  }

  /** Materialising again changes nothing. */
  lemma MaterialisationIsIdempotent(m: Metadata, policies: seq<Policy>, ps: seq<Parameter>, readers: Readers)
    requires WellFormed(m, policies) && Accepted(m, policies, ps, readers)
    ensures Accepted(m, policies, Effective(m, policies, ps), readers)
    ensures Effective(m, policies, Effective(m, policies, ps)) == Effective(m, policies, ps)
  {
    EffectiveIsCanonical(m, policies, ps);
    hide Effective, StrLe;
    assert SpellsOut(m, policies, ps, Effective(m, policies, ps));
    hide Accepted;
    SpelledOutIsAccepted(m, policies, ps, Effective(m, policies, ps), readers);
    SpelledOutIsSame(m, policies, ps, Effective(m, policies, ps));
  }

  // ----- digests

  function ParameterDigest(ps: seq<Parameter>, sha256: seq<byte> -> string): string {
    sha256(EncodeParameters(ps))
  }

  function TargetDigest(t: Target, sha256: seq<byte> -> string): string {
    sha256(EncodeTarget(t))
  }

  /** Two requests have the same parameter digest iff they mean the same effective parameters. */
  lemma DigestsMeanEffectiveParameters(m: Metadata, policies: seq<Policy>, ps: seq<Parameter>, q: seq<Parameter>,
                                       sha256: seq<byte> -> string)
    requires forall a, b :: sha256(a) == sha256(b) ==> a == b
    requires forall p :: p in Effective(m, policies, ps) + Effective(m, policies, q) ==> ValidParameter(p)
    ensures ParameterDigest(Effective(m, policies, ps), sha256) == ParameterDigest(Effective(m, policies, q), sha256)
      <==> Effective(m, policies, ps) == Effective(m, policies, q)
  {
    hide Effective, EncodeParameters;
    if ParameterDigest(Effective(m, policies, ps), sha256) == ParameterDigest(Effective(m, policies, q), sha256) {
      ParameterBytesInjective(Effective(m, policies, ps), Effective(m, policies, q));
    }
  }

  // ----- materialisation as it runs

  lemma KeyTests(ps: seq<Parameter>)
    ensures |set k | k in KeysOf(ps)| == |ps| <==> KeysDiffer(ps)
    ensures KeysDiffer(ps) ==> (KeysOf(ps) == Sort(KeysOf(ps), StrLe) <==> KeysAscend(ps))
  {
    var keys := KeysOf(ps);
    KeysAt(ps);
    DistinctIffCounted(keys);
    assert Elems(keys) == set k | k in keys;
    UniquelyOrderedMeans(ps);
    hide StrLe, KeysOf, Sort;
    if Distinct(keys) {
      forall i, j | 0 <= i < j < |ps| ensures ps[i].key != ps[j].key { assert keys[i] != keys[j]; }
    }
  }

  /** The first parameter that does not fit its spec has no spec at all, or one of another kind. */
  ghost predicate FirstUnspecified(m: Metadata, ps: seq<Parameter>, unknown: bool) {
    exists i ::
      && 0 <= i < |ps| && !Specified(m, ps[i])
      && (forall j :: 0 <= j < i ==> Specified(m, ps[j]))
      && (unknown <==> SpecFor(m.parameters, ps[i].key).None?)
  }

  /** Each failure code with what it says of the request. */
  ghost predicate Explains(code: Failure, m: Metadata, policies: seq<Policy>, ps: seq<Parameter>, readers: Readers) {
    match code
    case DuplicateParameter => |ps| <= MAX_PARAMETERS && !KeysDiffer(ps)
    case UnknownParameter => |ps| <= MAX_PARAMETERS && KeysAscend(ps) && FirstUnspecified(m, ps, true)
    case WrongParameterKind => |ps| <= MAX_PARAMETERS && KeysAscend(ps) && FirstUnspecified(m, ps, false)
    case MissingRequiredParameter =>
      |ps| <= MAX_PARAMETERS && KeysAscend(ps) && (forall p :: p in ps ==> Specified(m, p)) && !Supplied(m, ps)
    case InvalidParameterValue =>
      || |ps| > MAX_PARAMETERS
      || (KeysDiffer(ps) && !KeysAscend(ps))
      || (KeysAscend(ps) && (forall p :: p in ps ==> Specified(m, p)) && Supplied(m, ps)
          && !ValuesOk(m, policies, Effective(m, policies, ps), readers))
    case _ => false
  }

  method CheckSpecified(m: Metadata, ps: seq<Parameter>) returns (r: Option<Failure>)
    ensures r.None? <==> forall p :: p in ps ==> Specified(m, p)
    ensures r.Some? ==> r.value == UnknownParameter || r.value == WrongParameterKind
    ensures r.Some? ==> FirstUnspecified(m, ps, r.value == UnknownParameter)
  {
    for i := 0 to |ps|
      invariant forall j :: 0 <= j < i ==> Specified(m, ps[j])
    {
      var spec := SpecFor(m.parameters, ps[i].key);
      assert ps[i] in ps;
      if spec.None? { return Some(UnknownParameter); }
      if ps[i].kind != spec.value.kind { return Some(WrongParameterKind); }
    }
    r := None;
  }

  method AddDefaults(m: Metadata, policies: seq<Policy>, ps: seq<Parameter>) returns (r: Option<seq<Parameter>>)
    ensures r.None? <==> !Supplied(m, ps)
    ensures r.Some? ==> r.value == ps + Defaults(m, policies, m.parameters, ps)
  {
    var effective := ps;
    hide HasKey, PolicyFor;
    for i := 0 to |m.parameters|
      invariant effective == ps + Defaults(m, policies, m.parameters[..i], ps)
      invariant forall j :: 0 <= j < i && m.parameters[j].required ==> HasKey(ps, m.parameters[j].key)
    {
      var spec := m.parameters[i];
      assert m.parameters[..i + 1][..i] == m.parameters[..i];
      if !HasKey(ps, spec.key) {
        if spec.required { return None; }
        var policy := PolicyFor(policies, m.capabilityId, spec.key);
        if policy.Some? && policy.value.default.Some? {
          effective := effective + [policy.value.default.value];
        }
      }
    }
    assert m.parameters[..|m.parameters|] == m.parameters;
    r := Some(effective);
  }

  method CheckValues(m: Metadata, policies: seq<Policy>, ps: seq<Parameter>, readers: Readers) returns (ok: bool)
    ensures ok <==> ValuesOk(m, policies, ps, readers)
  {
    for i := 0 to |ps|
      invariant forall j :: 0 <= j < i ==> ValueOk(m, policies, ps[j], readers)
    {
      var policy := PolicyFor(policies, m.capabilityId, ps[i].key);
      assert ps[i] in ps;
      if policy.Some? {
        if policy.value.range.Some? {
          var value := readers.intOf(ps[i].value);
          if !(policy.value.range.value.0 <= value <= policy.value.range.value.1) { return false; }
        }
        if policy.value.allowedText != [] && ps[i].value !in policy.value.allowedText { return false; }
      }
    }
    hide ValueOk;
    ok := RangeOk(m, ps, readers);
  }

  method MaterializeParameters(m: Metadata, policies: seq<Policy>, ps: seq<Parameter>, readers: Readers)
    returns (r: Result<seq<Parameter>, Failure>)
    ensures r.Ok? <==> Accepted(m, policies, ps, readers)
    ensures r.Ok? ==> r.value == Effective(m, policies, ps)
    ensures r.Err? ==> Explains(r.error, m, policies, ps, readers)
  {
    hide StrLe, KeysOf, Sort, ValuesOk, HasKey, Specified, KeysAscend, KeysDiffer, Defaults, SpecFor, Supplied;
    if |ps| > MAX_PARAMETERS { return Err(InvalidParameterValue); }
    KeyTests(ps);
    AscendingDiffer(ps);
    var keys := KeysOf(ps);
    KeysLength(ps);
    if |set k | k in keys| != |keys| { return Err(DuplicateParameter); }
    if keys != Sort(keys, StrLe) { return Err(InvalidParameterValue); }
    var unspecified := CheckSpecified(m, ps);
    if unspecified.Some? { return Err(unspecified.value); }
    var effective := AddDefaults(m, policies, ps);
    if effective.None? { return Err(MissingRequiredParameter); }
    var result := Sort(effective.value, ParameterLe);
    var ok := CheckValues(m, policies, result, readers);
    if !ok { return Err(InvalidParameterValue); }
    r := Ok(result);
  }

  lemma AscendingDiffer(ps: seq<Parameter>)
    ensures KeysAscend(ps) ==> KeysDiffer(ps)
  {
  }

  lemma KeysLength(ps: seq<Parameter>)
    ensures |KeysOf(ps)| == |ps|
  {
    KeysAt(ps);
  }

  // ----- proposals

  datatype Request = Request(
    systemId: string, capabilityId: string, version: string, target: Target, parameters: seq<Parameter>)

  datatype Proposal = Proposal(
    proposalId: string,
    systemId: string,
    capabilityId: string,
    version: string,
    target: Target,
    targetDigest: string,
    parameters: seq<Parameter>,
    parameterDigest: string,
    issuedAt: int,
    expiresAt: int)

  predicate Prohibited(m: Metadata) {
    m.availability == ProhibitedAvailability || m.permission == ProhibitedPermission || m.effect == ProhibitedEffect
  }

  /** Reports a capability must be bound to, where it fixes their number. */
  function ReportCount(capabilityId: string): Option<nat> {
    if capabilityId == COMPARE_REPORTS then Some(2)
    else if capabilityId == SAVED_REPORT || capabilityId == INGEST_REPORT then Some(1)
    else if capabilityId == FINDING_TIMELINE then Some(0)
    else None
  }

  predicate TargetFitsCapability(m: Metadata, request: Request) {
    && request.systemId == request.target.systemId && request.target.kind in m.targetKinds
    && (ReportCount(m.capabilityId).Some? ==> |request.target.reportIds| == ReportCount(m.capabilityId).value)
  }

  /** The error of the first failing check: version, prohibition, availability, target, parameters. */
  ghost predicate Refuses(error: Failure, request: Request, m: Metadata, policies: seq<Policy>, readers: Readers) {
    var named := request.capabilityId == m.capabilityId && request.version == m.version;
    var banned := m.availability == ProhibitedAvailability || m.permission == ProhibitedPermission
                  || m.effect == ProhibitedEffect;
    var usable := named && !banned && m.availability == Available;
    match error
    case UnknownCapability => !named
    case ProhibitedCapability => named && banned
    case UnavailableCapability => named && !banned && m.availability == Unavailable
    case IncompatibleTarget => usable && !TargetFitsCapability(m, request)
    case _ =>
      usable && TargetFitsCapability(m, request) && Explains(error, m, policies, request.parameters, readers)
  }

  lemma ParametersAreToBlame(error: Failure, m: Metadata, policies: seq<Policy>, ps: seq<Parameter>, readers: Readers)
    requires Explains(error, m, policies, ps, readers)
    ensures error !in {UnknownCapability, ProhibitedCapability, UnavailableCapability, IncompatibleTarget}
  {
  }

  method ConstructProposal(request: Request, m: Metadata, policies: seq<Policy>, readers: Readers, issuedAt: int,
                           proposalId: string, sha256: seq<byte> -> string)
    returns (r: Result<Proposal, Failure>)
    ensures r.Ok? <==>
      && request.capabilityId == m.capabilityId && request.version == m.version
      && m.permission != ProhibitedPermission && m.effect != ProhibitedEffect && m.availability == Available
      && TargetFitsCapability(m, request) && Accepted(m, policies, request.parameters, readers)
    ensures r.Ok? ==>
      && r.value.systemId == request.systemId == r.value.target.systemId && r.value.target == request.target
      && r.value.capabilityId == m.capabilityId && r.value.version == m.version
      && r.value.parameters == Effective(m, policies, request.parameters)
      && r.value.targetDigest == sha256(EncodeTarget(request.target))
      && r.value.parameterDigest == sha256(EncodeParameters(Effective(m, policies, request.parameters)))
      && r.value.issuedAt == issuedAt && r.value.expiresAt == issuedAt + 10 * 60 * 1_000_000
      && r.value.proposalId == proposalId
    ensures r.Err? ==> Refuses(r.error, request, m, policies, readers)
  {
    hide Accepted, Explains, Effective, EncodeParameters, EncodeTarget;
    if request.capabilityId != m.capabilityId || request.version != m.version { return Err(UnknownCapability); }
    if Prohibited(m) { return Err(ProhibitedCapability); }
    if m.availability == Unavailable { return Err(UnavailableCapability); }
    if !TargetFitsCapability(m, request) { return Err(IncompatibleTarget); }
    var effective := MaterializeParameters(m, policies, request.parameters, readers);
    if effective.Err? {
      ParametersAreToBlame(effective.error, m, policies, request.parameters, readers);
      return Err(effective.error);
    }
    r := Ok(Proposal(proposalId, request.systemId, m.capabilityId, m.version, request.target,
                     TargetDigest(request.target, sha256), effective.value, ParameterDigest(effective.value, sha256),
                     issuedAt, issuedAt + PROPOSAL_LIFETIME));
  }

  /** The digests pin a proposal's target and effective parameters. */
  lemma DigestsBindProposal(a: Proposal, b: Proposal, sha256: seq<byte> -> string)
    requires forall x, y :: sha256(x) == sha256(y) ==> x == y
    requires ValidTarget(a.target) && ValidTarget(b.target)
    requires forall p :: p in a.parameters + b.parameters ==> ValidParameter(p)
    requires a.targetDigest == TargetDigest(a.target, sha256) && b.targetDigest == TargetDigest(b.target, sha256)
    requires a.parameterDigest == ParameterDigest(a.parameters, sha256)
      && b.parameterDigest == ParameterDigest(b.parameters, sha256)
    ensures a.targetDigest == b.targetDigest ==> a.target == b.target
    ensures a.parameterDigest == b.parameterDigest ==> a.parameters == b.parameters
    ensures a.parameterDigest != b.targetDigest
  {
    hide EncodeParameters, EncodeTarget, ValidTarget, ValidParameter;
    if a.targetDigest == b.targetDigest { TargetBytesInjective(a.target, b.target); }
    if a.parameterDigest == b.parameterDigest { ParameterBytesInjective(a.parameters, b.parameters); }
    EncodingsAreSeparate(a.parameters, b.target);
  }
}
