/** The stored form of a score: serialiser and the validator that re-derives its totals. */
module ScoringReport {
  import opened Common
  import opened Orders
  import opened Text
  import opened Vocabulary
  import opened ScoringContracts
  import opened ScoringPenalties
  import opened ScoringModel

  const MAX_SCORING_CONTRIBUTORS := 4096
  const MAX_SCORING_GROUP_MEMBERS := 4096
  const MAX_ATOMIC_PENALTIES := 4096

  datatype StoredCategory = StoredCategory(category: string, rawPenalty: int, appliedPenalty: int, saturated: bool)

  datatype StoredContributor = StoredContributor(
    groupId: string,
    category: string,
    findingIds: seq<string>,
    severity: string,
    state: string,
    atomicPenalties: seq<int>,
    basePenalty: int,
    rawPenalty: int,
    appliedPenalty: int,
    basis: string)

  datatype StoredGuardrail = StoredGuardrail(
    highestConfirmed: Option<string>,
    categoryTotal: int,
    effectiveTotal: int,
    additional: int,
    ceiling: Option<int>,
    applied: bool)

  datatype StoredScore = StoredScore(
    score: int,
    riskLevel: string,
    counts: map<string, int>,
    totalPenalty: int,
    categories: seq<StoredCategory>,
    contributors: seq<StoredContributor>,
    guardrail: StoredGuardrail)

  datatype ReportError =
    | InvalidText
    | InvalidSequence
    | ValueOutOfRange
    | InvalidCategories
    | InvalidCategory
    | DuplicateCategory
    | InvalidCategoryOrder
    | DuplicateGroup
    | InvalidContributor
    | InvalidState
    | InvalidBasis
    | InvalidFindingReference
    | InvalidAtomicPenalties
    | InvalidPenalty
    | InvalidGroupOrder
    | InvalidCategoryTotal
    | InvalidGuardrail
    | InvalidRiskLevel
    | InvalidCounts
    | InvalidEffectivePenalty
    | UnknownFinding

  // ----- closed values read back from text

  function ParseCategory(s: string): Option<ScoringCategory> {
    if s == NetworkExposure.Value() then Some(NetworkExposure)
    else if s == FirewallPosture.Value() then Some(FirewallPosture)
    else if s == OtherDeterministicRisk.Value() then Some(OtherDeterministicRisk)
    else None
  }

  function ParseSeverity(s: string): Option<Severity> {
    if s == Info.Value() then Some(Info)
    else if s == Low.Value() then Some(Low)
    else if s == Medium.Value() then Some(Medium)
    else if s == High.Value() then Some(High)
    else if s == Critical.Value() then Some(Critical)
    else None
  }

  function ParseState(s: string): Option<AssessmentState> {
    if s == Confirmed.Value() then Some(Confirmed)
    else if s == Potential.Value() then Some(Potential)
    else if s == Incomplete.Value() then Some(Incomplete)
    else if s == Informational.Value() then Some(Informational)
    else None
  }

  function ParseBasis(s: string): Option<ScoringBasisCode> {
    if s == PotentialListenerExposure.Value() then Some(PotentialListenerExposure)
    else if s == ConfirmedListenerExposure.Value() then Some(ConfirmedListenerExposure)
    else if s == PotentialFirewallPolicyRisk.Value() then Some(PotentialFirewallPolicyRisk)
    else if s == ConfirmedFirewallPolicyRisk.Value() then Some(ConfirmedFirewallPolicyRisk)
    else if s == PotentialDeterministicRisk.Value() then Some(PotentialDeterministicRisk)
    else if s == ConfirmedDeterministicRisk.Value() then Some(ConfirmedDeterministicRisk)
    else None
  }

  /** The report's text rule: non-empty after stripping, bounded, no control or format character. */
  predicate ReportText(s: string, maximum: nat, text: TextServices) {
    var t := text.Strip(s);
    0 < |t| <= maximum && forall c :: c in t ==> !IsControl(c) && !text.isFormat(c)
  }

  // ----- what an acceptable stored score is

  predicate CategoryOk(c: StoredCategory) {
    ParseCategory(c.category).Some? && 0 <= c.appliedPenalty <= c.rawPenalty
  }

  predicate CategoriesOk(cs: seq<StoredCategory>) {
    && |cs| == 3
    && (forall i :: 0 <= i < 3 ==> CategoryOk(cs[i]))
    && (forall i :: 0 <= i < 3 ==> ParseCategory(cs[i].category) == Some(CATEGORIES[i]))
  }

  function Stripped(ids: seq<string>, text: TextServices): (r: seq<string>)
    ensures |r| == |ids| && forall i :: 0 <= i < |ids| ==> r[i] == text.Strip(ids[i])
  {
    if ids == [] then [] else [text.Strip(ids[0])] + Stripped(ids[1..], text)
  }

  function MaxInt(s: seq<int>): int
    requires s != []
  {
    if |s| == 1 then s[0]
    else
      var rest := MaxInt(s[1..]);
      if rest <= s[0] then s[0] else rest
  }

  ghost predicate ReferencesOk(ids: seq<string>, reportIds: set<string>, text: TextServices) {
    && 0 < |ids| <= MAX_SCORING_GROUP_MEMBERS
    && (forall i :: 0 <= i < |ids| ==> ReportText(ids[i], MAX_SCORING_FINDING_ID_LENGTH, text))
    && Distinct(Stripped(ids, text))
    && Sorted(Stripped(ids, text), StrLe)
    && Elems(Stripped(ids, text)) <= reportIds
  }

  predicate PenaltiesOk(c: StoredContributor) {
    && 0 < |c.atomicPenalties| <= MAX_ATOMIC_PENALTIES
    && (forall i :: 0 <= i < |c.atomicPenalties| ==> c.atomicPenalties[i] >= 0)
    && c.basePenalty == MaxInt(c.atomicPenalties)
    && 0 <= c.appliedPenalty <= c.rawPenalty
  }

  predicate ClosedValuesOk(c: StoredContributor) {
    && ParseCategory(c.category).Some? && ParseSeverity(c.severity).Some? && ParseBasis(c.basis).Some?
    && (ParseState(c.state) == Some(Confirmed) || ParseState(c.state) == Some(Potential))
    && ParseBasis(c.basis).value == BasisFor(ParseCategory(c.category).value, ParseState(c.state).value)
  }

  ghost predicate ContributorOk(c: StoredContributor, reportIds: set<string>, text: TextServices) {
    && ReportText(c.groupId, MAX_SCORING_TEXT_LENGTH, text)
    && ClosedValuesOk(c)
    && ReferencesOk(c.findingIds, reportIds, text)
    && PenaltiesOk(c)
  }

  ghost predicate ContributorsOk(cs: seq<StoredContributor>, reportIds: set<string>, text: TextServices) {
    && |cs| <= MAX_SCORING_CONTRIBUTORS
    && (forall i :: 0 <= i < |cs| ==> ContributorOk(cs[i], reportIds, text))
    && (forall i, j :: 0 <= i < j < |cs| ==> text.Strip(cs[i].groupId) != text.Strip(cs[j].groupId))
    && (forall i, j :: 0 <= i < j < |cs| ==> StrLe(text.Strip(cs[i].groupId), text.Strip(cs[j].groupId)))
    && (forall i, j :: 0 <= i < j < |cs| ==>
          Elems(Stripped(cs[i].findingIds, text)) !! Elems(Stripped(cs[j].findingIds, text)))
  }

  function RawIn(cs: seq<StoredContributor>, category: string): int {
    if cs == [] then 0
    else (if cs[0].category == category then cs[0].rawPenalty else 0) + RawIn(cs[1..], category)
  }

  function AppliedIn(cs: seq<StoredContributor>, category: string): int {
    if cs == [] then 0
    else (if cs[0].category == category then cs[0].appliedPenalty else 0) + AppliedIn(cs[1..], category)
  }

  predicate TotalsOk(categories: seq<StoredCategory>, contributors: seq<StoredContributor>) {
    forall i :: 0 <= i < |categories| ==>
      RawIn(contributors, categories[i].category) == categories[i].rawPenalty
      && AppliedIn(contributors, categories[i].category) == categories[i].appliedPenalty
  }

  /** The most severe confirmed contributor. */
  function ExpectedHighest(cs: seq<StoredContributor>): Option<Severity> {
    if cs == [] then None
    else
      var rest := ExpectedHighest(cs[1..]);
      var here := ParseSeverity(cs[0].severity);
      if ParseState(cs[0].state) == Some(Confirmed) && here.Some?
         && (rest.None? || rest.value.Rank() <= here.value.Rank())
      then here else rest
  }

  function AppliedTotal(categories: seq<StoredCategory>): int {
    if categories == [] then 0 else categories[0].appliedPenalty + AppliedTotal(categories[1..])
  }

  predicate GuardrailOk(g: StoredGuardrail, score: int, categories: seq<StoredCategory>,
                        contributors: seq<StoredContributor>, total: int)
  {
    && (g.highestConfirmed.Some? ==> ParseSeverity(g.highestConfirmed.value).Some?)
    && (if g.highestConfirmed.Some? then ParseSeverity(g.highestConfirmed.value) else None)
      == ExpectedHighest(contributors)
    && 0 <= g.categoryTotal == AppliedTotal(categories)
    && 0 <= g.effectiveTotal <= 100 && g.effectiveTotal == total
    && 0 <= g.additional <= 100 && g.additional == total - AppliedTotal(categories)
    && g.applied == (g.additional != 0)
    && (g.ceiling.Some? ==> 0 <= g.ceiling.value <= 100)
    && g.ceiling == if g.additional != 0 then Some(score) else None
  }

  const SEVERITY_NAMES: set<string> := {"INFO", "LOW", "MEDIUM", "HIGH", "CRITICAL"}
  const RISK_LEVELS: set<string> := {"LOW", "MODERATE", "HIGH", "CRITICAL"}

  predicate HeaderOk(s: StoredScore, text: TextServices) {
    && 0 <= s.score <= 100
    && ReportText(s.riskLevel, 32, text) && text.Strip(s.riskLevel) in RISK_LEVELS
    && s.counts.Keys <= SEVERITY_NAMES
    && (forall k :: k in s.counts ==> s.counts[k] >= 0)
    && 0 <= s.totalPenalty <= 100
    && s.score + s.totalPenalty == 100
  }

  ghost predicate Acceptable(s: StoredScore, reportIds: set<string>, text: TextServices) {
    && HeaderOk(s, text)
    && CategoriesOk(s.categories)
    && ContributorsOk(s.contributors, reportIds, text)
    && TotalsOk(s.categories, s.contributors)
    && GuardrailOk(s.guardrail, s.score, s.categories, s.contributors, s.totalPenalty)
  }

  // ----- what each error says

  ghost predicate CategoryFault(e: ReportError, raw: seq<StoredCategory>) {
    match e
    case InvalidSequence => |raw| > 3
    case InvalidCategories => |raw| < 3
    case InvalidCategory =>
      exists i :: 0 <= i < |raw| && (ParseCategory(raw[i].category).None? || raw[i].appliedPenalty > raw[i].rawPenalty)
    case DuplicateCategory =>
      exists i, j :: 0 <= i < j < |raw|
        && ParseCategory(raw[i].category).Some? && ParseCategory(raw[i].category) == ParseCategory(raw[j].category)
    case ValueOutOfRange => exists i :: 0 <= i < |raw| && (raw[i].rawPenalty < 0 || raw[i].appliedPenalty < 0)
    case InvalidCategoryOrder => |raw| == 3 && (forall i :: 0 <= i < 3 ==> CategoryOk(raw[i])) && !CategoriesOk(raw)
    case _ => false
  }

  ghost predicate Unreadable(ids: seq<string>, maximum: nat, text: TextServices) {
    exists i :: 0 <= i < |ids| && !ReportText(ids[i], maximum, text)
  }

  ghost predicate ReferenceFault(e: ReportError, ids: seq<string>, referenced: set<string>, reportIds: set<string>,
                                 text: TextServices)
  {
    match e
    case InvalidSequence => |ids| > MAX_SCORING_GROUP_MEMBERS
    case InvalidText => Unreadable(ids, MAX_SCORING_FINDING_ID_LENGTH, text)
    case InvalidFindingReference =>
      && |ids| <= MAX_SCORING_GROUP_MEMBERS && !Unreadable(ids, MAX_SCORING_FINDING_ID_LENGTH, text)
      && !(ReferencesOk(ids, reportIds, text) && referenced !! Elems(Stripped(ids, text)))
    case _ => false
  }

  ghost predicate PenaltyFault(e: ReportError, c: StoredContributor) {
    match e
    case InvalidSequence => |c.atomicPenalties| > MAX_ATOMIC_PENALTIES
    case InvalidAtomicPenalties => c.atomicPenalties == []
    case ValueOutOfRange =>
      || c.basePenalty < 0 || c.rawPenalty < 0 || c.appliedPenalty < 0
      || exists i :: 0 <= i < |c.atomicPenalties| && c.atomicPenalties[i] < 0
    case InvalidPenalty =>
      && c.atomicPenalties != [] && c.basePenalty >= 0 && c.rawPenalty >= 0 && c.appliedPenalty >= 0
      && (c.basePenalty != MaxInt(c.atomicPenalties) || c.appliedPenalty > c.rawPenalty)
    case _ => false
  }

  ghost predicate ValueFault(e: ReportError, c: StoredContributor) {
    var known := ParseCategory(c.category).Some? && ParseSeverity(c.severity).Some? && ParseState(c.state).Some?
                 && ParseBasis(c.basis).Some?;
    var scoreable := ParseState(c.state) == Some(Confirmed) || ParseState(c.state) == Some(Potential);
    match e
    case InvalidContributor => !known
    case InvalidState => known && !scoreable
    case InvalidBasis => known && scoreable && !ClosedValuesOk(c)
    case _ => false
  }

  ghost predicate ContributorFault(e: ReportError, c: StoredContributor, groupIds: set<string>,
                                   referenced: set<string>, reportIds: set<string>, text: TextServices)
  {
    || (e == InvalidText && !ReportText(c.groupId, MAX_SCORING_TEXT_LENGTH, text))
    || (e == DuplicateGroup && text.Strip(c.groupId) in groupIds)
    || ValueFault(e, c)
    || ReferenceFault(e, c.findingIds, referenced, reportIds, text)
    || PenaltyFault(e, c)
  }

  /** The group ids of the contributors before the i-th. */
  ghost function IdsBefore(cs: seq<StoredContributor>, i: nat, text: TextServices): set<string>
    requires i <= |cs|
  {
    set j | 0 <= j < i :: text.Strip(cs[j].groupId)
  }

  ghost predicate ContributorsFault(e: ReportError, cs: seq<StoredContributor>, reportIds: set<string>,
                                    text: TextServices)
  {
    || (e == InvalidSequence && |cs| > MAX_SCORING_CONTRIBUTORS)
    || (e == InvalidGroupOrder && !Sorted(GroupIds(cs, text), StrLe))
    || FirstFault(e, cs, reportIds, text)
  }

  /** The first contributor that is at odds with itself or with an earlier one has this fault. */
  ghost predicate FirstFault(e: ReportError, cs: seq<StoredContributor>, reportIds: set<string>, text: TextServices) {
    exists i ::
      && 0 <= i < |cs| && ContributorsDisjoint(cs[..i], reportIds, text)
      && ContributorFault(e, cs[i], IdsBefore(cs, i, text), ReferencedBy(cs[..i], text), reportIds, text)
  }

  ghost predicate GuardrailFault(e: ReportError, g: StoredGuardrail, score: int, categories: seq<StoredCategory>,
                                 contributors: seq<StoredContributor>, total: int)
  {
    var inRange := 0 <= g.categoryTotal && 0 <= g.effectiveTotal <= 100 && 0 <= g.additional <= 100
                   && (g.ceiling.Some? ==> 0 <= g.ceiling.value <= 100);
    match e
    case ValueOutOfRange => !inRange
    case InvalidGuardrail =>
      || (g.highestConfirmed.Some? && ParseSeverity(g.highestConfirmed.value).None?)
      || (inRange && !GuardrailOk(g, score, categories, contributors, total))
    case _ => false
  }

  /** What is wrong with a score that is refused with this error. */
  ghost predicate Fault(e: ReportError, s: StoredScore, reportIds: set<string>, text: TextServices) {
    || (e == ValueOutOfRange
        && (!(0 <= s.score <= 100) || !(0 <= s.totalPenalty <= 100) || exists k :: k in s.counts && s.counts[k] < 0))
    || (e == InvalidText && !ReportText(s.riskLevel, 32, text))
    || (e == InvalidCounts && !(s.counts.Keys <= SEVERITY_NAMES))
    || (e == InvalidRiskLevel && text.Strip(s.riskLevel) !in RISK_LEVELS)
    || (e == InvalidEffectivePenalty && s.score + s.totalPenalty != 100)
    || CategoryFault(e, s.categories)
    || ContributorsFault(e, s.contributors, reportIds, text)
    || (e == InvalidCategoryTotal && !TotalsOk(s.categories, s.contributors))
    || GuardrailFault(e, s.guardrail, s.score, s.categories, s.contributors, s.totalPenalty)
  }

  // ----- the validator

  method ValidateCategories(raw: seq<StoredCategory>) returns (r: Result<seq<StoredCategory>, ReportError>)
    ensures r.Ok? <==> CategoriesOk(raw)
    ensures r.Ok? ==> r.value == raw
    ensures r.Err? ==> CategoryFault(r.error, raw)
  {
    if |raw| > 3 { return Err(InvalidSequence); }
    if |raw| != 3 { return Err(InvalidCategories); }
    var seen: set<ScoringCategory> := {};
    var names: seq<ScoringCategory> := [];
    for i := 0 to 3
      invariant |names| == i
      invariant forall j :: 0 <= j < i ==> CategoryOk(raw[j]) && ParseCategory(raw[j].category) == Some(names[j])
      invariant forall c :: c in seen <==> c in names
    {
      var name := ParseCategory(raw[i].category);
      if name.None? { return Err(InvalidCategory); }
      if name.value in seen {
        assert exists j :: 0 <= j < i && names[j] == name.value;
        return Err(DuplicateCategory);
      }
      seen := seen + {name.value};
      if raw[i].rawPenalty < 0 || raw[i].appliedPenalty < 0 { return Err(ValueOutOfRange); }
      if raw[i].appliedPenalty > raw[i].rawPenalty { return Err(InvalidCategory); }
      names := names + [name.value];
    }
    if names != CATEGORIES {
      return Err(InvalidCategoryOrder);
    }
    r := Ok(raw);
  }

  method StripTexts(ids: seq<string>, maximum: nat, text: TextServices) returns (r: Result<seq<string>, ReportError>)
    ensures r.Ok? <==> !Unreadable(ids, maximum, text)
    ensures r.Ok? ==> r.value == Stripped(ids, text)
    ensures r.Err? ==> r.error == InvalidText
  {
    for i := 0 to |ids|
      invariant forall j :: 0 <= j < i ==> ReportText(ids[j], maximum, text)
    {
      if !ReportText(ids[i], maximum, text) { return Err(InvalidText); }
    }
    r := Ok(Stripped(ids, text));
  }

  lemma SortedIffSort(s: seq<string>)
    ensures Sort(s, StrLe) == s <==> Sorted(s, StrLe)
  {
    StrLeIsTotal();
    SortIsSorted(s, StrLe);
    if Sorted(s, StrLe) { SortedStays(s, StrLe); }
  }

  /** The reference checks as the validator evaluates them, on stripped ids. */
  predicate ReferencesRejected(findingIds: seq<string>, referenced: set<string>, reportIds: set<string>) {
    var idSet := set id | id in findingIds;
    findingIds == [] || |idSet| != |findingIds| || Sort(findingIds, StrLe) != findingIds
    || !(referenced !! idSet) || !(idSet <= reportIds)
  }

  lemma RejectionMeans(ids: seq<string>, referenced: set<string>, reportIds: set<string>, text: TextServices)
    requires |ids| <= MAX_SCORING_GROUP_MEMBERS
    requires forall i :: 0 <= i < |ids| ==> ReportText(ids[i], MAX_SCORING_FINDING_ID_LENGTH, text)
    ensures !ReferencesRejected(Stripped(ids, text), referenced, reportIds)
      <==> ReferencesOk(ids, reportIds, text) && referenced !! Elems(Stripped(ids, text))
  {
    hide Sort, Stripped, ReportText, Sorted, Distinct;
    var findingIds := Stripped(ids, text);
    var idSet := set id | id in findingIds;
    assert idSet == Elems(findingIds);
    DistinctIffCounted(findingIds);
    SortedIffSort(findingIds);
    hide Elems;
    assert |ids| == |findingIds|;
  }

  method ValidateReferences(ids: seq<string>, referenced: set<string>, reportIds: set<string>, text: TextServices)
    returns (r: Result<seq<string>, ReportError>)
    ensures r.Ok? <==> ReferencesOk(ids, reportIds, text) && referenced !! Elems(Stripped(ids, text))
    ensures r.Ok? ==> r.value == Stripped(ids, text)
    ensures r.Err? ==> ReferenceFault(r.error, ids, referenced, reportIds, text)
  {
    if |ids| > MAX_SCORING_GROUP_MEMBERS { return Err(InvalidSequence); }
    var stripped := StripTexts(ids, MAX_SCORING_FINDING_ID_LENGTH, text);
    if stripped.Err? { return Err(stripped.error); }
    RejectionMeans(ids, referenced, reportIds, text);
    hide ReferencesRejected, ReferencesOk, Stripped, Elems, ReportText;
    if ReferencesRejected(stripped.value, referenced, reportIds) {
      return Err(InvalidFindingReference);
    }
    r := Ok(stripped.value);
  }

  method ValidatePenalties(c: StoredContributor) returns (r: Result<(), ReportError>)
    ensures r.Ok? <==> PenaltiesOk(c)
    ensures r.Err? ==> PenaltyFault(r.error, c)
  {
    if |c.atomicPenalties| > MAX_ATOMIC_PENALTIES { return Err(InvalidSequence); }
    for i := 0 to |c.atomicPenalties|
      invariant forall j :: 0 <= j < i ==> c.atomicPenalties[j] >= 0
    {
      if c.atomicPenalties[i] < 0 { return Err(ValueOutOfRange); }
    }
    if c.atomicPenalties == [] { return Err(InvalidAtomicPenalties); }
    MaxIsNonNegative(c.atomicPenalties);
    if c.basePenalty < 0 || c.rawPenalty < 0 || c.appliedPenalty < 0 { return Err(ValueOutOfRange); }
    if c.basePenalty != MaxInt(c.atomicPenalties) || c.appliedPenalty > c.rawPenalty { return Err(InvalidPenalty); }
    r := Ok(());
  }

  lemma {:induction false} MaxIsNonNegative(s: seq<int>)
    requires s != [] && forall i :: 0 <= i < |s| ==> s[i] >= 0
    ensures MaxInt(s) >= 0
  {
    if |s| > 1 { MaxIsNonNegative(s[1..]); }
  }

  method ValidateClosedValues(c: StoredContributor) returns (r: Result<(), ReportError>)
    ensures r.Ok? <==> ClosedValuesOk(c)
    ensures r.Err? ==> ValueFault(r.error, c)
  {
    var category := ParseCategory(c.category);
    var severity := ParseSeverity(c.severity);
    var state := ParseState(c.state);
    var basis := ParseBasis(c.basis);
    if category.None? || severity.None? || state.None? || basis.None? { return Err(InvalidContributor); }
    if state.value != Confirmed && state.value != Potential { return Err(InvalidState); }
    if basis.value != BasisFor(category.value, state.value) { return Err(InvalidBasis); }
    r := Ok(());
  }

  /** The contributor with its texts stripped. */
  function Normalized(c: StoredContributor, text: TextServices): StoredContributor {
    c.(groupId := text.Strip(c.groupId), findingIds := Stripped(c.findingIds, text))
  }

  ghost function ReferencedBy(cs: seq<StoredContributor>, text: TextServices): set<string> {
    set i, x | 0 <= i < |cs| && x in Stripped(cs[i].findingIds, text) :: x
  }

  /** Everything ContributorsOk asks except the order of the group ids. */
  ghost predicate ContributorsDisjoint(cs: seq<StoredContributor>, reportIds: set<string>, text: TextServices) {
    && (forall i :: 0 <= i < |cs| ==> ContributorOk(cs[i], reportIds, text))
    && (forall i, j :: 0 <= i < j < |cs| ==> text.Strip(cs[i].groupId) != text.Strip(cs[j].groupId))
    && (forall i, j :: 0 <= i < j < |cs| ==>
          Elems(Stripped(cs[i].findingIds, text)) !! Elems(Stripped(cs[j].findingIds, text)))
  }

  ghost predicate NewGroup(cs: seq<StoredContributor>, c: StoredContributor, text: TextServices) {
    forall i :: 0 <= i < |cs| ==> text.Strip(cs[i].groupId) != text.Strip(c.groupId)
  }

  lemma OneMore(cs: seq<StoredContributor>, c: StoredContributor, reportIds: set<string>, text: TextServices)
    requires ContributorsDisjoint(cs, reportIds, text)
    ensures ContributorsDisjoint(cs + [c], reportIds, text) <==>
      && ContributorOk(c, reportIds, text)
      && NewGroup(cs, c, text)
      && ReferencedBy(cs, text) !! Elems(Stripped(c.findingIds, text))
    ensures ReferencedBy(cs + [c], text) == ReferencedBy(cs, text) + Elems(Stripped(c.findingIds, text))
  {
    hide ContributorOk;
    var next := cs + [c];
    assert next[|cs|] == c && forall i :: 0 <= i < |cs| ==> next[i] == cs[i];
    forall x
      ensures x in ReferencedBy(next, text) <==> x in ReferencedBy(cs, text) || x in Stripped(c.findingIds, text)
    {
      if x in ReferencedBy(cs, text) {
        var i :| 0 <= i < |cs| && x in Stripped(cs[i].findingIds, text);
        assert x in Stripped(next[i].findingIds, text);
      }
      if x in Stripped(c.findingIds, text) { assert x in Stripped(next[|cs|].findingIds, text); }
    }
  }

  lemma PrefixDisjoint(cs: seq<StoredContributor>, i: nat, reportIds: set<string>, text: TextServices)
    requires i <= |cs| && ContributorsDisjoint(cs, reportIds, text)
    ensures ContributorsDisjoint(cs[..i], reportIds, text)
  {
    hide ContributorOk;
  }

  method ValidateContributor(c: StoredContributor, groupIds: set<string>, referenced: set<string>,
                             reportIds: set<string>, text: TextServices)
    returns (r: Result<StoredContributor, ReportError>)
    ensures r.Ok? <==>
      && ContributorOk(c, reportIds, text)
      && text.Strip(c.groupId) !in groupIds
      && referenced !! Elems(Stripped(c.findingIds, text))
    ensures r.Ok? ==> r.value == Normalized(c, text)
    ensures r.Err? ==> ContributorFault(r.error, c, groupIds, referenced, reportIds, text)
  {
    hide ReferencesOk, PenaltiesOk, ClosedValuesOk;
    if !ReportText(c.groupId, MAX_SCORING_TEXT_LENGTH, text) { return Err(InvalidText); }
    var groupId := text.Strip(c.groupId);
    if groupId in groupIds { return Err(DuplicateGroup); }
    var closed := ValidateClosedValues(c);
    if closed.Err? { return Err(closed.error); }
    var references := ValidateReferences(c.findingIds, referenced, reportIds, text);
    if references.Err? { return Err(references.error); }
    var penalties := ValidatePenalties(c);
    if penalties.Err? { return Err(penalties.error); }
    r := Ok(c.(groupId := groupId, findingIds := references.value));
  }

  function GroupIds(cs: seq<StoredContributor>, text: TextServices): (r: seq<string>)
    ensures |r| == |cs| && forall i :: 0 <= i < |cs| ==> r[i] == text.Strip(cs[i].groupId)
  {
    if cs == [] then [] else [text.Strip(cs[0].groupId)] + GroupIds(cs[1..], text)
  }

  ghost predicate Collected(groupIds: set<string>, raw: seq<StoredContributor>, n: nat, text: TextServices)
    requires n <= |raw|
  {
    forall x :: x in groupIds <==> exists j :: 0 <= j < n && x == text.Strip(raw[j].groupId)
  }

  lemma CollectOne(groupIds: set<string>, raw: seq<StoredContributor>, n: nat, text: TextServices)
    requires n < |raw| && Collected(groupIds, raw, n, text)
    ensures Collected(groupIds + {text.Strip(raw[n].groupId)}, raw, n + 1, text)
    ensures text.Strip(raw[n].groupId) !in groupIds <==> NewGroup(raw[..n], raw[n], text)
  {
    assert forall i :: 0 <= i < n ==> raw[..n][i] == raw[i];
  }

  lemma NothingCollected(raw: seq<StoredContributor>, reportIds: set<string>, text: TextServices)
    ensures Collected({}, raw, 0, text) && ReferencedBy(raw[..0], text) == {}
    ensures ContributorsDisjoint(raw[..0], reportIds, text)
  {
  }

  lemma OkIsDisjointAndSorted(raw: seq<StoredContributor>, reportIds: set<string>, text: TextServices)
    requires |raw| <= MAX_SCORING_CONTRIBUTORS
    ensures ContributorsOk(raw, reportIds, text)
      <==> ContributorsDisjoint(raw, reportIds, text) && Sorted(GroupIds(raw, text), StrLe)
  {
    hide ContributorOk, StrLe, Stripped;
  }

  lemma CollectedAre(groupIds: set<string>, raw: seq<StoredContributor>, n: nat, text: TextServices)
    requires n <= |raw| && Collected(groupIds, raw, n, text)
    ensures groupIds == IdsBefore(raw, n, text)
  {
  }

  lemma FaultAt(e: ReportError, raw: seq<StoredContributor>, i: nat, reportIds: set<string>, text: TextServices)
    requires i < |raw| && ContributorsDisjoint(raw[..i], reportIds, text)
    requires ContributorFault(e, raw[i], IdsBefore(raw, i, text), ReferencedBy(raw[..i], text), reportIds, text)
    ensures FirstFault(e, raw, reportIds, text)
  {
    hide ContributorFault, ContributorsDisjoint, IdsBefore, ReferencedBy;
  }

  method CollectContributors(raw: seq<StoredContributor>, reportIds: set<string>, text: TextServices)
    returns (r: Result<seq<StoredContributor>, ReportError>)
    ensures r.Ok? <==> ContributorsDisjoint(raw, reportIds, text)
    ensures r.Ok? ==> |r.value| == |raw| && forall i :: 0 <= i < |raw| ==> r.value[i] == Normalized(raw[i], text)
    ensures r.Err? ==> FirstFault(r.error, raw, reportIds, text)
  {
    NothingCollected(raw, reportIds, text);
    hide ContributorOk, ReferencedBy, ContributorsDisjoint, Collected, Stripped, NewGroup, Normalized, Elems,
      ContributorFault, FirstFault, IdsBefore;
    var normalized: seq<StoredContributor> := [];
    var groupIds: set<string> := {};
    var referenced: set<string> := {};
    for i := 0 to |raw|
      invariant |normalized| == i && forall j :: 0 <= j < i ==> normalized[j] == Normalized(raw[j], text)
      invariant ContributorsDisjoint(raw[..i], reportIds, text)
      invariant Collected(groupIds, raw, i, text)
      invariant referenced == ReferencedBy(raw[..i], text)
    {
      var c := ValidateContributor(raw[i], groupIds, referenced, reportIds, text);
      OneMore(raw[..i], raw[i], reportIds, text);
      CollectOne(groupIds, raw, i, text);
      assert raw[..i + 1] == raw[..i] + [raw[i]];
      if c.Err? {
        NotOkIfPrefixIsNot(raw, i + 1, reportIds, text);
        CollectedAre(groupIds, raw, i, text);
        FaultAt(c.error, raw, i, reportIds, text);
        return Err(c.error);
      }
      NormalizedIds(raw[i], text);
      groupIds := groupIds + {c.value.groupId};
      referenced := referenced + (set id | id in c.value.findingIds);
      normalized := normalized + [c.value];
    }
    assert raw[..|raw|] == raw;
    r := Ok(normalized);
  }

  lemma NormalizedIds(c: StoredContributor, text: TextServices)
    ensures Normalized(c, text).groupId == text.Strip(c.groupId)
    ensures (set id | id in Normalized(c, text).findingIds) == Elems(Stripped(c.findingIds, text))
  {
  }

  method ValidateContributors(raw: seq<StoredContributor>, reportIds: set<string>, text: TextServices)
    returns (r: Result<seq<StoredContributor>, ReportError>)
    ensures r.Ok? <==> ContributorsOk(raw, reportIds, text)
    ensures r.Ok? ==> |r.value| == |raw| && forall i :: 0 <= i < |raw| ==> r.value[i] == Normalized(raw[i], text)
    ensures r.Err? ==> ContributorsFault(r.error, raw, reportIds, text)
  {
    if |raw| > MAX_SCORING_CONTRIBUTORS { return Err(InvalidSequence); }
    OkIsDisjointAndSorted(raw, reportIds, text);
    hide ContributorsDisjoint, ContributorsOk, Sort, Sorted, Normalized;
    r := CollectContributors(raw, reportIds, text);
    if r.Err? { return; }
    var ids := GroupIds(raw, text);
    SortedIffSort(ids);
    if Sort(ids, StrLe) != ids {
      return Err(InvalidGroupOrder);
    }
  }

  lemma NotOkIfPrefixIsNot(cs: seq<StoredContributor>, i: nat, reportIds: set<string>, text: TextServices)
    requires i <= |cs| && !ContributorsDisjoint(cs[..i], reportIds, text)
    ensures !ContributorsDisjoint(cs, reportIds, text)
  {
    hide ContributorOk;
    if ContributorsDisjoint(cs, reportIds, text) {
      PrefixDisjoint(cs, i, reportIds, text);
    }
  }

  method ValidateGuardrail(g: StoredGuardrail, score: int, categories: seq<StoredCategory>,
                           contributors: seq<StoredContributor>, total: int)
    returns (r: Result<StoredGuardrail, ReportError>)
    ensures r.Ok? <==> GuardrailOk(g, score, categories, contributors, total)
    ensures r.Ok? ==> r.value == g
    ensures r.Err? ==> GuardrailFault(r.error, g, score, categories, contributors, total)
  {
    var highest: Option<Severity> := None;
    if g.highestConfirmed.Some? {
      highest := ParseSeverity(g.highestConfirmed.value);
      if highest.None? { return Err(InvalidGuardrail); }
    }
    var expectedHighest := ExpectedHighest(contributors);
    var categoryTotal := AppliedTotal(categories);
    if g.categoryTotal < 0 || !(0 <= g.effectiveTotal <= 100) || !(0 <= g.additional <= 100) {
      return Err(ValueOutOfRange);
    }
    if g.ceiling.Some? && !(0 <= g.ceiling.value <= 100) { return Err(ValueOutOfRange); }
    if highest != expectedHighest || g.categoryTotal != categoryTotal || g.effectiveTotal != total
       || g.additional != total - categoryTotal || g.applied != (g.additional != 0)
       || g.ceiling != (if g.additional != 0 then Some(score) else None)
    {
      return Err(InvalidGuardrail);
    }
    r := Ok(g);
  }

  /** The score as the validator hands it on: texts stripped, absent severity counts zero. */
  function NormalizedScore(s: StoredScore, text: TextServices): StoredScore {
    s.(riskLevel := text.Strip(s.riskLevel),
       counts := map k | k in SEVERITY_NAMES :: if k in s.counts then s.counts[k] else 0,
       contributors := seq(|s.contributors|,
                           i requires 0 <= i < |s.contributors| => Normalized(s.contributors[i], text)))
  }

  method ValidateSerializedScore(s: StoredScore, reportIds: set<string>, text: TextServices)
    returns (r: Result<StoredScore, ReportError>)
    ensures r.Ok? <==> Acceptable(s, reportIds, text)
    ensures r.Ok? ==> r.value == NormalizedScore(s, text)
    ensures r.Err? ==> Fault(r.error, s, reportIds, text)
  {
    hide CategoriesOk, ContributorsOk, GuardrailOk, ReportText, Normalized;
    if !(0 <= s.score <= 100) { return Err(ValueOutOfRange); }
    if !ReportText(s.riskLevel, 32, text) { return Err(InvalidText); }
    var riskLevel := text.Strip(s.riskLevel);
    if !(s.counts.Keys <= SEVERITY_NAMES) { return Err(InvalidCounts); }
    if exists k :: k in s.counts && s.counts[k] < 0 { return Err(ValueOutOfRange); }
    if riskLevel !in RISK_LEVELS { return Err(InvalidRiskLevel); }
    if !(0 <= s.totalPenalty <= 100) { return Err(ValueOutOfRange); }
    if s.score + s.totalPenalty != 100 { return Err(InvalidEffectivePenalty); }
    var categories := ValidateCategories(s.categories);
    if categories.Err? { return Err(categories.error); }
    var contributors := ValidateContributors(s.contributors, reportIds, text);
    if contributors.Err? { return Err(contributors.error); }
    NormalizingKeepsTotals(s.contributors, contributors.value, text);
    for i := 0 to |categories.value|
      invariant forall j :: 0 <= j < i ==>
        RawIn(s.contributors, s.categories[j].category) == s.categories[j].rawPenalty
        && AppliedIn(s.contributors, s.categories[j].category) == s.categories[j].appliedPenalty
    {
      var c := categories.value[i];
      if RawIn(contributors.value, c.category) != c.rawPenalty
         || AppliedIn(contributors.value, c.category) != c.appliedPenalty
      {
        return Err(InvalidCategoryTotal);
      }
    }
    GuardrailIgnoresTexts(s.guardrail, s.score, categories.value, s.contributors, contributors.value, s.totalPenalty);
    var guardrail := ValidateGuardrail(s.guardrail, s.score, categories.value, contributors.value, s.totalPenalty);
    if guardrail.Err? { return Err(guardrail.error); }
    var counts := map k | k in SEVERITY_NAMES :: if k in s.counts then s.counts[k] else 0;
    r := Ok(StoredScore(s.score, riskLevel, counts, s.totalPenalty, categories.value, contributors.value,
                        guardrail.value));
  }

  lemma {:induction false} NormalizingKeepsTotals(raw: seq<StoredContributor>, normalized: seq<StoredContributor>,
                                                  text: TextServices)
    requires |normalized| == |raw| && forall i :: 0 <= i < |raw| ==> normalized[i] == Normalized(raw[i], text)
    ensures forall c :: RawIn(normalized, c) == RawIn(raw, c)
    ensures forall c :: AppliedIn(normalized, c) == AppliedIn(raw, c)
    ensures ExpectedHighest(normalized) == ExpectedHighest(raw)
  {
    if raw != [] { NormalizingKeepsTotals(raw[1..], normalized[1..], text); }
  }

  /** Validating a validated score again accepts it and changes nothing. */
  lemma ValidationIsStable(s: StoredScore, reportIds: set<string>, text: TextServices)
    requires Acceptable(s, reportIds, text)
    ensures Acceptable(NormalizedScore(s, text), reportIds, text)
    ensures NormalizedScore(NormalizedScore(s, text), text) == NormalizedScore(s, text)
  {
    hide CategoriesOk, ContributorsOk, GuardrailOk, TotalsOk, ReportText, Normalized, TextServices.Strip;
    var n := NormalizedScore(s, text);
    text.StripIsStable(s.riskLevel);
    NormalizingKeepsTotals(s.contributors, n.contributors, text);
    GuardrailIgnoresTexts(s.guardrail, s.score, s.categories, s.contributors, n.contributors, s.totalPenalty);
    ContributorsAreStable(s.contributors, n.contributors, reportIds, text);
    TotalsIgnoreTexts(s.categories, s.contributors, n.contributors);
    ReportTextIsStable(s.riskLevel, 32, text);
  }

  lemma ReportTextIsStable(s: string, maximum: nat, text: TextServices)
    requires ReportText(s, maximum, text)
    ensures ReportText(text.Strip(s), maximum, text)
  {
    text.StripIsStable(s);
    hide TextServices.Strip;
  }

  lemma TotalsIgnoreTexts(categories: seq<StoredCategory>, raw: seq<StoredContributor>,
                          normalized: seq<StoredContributor>)
    requires forall c :: RawIn(normalized, c) == RawIn(raw, c)
    requires forall c :: AppliedIn(normalized, c) == AppliedIn(raw, c)
    ensures TotalsOk(categories, normalized) == TotalsOk(categories, raw)
  {
  }

  lemma ContributorsAreStable(raw: seq<StoredContributor>, normalized: seq<StoredContributor>, reportIds: set<string>,
                              text: TextServices)
    requires |normalized| == |raw| && forall i :: 0 <= i < |raw| ==> normalized[i] == Normalized(raw[i], text)
    requires ContributorsOk(raw, reportIds, text)
    ensures ContributorsOk(normalized, reportIds, text)
    ensures forall i :: 0 <= i < |raw| ==> Normalized(normalized[i], text) == normalized[i]
  {
    hide ContributorOk, Normalized, TextServices.Strip, StrLe, Elems;
    forall i | 0 <= i < |raw|
      ensures Normalized(normalized[i], text) == normalized[i]
      ensures ContributorOk(normalized[i], reportIds, text)
      ensures text.Strip(normalized[i].groupId) == text.Strip(raw[i].groupId)
      ensures Stripped(normalized[i].findingIds, text) == Stripped(raw[i].findingIds, text)
    {
      NormalizedIsStable(raw[i], reportIds, text);
    }
  }

  lemma NormalizedIsStable(c: StoredContributor, reportIds: set<string>, text: TextServices)
    requires ContributorOk(c, reportIds, text)
    ensures var n := Normalized(c, text);
      && Normalized(n, text) == n && ContributorOk(n, reportIds, text)
      && text.Strip(n.groupId) == text.Strip(c.groupId)
      && Stripped(n.findingIds, text) == Stripped(c.findingIds, text)
  {
    text.StripIsStable(c.groupId);
    StrippedIsStable(c.findingIds, text);
    hide TextServices.Strip, Stripped, StrLe, Sorted, Distinct, Elems;
  }

  lemma StrippedIsStable(ids: seq<string>, text: TextServices)
    ensures Stripped(Stripped(ids, text), text) == Stripped(ids, text)
    ensures forall i :: 0 <= i < |ids| ==> text.Strip(Stripped(ids, text)[i]) == text.Strip(ids[i])
  {
    forall i | 0 <= i < |ids| ensures text.Strip(Stripped(ids, text)[i]) == text.Strip(ids[i]) {
      text.StripIsStable(ids[i]);
    }
  }

  lemma GuardrailIgnoresTexts(g: StoredGuardrail, score: int, categories: seq<StoredCategory>,
                              raw: seq<StoredContributor>, normalized: seq<StoredContributor>, total: int)
    requires ExpectedHighest(normalized) == ExpectedHighest(raw)
    ensures GuardrailOk(g, score, categories, raw, total) == GuardrailOk(g, score, categories, normalized, total)
  {
  }

  // ----- the serialiser

  function StoreCategory(c: CategoryBreakdown): StoredCategory {
    StoredCategory(c.category.Value(), c.rawPenalty, c.appliedPenalty, c.saturated)
  }

  function StoreContributor(g: ScoringRiskGroup): StoredContributor {
    StoredContributor(g.groupId, g.category.Value(), g.findingIds, g.severity.Value(), g.state.Value(),
                      g.atomicPenalties, g.basePenalty, g.rawPenalty, g.appliedPenalty, g.basis.Value())
  }

  function StoreCategories(cs: seq<CategoryBreakdown>): (r: seq<StoredCategory>)
    ensures |r| == |cs| && forall i :: 0 <= i < |cs| ==> r[i] == StoreCategory(cs[i])
  {
    if cs == [] then [] else [StoreCategory(cs[0])] + StoreCategories(cs[1..])
  }

  function StoreContributors(gs: seq<ScoringRiskGroup>): (r: seq<StoredContributor>)
    ensures |r| == |gs| && forall i :: 0 <= i < |gs| ==> r[i] == StoreContributor(gs[i])
  {
    if gs == [] then [] else [StoreContributor(gs[0])] + StoreContributors(gs[1..])
  }

  function CategoryTotal(cs: seq<CategoryBreakdown>): nat {
    if cs == [] then 0 else cs[0].appliedPenalty + CategoryTotal(cs[1..])
  }

  function GuardrailOf(r: ScoringResult): StoredGuardrail {
    var categoryTotal := CategoryTotal(r.categories);
    var additional := r.totalPenalty - categoryTotal;
    StoredGuardrail(if r.highestConfirmed.Some? then Some(r.highestConfirmed.value.Value()) else None,
                    categoryTotal, r.totalPenalty, additional,
                    if additional != 0 then Some(r.score) else None, additional != 0)
  }

  function StoreCounts(counts: seq<(Severity, nat)>): map<string, int> {
    if counts == [] then map[]
    else StoreCounts(counts[..|counts| - 1])[counts[|counts| - 1].0.Value() := counts[|counts| - 1].1]
  }

  function Store(r: ScoringResult): StoredScore {
    StoredScore(r.score, r.riskLevel, StoreCounts(r.counts), r.totalPenalty, StoreCategories(r.categories),
                StoreContributors(r.contributors), GuardrailOf(r))
  }

  ghost predicate CitesOnly(r: ScoringResult, reportIds: set<string>) {
    forall i :: 0 <= i < |r.contributors| ==> Elems(r.contributors[i].findingIds) <= reportIds
  }

  lemma NoFaultIsUnknown(s: StoredScore, reportIds: set<string>, text: TextServices)
    ensures !Fault(UnknownFinding, s, reportIds, text)
  {
  }

  method SerializeScoringResult(result: ScoringResult, reportIds: set<string>, text: TextServices)
    returns (r: Result<StoredScore, ReportError>)
    ensures r.Ok? <==> CitesOnly(result, reportIds) && Acceptable(Store(result), reportIds, text)
    ensures r.Ok? ==> r.value == Store(result)
    ensures r == Err(UnknownFinding) <==> !CitesOnly(result, reportIds)
    ensures r.Err? && CitesOnly(result, reportIds) ==> Fault(r.error, Store(result), reportIds, text)
  {
    hide Acceptable, Store;
    NoFaultIsUnknown(Store(result), reportIds, text);
    hide Fault;
    var contributorIds: set<string> := {};
    for i := 0 to |result.contributors|
      invariant contributorIds == set j, x | 0 <= j < i && x in result.contributors[j].findingIds :: x
    {
      contributorIds := contributorIds + (set id | id in result.contributors[i].findingIds);
    }
    if !(contributorIds <= reportIds) { return Err(UnknownFinding); }
    var score := Store(result);
    var validated := ValidateSerializedScore(score, reportIds, text);
    if validated.Err? { return Err(validated.error); }
    r := Ok(score);
  }
}
